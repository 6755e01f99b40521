/** The storage change-notification record beans. They only store what the JSON
    held; every field may be absent (null). */
module EventRecords {
  import opened Wrappers

  datatype AmazonEventRecordS3Bucket = AmazonEventRecordS3Bucket(name: Option<string>)

  /** `size` is a boxed `Integer`; `eTag` and `versionId` are read through
      `Optional.fromNullable`, which the `Option` type already is. */
  datatype AmazonEventRecordS3Object = AmazonEventRecordS3Object(
    key: Option<string>,
    size: Option<Int32>,
    eTag: Option<string>,
    versionId: Option<string>,
    sequencer: Option<string>)

  datatype AmazonEventRecordS3 = AmazonEventRecordS3(
    bucket: Option<AmazonEventRecordS3Bucket>,
    // the JSON field `object`
    obj: Option<AmazonEventRecordS3Object>)

  datatype AmazonEventRecord = AmazonEventRecord(
    eventVersion: Option<string>,
    eventSource: Option<string>,
    awsRegion: Option<string>,
    eventTime: Option<string>,
    eventName: Option<string>,
    s3: Option<AmazonEventRecordS3>)

  datatype AmazonEventRecords = AmazonEventRecords(records: seq<AmazonEventRecord>)

  /** The Jackson creator: a missing `Records` list becomes the empty list. */
  function NewEventRecords(records: Option<seq<AmazonEventRecord>>): (r: AmazonEventRecords)
    ensures records.None? ==> r.records == []
    ensures records.Some? ==> r.records == records.value
  {
    AmazonEventRecords(records.GetOr([]))
  }
}
