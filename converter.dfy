/** Conversion between a change-notification record and the canonical object reference. */
module Converter {
  import opened Wrappers
  import opened EventRecords
  import opened S3Objects

  /** The record has every part the forward direction dereferences or requires. */
  predicate Complete(a: AmazonEventRecord) {
    && a.awsRegion.Some?
    && a.s3.Some?
    && a.s3.value.bucket.Some? && a.s3.value.bucket.value.name.Some?
    && a.s3.value.obj.Some? && a.s3.value.obj.value.key.Some?
    && a.s3.value.obj.value.size.Some?
  }

  /** `doForward`: a null `s3`, bucket or object part, or a null boxed size, throws
      while the arguments are evaluated; a null region, bucket name or key is then
      rejected by the reference's constructor. Every one of these is a
      NullPointerException. */
  function DoForward(a: AmazonEventRecord): (r: Result<AmazonS3Object, JavaError>)
    ensures r.Success? <==> Complete(a)
    ensures r.Success? ==>
              && r.value.region == a.awsRegion.value
              && r.value.bucketName == a.s3.value.bucket.value.name.value
              && r.value.key == a.s3.value.obj.value.key.value
              && r.value.size == a.s3.value.obj.value.size.value
              && r.value.eTag == a.s3.value.obj.value.eTag
              && r.value.versionId == a.s3.value.obj.value.versionId
  {
    if a.s3.None? || a.s3.value.bucket.None? || a.s3.value.obj.None? || a.s3.value.obj.value.size.None? then
      Failure(NullPointer)
    else
      var o := a.s3.value.obj.value;
      New(a.awsRegion, a.s3.value.bucket.value.name, o.key, o.size.value, Some(o.eTag), Some(o.versionId))
  }

  /** `doBackward`: keeps bucket name, key, size, eTag and versionId; the event
      metadata, the region and the sequencer become null. */
  function DoBackward(b: AmazonS3Object): (r: AmazonEventRecord)
    ensures r.eventVersion.None? && r.eventSource.None? && r.awsRegion.None?
    ensures r.eventTime.None? && r.eventName.None?
    ensures r.s3.Some? && r.s3.value.bucket.Some? && r.s3.value.obj.Some?
    ensures r.s3.value.bucket.value.name == Some(b.bucketName)
    ensures var o := r.s3.value.obj.value;
            o.key == Some(b.key) && o.size == Some(b.size) && o.eTag == b.eTag
            && o.versionId == b.versionId && o.sequencer.None?
  {
    var bucket := AmazonEventRecordS3Bucket(Some(b.bucketName));
    var obj := AmazonEventRecordS3Object(Some(b.key), Some(b.size), b.eTag, b.versionId, None);
    AmazonEventRecord(None, None, None, None, None, Some(AmazonEventRecordS3(Some(bucket), Some(obj))))
  }

  /** Guava's `Converter.convert`: a null record converts to null without calling `doForward`. */
  function Convert(a: Option<AmazonEventRecord>): (r: Result<Option<AmazonS3Object>, JavaError>)
    ensures a.None? <==> r == Success(None)
    ensures a.Some? ==> (r.Success? <==> Complete(a.value))
    ensures r.Success? && r.value.Some? ==> DoForward(a.value) == Success(r.value.value)
  {
    match a
    case None => Success(None)
    case Some(record) =>
      match DoForward(record)
      case Success(o) => Success(Some(o))
      case Failure(e) => Failure(e)
  }

  /** Backward after forward gives back the record's bucket name, key, size, eTag and versionId. */
  lemma BackwardAfterForward(a: AmazonEventRecord)
    requires DoForward(a).Success?
    ensures var back := DoBackward(DoForward(a).value);
            && back.s3.value.bucket.value.name == a.s3.value.bucket.value.name
            && back.s3.value.obj.value.key == a.s3.value.obj.value.key
            && back.s3.value.obj.value.size == a.s3.value.obj.value.size
            && back.s3.value.obj.value.eTag == a.s3.value.obj.value.eTag
            && back.s3.value.obj.value.versionId == a.s3.value.obj.value.versionId
  {
  }

  /** Forward after backward always fails: backward drops the region, which forward requires. */
  lemma ForwardAfterBackwardFails(b: AmazonS3Object)
    ensures DoForward(DoBackward(b)) == Failure(NullPointer)
  {
  }

  /** Putting the region back is all forward-after-backward misses: it then returns the reference unchanged. */
  lemma ForwardAfterBackwardWithRegion(b: AmazonS3Object)
    ensures DoForward(DoBackward(b).(awsRegion := Some(b.region))) == Success(b)
  {
  }
}
