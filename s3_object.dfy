/** The canonical reference to one stored object: region, bucket, key, size and
    the optional eTag and versionId. */
module S3Objects {
  import opened Wrappers

  /** The immutable value; its destructors are the accessors (the optional getters
      wrap the nullable fields with `Optional.fromNullable`, which `Option` already is). */
  datatype AmazonS3Object = AmazonS3Object(
    region: string,
    bucketName: string,
    key: string,
    size: Int32,
    eTag: Option<string>,
    versionId: Option<string>)

  /** A Guava `Optional` argument that may itself be a null reference:
      None is null, Some(None) is `Optional.absent()`. */
  function OrNull(o: Option<Option<string>>): (r: Option<string>)
    ensures r.Some? <==> o.Some? && o.value.Some?
    ensures r.Some? ==> r.value == o.value.value
  {
    match o
    case None => None
    case Some(inner) => inner
  }

  /** The constructor: null region, bucket name or key fail the not-null checks
      (in that order, all with a NullPointerException); a null or absent eTag or
      versionId is stored as null. */
  function New(region: Option<string>, bucketName: Option<string>, key: Option<string>,
               size: Int32, eTag: Option<Option<string>>, versionId: Option<Option<string>>)
    : (r: Result<AmazonS3Object, JavaError>)
    ensures r.Success? <==> region.Some? && bucketName.Some? && key.Some?
    ensures r.Success? ==>
              && r.value.region == region.value
              && r.value.bucketName == bucketName.value
              && r.value.key == key.value
              && r.value.size == size
              && r.value.eTag == OrNull(eTag)
              && r.value.versionId == OrNull(versionId)
  {
    if region.None? || bucketName.None? || key.None? then Failure(NullPointer)
    else Success(AmazonS3Object(region.value, bucketName.value, key.value, size, OrNull(eTag), OrNull(versionId)))
  }

  /** `equals`: all six fields compared with `Objects.equals`. */
  function Equals(a: AmazonS3Object, b: AmazonS3Object): (r: bool)
    ensures r <==> a == b
  {
    && a.region == b.region && a.bucketName == b.bucketName && a.key == b.key
    && a.size == b.size && a.eTag == b.eTag && a.versionId == b.versionId
  }

  /** Equal constructor arguments give equal objects, and equal objects came from
      arguments that agree on every stored field. */
  lemma NewEqualsIffArguments(
    region: string, bucketName: string, key: string, size: Int32, eTag: Option<Option<string>>, versionId: Option<Option<string>>,
    region': string, bucketName': string, key': string, size': Int32, eTag': Option<Option<string>>, versionId': Option<Option<string>>)
    ensures var a := New(Some(region), Some(bucketName), Some(key), size, eTag, versionId);
            var b := New(Some(region'), Some(bucketName'), Some(key'), size', eTag', versionId');
            a.Success? && b.Success? &&
            (Equals(a.value, b.value) <==>
               region == region' && bucketName == bucketName' && key == key' && size == size'
               && OrNull(eTag) == OrNull(eTag') && OrNull(versionId) == OrNull(versionId'))
  {
  }
}
