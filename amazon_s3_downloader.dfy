/** The current downloader: turns a change record into a conditional get, classifies
    the store's reply, and decides whether a download is gzip-compressed. */
module Downloader {
  import opened Wrappers
  import opened JavaText
  import opened EventRecords
  import opened S3Objects
  import opened Storage
  import Converter

  const GZIP_ENCODING := "gzip"
  const GZIP_EXTENSION := ".gz"

  /** What `fetch` returns or throws. */
  datatype FetchResult =
    | Fetched(download: S3Download)
    | ConstraintFailure(key: string)     // AmazonS3ConstraintException
    | ZeroSizeFailure(key: string)       // AmazonS3ZeroSizeException
    | ServiceError(error: ServiceException)
    | ClientError
    | NullPointerError                   // null record, or a record the converter rejects

  /** `fetch`: builds the request (with the versionId and a one-element matching-eTag
      constraint when the record has them), asks the store, rethrows its exceptions
      unchanged, maps a null reply to a constraint failure and an empty object to a
      zero-size failure after closing it (a failing close is swallowed). `request` is
      the request sent to the store, and `closed` whether the download was closed. */
  method Fetch(record: Option<AmazonEventRecord>, store: GetObjectRequest -> StoreReply)
    returns (result: FetchResult, request: Option<GetObjectRequest>, closed: bool)
    ensures request.None? <==> record.None? || Converter.DoForward(record.value).Failure?
    ensures request.None? ==> result == NullPointerError && !closed
    ensures request.Some? ==>
              var o := Converter.DoForward(record.value).value;
              var q := request.value;
              && q.bucketName == o.bucketName && q.key == o.key
              && q.versionId == o.versionId
              && (q.matchingETagConstraints == if o.eTag.Some? then [o.eTag.value] else [])
              && match store(q)
                 case ServiceFailure(e) => result == ServiceError(e) && !closed
                 case ClientFailure => result == ClientError && !closed
                 case Reply(None) => result == ConstraintFailure(o.key) && !closed
                 case Reply(Some(d)) =>
                   if d.metadata.contentLength < 1 then result == ZeroSizeFailure(o.key) && closed
                   else result == Fetched(d) && !closed
    ensures result.Fetched? ==> result.download.metadata.contentLength >= 1
  {
    closed := false;
    if record.None? {
      return NullPointerError, None, closed;
    }
    var converted := Converter.DoForward(record.value);
    if converted.Failure? {
      return NullPointerError, None, closed;
    }
    var o := converted.value;
    var q := GetObjectRequest(o.bucketName, o.key, None, []);
    if o.versionId.Some? {
      q := q.(versionId := o.versionId);
    }
    if o.eTag.Some? {
      q := q.(matchingETagConstraints := [o.eTag.value]);
    }
    request := Some(q);
    var reply := store(q);
    match reply {
      case ServiceFailure(e) =>
        result := ServiceError(e);
      case ClientFailure =>
        result := ClientError;
      case Reply(None) =>
        result := ConstraintFailure(o.key);
      case Reply(Some(d)) =>
        if d.metadata.contentLength < 1 {
          // the close happens whether or not it fails; its failure is only logged
          closed := true;
          result := ZeroSizeFailure(o.key);
        } else {
          result := Fetched(d);
        }
    }
  }

  /** `isGZipped`: false for null; otherwise true when the trimmed content encoding
      equals "gzip" ignoring case, or the trimmed, lower-cased key ends in ".gz"
      (a null encoding or key reads as ""). */
  function IsGZipped(download: Option<S3Download>): (r: bool)
    ensures download.None? ==> !r
  {
    if download.None? then false
    else
      var encoding := download.value.metadata.contentEncoding.GetOr("");
      if EqualsIgnoreCase(GZIP_ENCODING, Trim(encoding)) then true
      else
        var key := download.value.key.GetOr("");
        EndsWith(ToLowerCase(Trim(key)), GZIP_EXTENSION)
  }

  /** The verdict on lower-cased strings: the trimmed encoding is "gzip" once
      lower-cased, or the trimmed, lower-cased key ends in ".gz". */
  lemma IsGZippedMeans(d: S3Download)
    ensures IsGZipped(Some(d)) <==>
              ToLowerCase(Trim(d.metadata.contentEncoding.GetOr(""))) == GZIP_ENCODING
              || EndsWith(ToLowerCase(Trim(d.key.GetOr(""))), GZIP_EXTENSION)
  {
    EqualsIgnoreCaseIsLowerEquality(GZIP_ENCODING, Trim(d.metadata.contentEncoding.GetOr("")));
    assert ToLowerCase(GZIP_ENCODING) == GZIP_ENCODING;
  }

  /** Trimmable padding around the encoding or the key does not change the verdict. */
  lemma IsGZippedIgnoresPadding(d: S3Download, a: string, b: string, c: string, e: string)
    requires AllTrimmable(a) && AllTrimmable(b) && AllTrimmable(c) && AllTrimmable(e)
    ensures var enc := d.metadata.contentEncoding.GetOr("");
            var key := d.key.GetOr("");
            var padded := d.(metadata := d.metadata.(contentEncoding := Some(a + enc + b)), key := Some(c + key + e));
            IsGZipped(Some(padded)) == IsGZipped(Some(d))
  {
    TrimPadded(a, d.metadata.contentEncoding.GetOr(""), b);
    TrimPadded(c, d.key.GetOr(""), e);
  }

  /** Upper-casing the encoding or the key does not change the verdict. */
  lemma IsGZippedIgnoresCase(d: S3Download)
    ensures var enc := d.metadata.contentEncoding.GetOr("");
            var key := d.key.GetOr("");
            var shouted := d.(metadata := d.metadata.(contentEncoding := Some(ToUpperCase(enc))), key := Some(ToUpperCase(key)));
            IsGZipped(Some(shouted)) == IsGZipped(Some(d))
  {
    var enc := d.metadata.contentEncoding.GetOr("");
    var key := d.key.GetOr("");
    var shouted := d.(metadata := d.metadata.(contentEncoding := Some(ToUpperCase(enc))), key := Some(ToUpperCase(key)));
    IsGZippedMeans(d);
    IsGZippedMeans(shouted);
    TrimUpper(enc);
    LowerOfUpper(Trim(enc));
    TrimUpper(key);
    LowerOfUpper(Trim(key));
  }
}
