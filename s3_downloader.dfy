/** The older downloader, kept beside the current one: it signals every data-level
    failure with a plain exception message, never closes an empty download, and its
    gzip test neither trims nor folds the key's case. */
module LegacyDownloader {
  import opened Wrappers
  import opened JavaText
  import opened EventRecords
  import opened S3Objects
  import opened Storage
  import Converter
  import Downloader

  const GZIP_ENCODING := "gzip"
  const GZIP_EXTENSION := ".gz"

  const CONVERT_FAILED := "Failed to convert event record"
  const ETAG_MISMATCH := "eTag from object did not match"
  const ZERO_SIZE := "Object size is zero"

  datatype FetchResult =
    | Fetched(download: S3Download)
    | Failed(message: string)            // java.lang.Exception with this message
    | ServiceError(error: ServiceException)
    | ClientError
    | NullPointerError                   // the converter rejected a non-null record

  /** `fetch`: a null conversion result fails before any request is made; the request
      carries the versionId and matching-eTag constraint when present; the store's
      exceptions are rethrown unchanged; a null reply and an empty object fail with
      their messages, and the download is not closed. `request` is the request sent. */
  method Fetch(record: Option<AmazonEventRecord>, store: GetObjectRequest -> StoreReply)
    returns (result: FetchResult, request: Option<GetObjectRequest>)
    ensures record.None? ==> result == Failed(CONVERT_FAILED) && request.None?
    ensures record.Some? && Converter.DoForward(record.value).Failure? ==> result == NullPointerError && request.None?
    ensures request.Some? ==>
              record.Some? && Converter.DoForward(record.value).Success? &&
              var o := Converter.DoForward(record.value).value;
              var q := request.value;
              && q.bucketName == o.bucketName && q.key == o.key
              && q.versionId == o.versionId
              && (q.matchingETagConstraints == if o.eTag.Some? then [o.eTag.value] else [])
              && match store(q)
                 case ServiceFailure(e) => result == ServiceError(e)
                 case ClientFailure => result == ClientError
                 case Reply(None) => result == Failed(ETAG_MISMATCH)
                 case Reply(Some(d)) =>
                   if d.metadata.contentLength < 1 then result == Failed(ZERO_SIZE) else result == Fetched(d)
    ensures record.Some? && Converter.DoForward(record.value).Success? ==> request.Some?
    ensures result.Fetched? ==> result.download.metadata.contentLength >= 1
  {
    var converted := Converter.Convert(record);
    if converted.Failure? {
      return NullPointerError, None;
    }
    if converted.value.None? {
      return Failed(CONVERT_FAILED), None;
    }
    var o := converted.value.value;
    var q := GetObjectRequest(o.bucketName, o.key, None, []);
    if o.versionId.Some? {
      q := q.(versionId := o.versionId);
    }
    if o.eTag.Some? {
      q := q.(matchingETagConstraints := [o.eTag.value]);
    }
    request := Some(q);
    var reply := store(q);
    match reply {
      case ServiceFailure(e) =>
        result := ServiceError(e);
      case ClientFailure =>
        result := ClientError;
      case Reply(None) =>
        result := Failed(ETAG_MISMATCH);
      case Reply(Some(d)) =>
        if d.metadata.contentLength < 1 {
          result := Failed(ZERO_SIZE);
        } else {
          result := Fetched(d);
        }
    }
  }

  /** The older `isGZipped`: the encoding compared ignoring case but untrimmed (a null
      encoding never matches), then the raw key tested for ".gz" case-sensitively.
      A null object, or a null key reached by the second test, throws. */
  function IsGZipped(download: Option<S3Download>): (r: Result<bool, JavaError>)
    ensures r.Failure? <==>
              download.None? ||
              (download.value.key.None? &&
               !(download.value.metadata.contentEncoding.Some? &&
                 ToLowerCase(download.value.metadata.contentEncoding.value) == GZIP_ENCODING))
    ensures r.Success? ==>
              (r.value <==>
                 || (download.value.metadata.contentEncoding.Some? &&
                     ToLowerCase(download.value.metadata.contentEncoding.value) == GZIP_ENCODING)
                 || (download.value.key.Some? && EndsWith(download.value.key.value, GZIP_EXTENSION)))
    ensures r == Success(true) ==> Downloader.IsGZipped(download)
  {
    if download.None? then Failure(NullPointer)
    else
      var encoding := download.value.metadata.contentEncoding;
      var encodingMatches := encoding.Some? && EqualsIgnoreCase(GZIP_ENCODING, encoding.value);
      GzipEncodingIsLower(encoding);
      if encodingMatches then
        NoPaddingAroundGzip(encoding.value);
        Success(true)
      else if download.value.key.None? then Failure(NullPointer)
      else
        var key := download.value.key.value;
        if EndsWith(key, GZIP_EXTENSION) then
          GzSuffixSurvivesTrim(key);
          Success(true)
        else Success(false)
  }

  lemma GzipEncodingIsLower(encoding: Option<string>)
    ensures (encoding.Some? && EqualsIgnoreCase(GZIP_ENCODING, encoding.value))
            <==> (encoding.Some? && ToLowerCase(encoding.value) == GZIP_ENCODING)
  {
    if encoding.Some? {
      EqualsIgnoreCaseIsLowerEquality(GZIP_ENCODING, encoding.value);
      assert ToLowerCase(GZIP_ENCODING) == GZIP_ENCODING;
    }
  }

  /** A string equal to "gzip" ignoring case has no trimmable char, so trimming keeps it. */
  lemma NoPaddingAroundGzip(s: string)
    requires EqualsIgnoreCase(GZIP_ENCODING, s)
    ensures Trim(s) == s
    ensures EqualsIgnoreCase(GZIP_ENCODING, Trim(s))
  {
    assert CharEqualsIgnoreCase('g', s[0]);
    assert CharEqualsIgnoreCase('p', s[3]);
    TrimOfTrimmed(s);
  }

  /** A key ending in ".gz" still ends in ".gz" once trimmed and lower-cased. */
  lemma GzSuffixSurvivesTrim(key: string)
    requires EndsWith(key, GZIP_EXTENSION)
    ensures EndsWith(ToLowerCase(Trim(key)), GZIP_EXTENSION)
  {
    var n := |key|;
    assert key[n - 3] == '.' && key[n - 1] == 'z';
    var t := TrimStart(key);
    assert !IsTrimmable(key[n - 3]);
    assert n - |t| <= n - 3;
    assert t[|t| - 1] == 'z';
    assert TrimEnd(t) == t;
    assert Trim(key) == t;
    var lower := ToLowerCase(t);
    assert lower[|t| - 3..] == ToLowerCase(t[|t| - 3..]);
    assert t[|t| - 3..] == key[n - 3..];
  }

  /** The two versions disagree on a padded encoding: the current one trims it. */
  lemma PaddedEncodingDiffers(d: S3Download)
    requires d.metadata.contentEncoding == Some(" gzip") && d.key == Some("a")
    ensures Downloader.IsGZipped(Some(d))
    ensures IsGZipped(Some(d)) == Success(false)
  {
    assert TrimStart(" gzip") == "gzip";
    assert TrimEnd("gzip") == "gzip";
    assert ToLowerCase("gzip") == "gzip";
    assert !EqualsIgnoreCase(GZIP_ENCODING, " gzip") by {
      assert !CharEqualsIgnoreCase('g', ' ');
    }
  }

  /** ... and on an upper-case extension: the current one lower-cases the key. */
  lemma UpperCaseExtensionDiffers(d: S3Download)
    requires d.metadata.contentEncoding.None? && d.key == Some("test.GZ")
    ensures Downloader.IsGZipped(Some(d))
    ensures IsGZipped(Some(d)) == Success(false)
  {
    assert Trim("") == "";
    assert TrimStart("test.GZ") == "test.GZ";
    assert TrimEnd("test.GZ") == "test.GZ";
    var lower := ToLowerCase("test.GZ");
    assert lower[5] == 'g' && lower[6] == 'z' && lower[4] == '.';
    assert lower[4..] == ".gz";
    assert "test.GZ"[4..] == ".GZ";
  }

  /** ... and on a download without encoding or key: the older one throws. */
  lemma MissingKeyDiffers(d: S3Download)
    requires d.metadata.contentEncoding.None? && d.key.None?
    ensures !Downloader.IsGZipped(Some(d))
    ensures IsGZipped(Some(d)) == Failure(NullPointer)
  {
    assert Trim("") == "";
    assert ToLowerCase("") == "";
  }
}
