/** What the object store and the stream libraries expose to the downloaders and the
    processor, reduced to the values their decisions depend on. Decompression and
    UTF-8 line splitting are not modelled: a download carries the lines each reader
    would yield. */
module Storage {
  import opened Wrappers

  /** The lines a reader yields, in file order; `readFails` means the read after the
      last of them fails with an I/O error. */
  datatype LineStream = LineStream(lines: seq<string>, readFails: bool)

  /** The lines yielded by a plain text reader, and by a gzip reader (None when the
      gzip header can not be read, which fails the gzip stream's constructor). */
  datatype Content = Content(plain: LineStream, gunzipped: Option<LineStream>)

  datatype ObjectMetadata = ObjectMetadata(contentLength: Int64, contentEncoding: Option<string>)

  /** A reply of the store for one object; `closeFails` means closing its content stream fails. */
  datatype S3Download = S3Download(
    bucketName: Option<string>,
    key: Option<string>,
    metadata: ObjectMetadata,
    content: Content,
    closeFails: bool)

  /** A conditional get: the object's bucket and key, the version to fetch (if any) and
      the eTags the stored object must match (empty means unconditional). */
  datatype GetObjectRequest = GetObjectRequest(
    bucketName: string,
    key: string,
    versionId: Option<string>,
    matchingETagConstraints: seq<string>)

  /** Service-side failures; the storage client raises its own subclass, which carries an HTTP status. */
  datatype ServiceException = S3Exception(statusCode: int) | OtherServiceException(statusCode: int)

  /** What `getObject` does with a request: returns an object or null (null when an
      eTag constraint did not match), or throws a service or client exception. */
  datatype StoreReply =
    | Reply(download: Option<S3Download>)
    | ServiceFailure(error: ServiceException)
    | ClientFailure
}
