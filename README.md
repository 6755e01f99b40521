# pipeline: change notifications to server-sent events, in Dafny

The pipeline service reads storage change notifications from a queue and streams
each stored object, line by line, to every subscriber of a server-sent-events
endpoint. A queue message is deleted only when every object it names was fully
broadcast or can never be: it is malformed, missing, empty or its eTag moved on.
Otherwise it stays on the queue for redelivery. This project models the
decision logic of that service and proves what it promises:

- the message processor, and with it the verdict on one queue message;
- the two versions of the object downloader, with their request construction,
  reply classification and gzip detection;
- the two subscriber-counting broadcasters;
- the polling loop;
- the value types: the pub/sub envelope, the canonical object reference, and
  the converter between a change record and that reference.

Files and modules:

- `wrappers.dfy` (`Wrappers`): `Option` (Java `null`), `Result` (an exception
  the modelled code raises), `Int32` and `Int64`.
- `java_text.dfy` (`JavaText`): the `String` operations the gzip tests use:
  `trim`, ASCII `toLowerCase`, `equalsIgnoreCase` and `endsWith`, with lemmas
  about trimming and case.
- `sns_notification.dfy` (`Notifications`), `event_records.dfy`
  (`EventRecords`), `s3_object.dfy` (`S3Objects`) and `converter.dfy`
  (`Converter`): the value types and the conversion.
- `storage.dfy` (`Storage`): what the object store returns for a request. A
  download carries the lines each reader would yield.
- `amazon_s3_downloader.dfy` (`Downloader`) and `s3_downloader.dfy`
  (`LegacyDownloader`): the current and the older downloader.
- `broadcaster.dfy` (`Broadcaster`) and `broadcaster_with_count.dfy`
  (`LegacyBroadcaster`): classes around a counter that their methods update.
  The older class also keeps a ghost history of its `add` results and closes.
  Its invariant is that the counter equals the accepted adds minus the closes.
- `message_processor.dfy` (`Processor`): the processor.
  - Its four methods, `Test`, `ProcessRecords` (the loop over the records inside
    `test`), `ProcessRecord` and `StreamObject`, have the loops and early
    returns of the Java code.
  - Each is proved equal to a reference function (`TestSpec`, `RecordsSpec`,
    `ProcessRecordSpec`, `StreamObjectSpec`).
  - The processor's world is an `Environment` of oracles: the two JSON parses,
    the broadcaster's `isEmpty` and `test` answers, and the downloader's
    `fetch` outcome. Every answer may depend on all the calls made so far, so
    subscribers may come and go while a message is in progress.
  - Each function returns its result together with the list of calls it made,
    in order.
- `processor_properties.dfy` (`ProcessorProperties`): what the processor
  promises, stated over that list of calls and proved about the reference
  functions:
  - every download is gated by a "somebody listens" answer;
  - nothing happens after a "nobody listens" answer;
  - records are fetched in order, each at most once;
  - lines are offered in file order and the stream aborts after the first
    "stop";
  - the delete verdict holds exactly when every record counted as processed;
  - a message with a record that was not processed is kept, although the
    records after it are still tried.
- `pipeline_runnable.dfy` (`Runner`): the polling loop over a finite sequence
  of rounds. Each round gives the answers of the queue, the broadcaster, the
  processor and the thread's interrupt flag.

Behaviour of the Java code that the model keeps:

- Every line of an object is offered to the broadcaster, empty lines included.
- A failed download does not stop the loop over the records. The failure may
  be a service error, a client error, or an aborted or failed stream. There is
  no break at `MessageProcessor.java:142-151`, so the loop goes on with the
  next record. The message is then kept, because fewer records counted as
  processed than there are records.
- JSON `null` as an envelope or as a records payload makes `test` throw, a
  `NullPointerException` at the first dereference.
- An I/O error while reading a line surfaces from `BufferedReader.lines()` as
  an `UncheckedIOException`. The `catch (IOException)` of `processRecord` does
  not catch it, so it escapes `test` (`Outcome.Threw`). The polling loop then
  sleeps ten seconds.

## Model

| member | source | states |
|---|---|---|
| Processor.StreamObject | pipeline-application/src/main/java/com/smoketurner/pipeline/application/core/MessageProcessor.java:223-254 | Returns the same result and the same calls as the reference `StreamObjectSpec`. The reader is the gzip reader exactly when `isGZipped` holds. Lines are tested in order, stopping after the first "stop" answer. A stop is followed by one abort. An unreadable gzip header or a failed close is an IOException. A failed read escapes. |
| Processor.ProcessRecord | pipeline-application/src/main/java/com/smoketurner/pipeline/application/core/MessageProcessor.java:175-214 | Returns the same result and the same calls as `ProcessRecordSpec`: one fetch, then each fetch exception maps to its catch block, and a download is streamed. |
| Processor.ProcessRecords | pipeline-application/src/main/java/com/smoketurner/pipeline/application/core/MessageProcessor.java:140-166 | The loop over the records, counting the processed ones. It returns what `RecordsSpec` gives from record 0: a connection check before every record, an early false when nobody listens, and at the end true exactly when the count equals the number of records. |
| Processor.Test | pipeline-application/src/main/java/com/smoketurner/pipeline/application/core/MessageProcessor.java:84-167 | Returns the same verdict and calls as `TestSpec`: the null check, the connection gate, the envelope parse with its fallback to the raw body, the records parse, the zero-record exit and the record loop. |
| ProcessorProperties.StreamLinesOffersPrefix | pipeline-application/src/main/java/com/smoketurner/pipeline/application/core/MessageProcessor.java:239-240 | Line k is offered k-th, once, with the answer the broadcaster gave at that point. Every answer but the last is "go on". The stream fails exactly when the last answer is "stop". If it does not fail, every line was offered. |
| ProcessorProperties.StreamLinesSent | pipeline-application/src/main/java/com/smoketurner/pipeline/application/core/MessageProcessor.java:239-240 | Only broadcasts are added. A failed stream ends with a "stop" answer. One that did not fail offered exactly the lines, in order, all answered "go on". |
| ProcessorProperties.StreamObjectCalls | pipeline-application/src/main/java/com/smoketurner/pipeline/application/core/MessageProcessor.java:239-251 | Streaming an object only broadcasts and aborts. It aborts exactly once when it ends aborted, and never otherwise. |
| ProcessorProperties.StreamObjectOffersLines | pipeline-application/src/main/java/com/smoketurner/pipeline/application/core/MessageProcessor.java:226-253 | The abort comes right after a "stop" answer. Without an abort, no answer was "stop". A fully streamed object had every line of the chosen reader offered in order, and its event count is the number of lines. An unreadable gzip header sends nothing. |
| ProcessorProperties.ProcessRecordExtension | pipeline-application/src/main/java/com/smoketurner/pipeline/application/core/MessageProcessor.java:175-214 | A record's calls are its fetch, then streaming calls, then (unless an exception escapes) a verdict equal to the result. |
| ProcessorProperties.ProcessRecordCalls | pipeline-application/src/main/java/com/smoketurner/pipeline/application/core/MessageProcessor.java:178-181 | A record is fetched once, first, and nothing else is fetched. |
| ProcessorProperties.ProcessRecordGated | pipeline-application/src/main/java/com/smoketurner/pipeline/application/core/MessageProcessor.java:142-151 | A fetch right after a "somebody listens" answer keeps every fetch gated. A record never reports "nobody listens". |
| ProcessorProperties.ProcessRecordVerdict | pipeline-application/src/main/java/com/smoketurner/pipeline/application/core/MessageProcessor.java:179-213 | A record is processed exactly when its fetch failed with a constraint mismatch, zero size or 404, or its object was streamed to the end. An exception escapes exactly on a read error. At most one "processed" verdict or abort is added per record. |
| ProcessorProperties.RecordStep | pipeline-application/src/main/java/com/smoketurner/pipeline/application/core/MessageProcessor.java:142-151 | One turn of the loop keeps the calls so far gated and fetched in order (records 0 to i) and counts a processed record once. |
| ProcessorProperties.RecordsShape | pipeline-application/src/main/java/com/smoketurner/pipeline/application/core/MessageProcessor.java:140-166 | From record i on, the loop ends with: every fetch gated; nothing after "nobody listens", and then the verdict "keep"; records fetched in order, each at most once, and all of them unless it stopped early; a returned verdict of "delete" exactly when every record was processed. |
| ProcessorProperties.TestBeforeLoop | pipeline-application/src/main/java/com/smoketurner/pipeline/application/core/MessageProcessor.java:84-138 | A null message gives false with no call. An empty broadcaster on entry gives false after that one check, with nothing parsed or fetched. Every other early exit fetches nothing and does not give false. |
| ProcessorProperties.TestCallOrder | pipeline-application/src/main/java/com/smoketurner/pipeline/application/core/MessageProcessor.java:84-151 | The first call is the connection check. Every download is gated. Nothing follows "nobody listens". Downloads, if any, are of records 0, 1, 2, … of a message that parsed, each at most once. |
| ProcessorProperties.TestParsesPayload | pipeline-application/src/main/java/com/smoketurner/pipeline/application/core/MessageProcessor.java:115-128 | The records are parsed from the envelope's message when the envelope is valid, and from the raw body otherwise. Nothing is parsed when the envelope does not parse. |
| ProcessorProperties.TestVerdict | pipeline-application/src/main/java/com/smoketurner/pipeline/application/core/MessageProcessor.java:84-166 | `test` gives true exactly in these cases: the envelope or the records are ill-formed, there are no records, or the loop returned with every record processed. A "nobody listens" answer always leads to false. JSON `null` throws. |
| ProcessorProperties.TestTriesEveryRecord | pipeline-application/src/main/java/com/smoketurner/pipeline/application/core/MessageProcessor.java:142-166 | Unless nobody listens or an exception escapes, every record is fetched: a failing record does not stop the loop. A deleted message had all its records fetched and no stream aborted. |
| ProcessorProperties.FailedRecordKeeps | pipeline-application/src/main/java/com/smoketurner/pipeline/application/core/MessageProcessor.java:142-166 | A message with a record that returned false is never deleted. Such a record might have had a service error other than 404, a client error, a record the converter rejects, an I/O error or an aborted stream. The loop still goes on to the next records. |
| ProcessorProperties.ProcessRecordFailures | pipeline-application/src/main/java/com/smoketurner/pipeline/application/core/MessageProcessor.java:175-214 | A record gives one "not processed" verdict exactly when `processRecord` returns false, and none otherwise. |
| ProcessorProperties.RecordsKeepFailures | pipeline-application/src/main/java/com/smoketurner/pipeline/application/core/MessageProcessor.java:142-166 | From any record on, a loop that gave a "not processed" verdict does not return true. |
| ProcessorProperties.AbortedMessageIsKept | pipeline-application/src/main/java/com/smoketurner/pipeline/application/core/MessageProcessor.java:196-204 | A message one of whose streams was aborted is never deleted. |
| Downloader.Fetch | pipeline-application/src/main/java/com/smoketurner/pipeline/application/core/AmazonS3Downloader.java:61-114 | A null record or one the converter rejects fails before any request. The request has the object's bucket and key, its versionId when present, and a one-element eTag constraint when an eTag is present. Service and client exceptions are rethrown. A null reply is a constraint failure. An empty object is closed and is a zero-size failure. Otherwise the reply itself is returned, with length at least 1. |
| Downloader.IsGZipped | pipeline-application/src/main/java/com/smoketurner/pipeline/application/core/AmazonS3Downloader.java:123-126 | A null object is not gzipped. |
| Downloader.IsGZippedMeans | pipeline-application/src/main/java/com/smoketurner/pipeline/application/core/AmazonS3Downloader.java:128-134 | Gzipped exactly when the trimmed encoding lower-cases to "gzip", or the trimmed, lower-cased key ends in ".gz". A null encoding or key reads as "". |
| Downloader.IsGZippedIgnoresPadding | pipeline-application/src/main/java/com/smoketurner/pipeline/application/core/AmazonS3Downloader.java:128-134 | Whitespace or control characters around the encoding or the key do not change the verdict. |
| Downloader.IsGZippedIgnoresCase | pipeline-application/src/main/java/com/smoketurner/pipeline/application/core/AmazonS3Downloader.java:128-134 | Upper-casing the encoding and the key does not change the verdict. |
| LegacyDownloader.Fetch | pipeline-application/src/main/java/com/smoketurner/pipeline/application/core/S3Downloader.java:53-94 | A null conversion fails with "Failed to convert event record" before any request. The request carries the versionId and the eTag constraint exactly when present. Service and client exceptions are rethrown. A null reply fails with "eTag from object did not match". An empty object fails with "Object size is zero" and is not closed. |
| LegacyDownloader.IsGZipped | pipeline-application/src/main/java/com/smoketurner/pipeline/application/core/S3Downloader.java:103-111 | Throws exactly for a null object, or a null key when the encoding is not "gzip" (ignoring case). Otherwise it says true exactly when the untrimmed encoding equals "gzip" ignoring case, or the raw key ends in ".gz" (case-sensitively). When it says true, the current version agrees. |
| LegacyDownloader.PaddedEncodingDiffers | pipeline-application/src/main/java/com/smoketurner/pipeline/application/core/S3Downloader.java:104-105 | The versions disagree on the encoding " gzip": the older one does not trim. |
| LegacyDownloader.UpperCaseExtensionDiffers | pipeline-application/src/main/java/com/smoketurner/pipeline/application/core/S3Downloader.java:107 | The versions disagree on the key "test.GZ": the older one is case-sensitive. |
| LegacyDownloader.MissingKeyDiffers | pipeline-application/src/main/java/com/smoketurner/pipeline/application/core/S3Downloader.java:104-107 | On a download with no encoding and no key, the older version throws and the current one says false. |
| Broadcaster.InstrumentedSseBroadcaster.constructor | pipeline-application/src/main/java/com/smoketurner/pipeline/application/core/InstrumentedSseBroadcaster.java:39-49 | A new broadcaster has counter 0, has sent nothing and is empty. |
| Broadcaster.InstrumentedSseBroadcaster.Add | pipeline-application/src/main/java/com/smoketurner/pipeline/application/core/InstrumentedSseBroadcaster.java:52-63 | A closed output is refused without counting. Otherwise the library's answer is returned, and the counter goes up by one exactly when it accepted. |
| Broadcaster.InstrumentedSseBroadcaster.OnException | pipeline-application/src/main/java/com/smoketurner/pipeline/application/core/InstrumentedSseBroadcaster.java:66-69 | Changes nothing. |
| Broadcaster.InstrumentedSseBroadcaster.OnClose | pipeline-application/src/main/java/com/smoketurner/pipeline/application/core/InstrumentedSseBroadcaster.java:72-75 | The counter goes down by one. |
| Broadcaster.InstrumentedSseBroadcaster.Broadcast | pipeline-application/src/main/java/com/smoketurner/pipeline/application/core/InstrumentedSseBroadcaster.java:78-82 | The event is sent once. Each subscriber that closes during the send lowers the counter by one. |
| Broadcaster.InstrumentedSseBroadcaster.Test | pipeline-application/src/main/java/com/smoketurner/pipeline/application/core/InstrumentedSseBroadcaster.java:91-105 | An empty broadcaster says "stop" and sends nothing. Otherwise it sends the line as one event and says "stop" exactly when it is empty after the send. |
| Broadcaster.InstrumentedSseBroadcaster.Ping | pipeline-application/src/main/java/com/smoketurner/pipeline/application/core/InstrumentedSseBroadcaster.java:108-112 | One ping event is sent, whatever the count. Only subscribers closing during the send change the counter. |
| Broadcaster.AddMakesNonEmpty | pipeline-application/src/test/java/com/smoketurner/pipeline/application/core/InstrumentedSseBroadcasterTest.java:28-35 | A new broadcaster is empty, and is no longer empty after an open output is accepted. |
| LegacyBroadcaster.SseBroadcasterWithCount.constructor | pipeline-application/src/main/java/com/smoketurner/pipeline/application/core/SseBroadcasterWithCount.java:28 | The counter starts at 0, with an empty history, and the class invariant holds. |
| LegacyBroadcaster.SseBroadcasterWithCount.Add | pipeline-application/src/main/java/com/smoketurner/pipeline/application/core/SseBroadcasterWithCount.java:30-41 | A closed output is refused without counting. Otherwise the library's answer is returned, and only an accepted output is counted, once. The result is added to the history and the invariant is kept. |
| LegacyBroadcaster.SseBroadcasterWithCount.OnClose | pipeline-application/src/main/java/com/smoketurner/pipeline/application/core/SseBroadcasterWithCount.java:43-47 | The counter goes down by one. The close is added to the history and the invariant is kept. |
| LegacyBroadcaster.SseBroadcasterWithCount.Size | pipeline-application/src/main/java/com/smoketurner/pipeline/application/core/SseBroadcasterWithCount.java:49-51 | Returns the number of outputs `add` accepted so far minus the number of closes. |
| Runner.Accepted | pipeline-application/src/main/java/com/smoketurner/pipeline/application/core/PipelineRunnable.java:68 | The filtered batch holds exactly the batch's messages whose `test` returns true, each no more often than in the batch. |
| Runner.SiftMeans | pipeline-application/src/main/java/com/smoketurner/pipeline/application/core/PipelineRunnable.java:68 | The batch ends in an exception exactly when some `test` throws. The deleted messages are, in order, the accepted ones before the first throw. |
| Runner.DeletesEveryAccepted | pipeline-application/src/main/java/com/smoketurner/pipeline/application/core/PipelineRunnable.java:68 | When no `test` throws, exactly the accepted messages are deleted, and the round sleeps one second. |
| Runner.IterateMeans | pipeline-application/src/main/java/com/smoketurner/pipeline/application/core/PipelineRunnable.java:57-87 | A round sleeps 1 or 10 seconds. It asks the queue only when somebody listens, and deletes only accepted messages of its batch. It sleeps 10 seconds exactly when it asked and the request hit the limit, failed, or a `test` threw. |
| Runner.RoundsRun | pipeline-application/src/main/java/com/smoketurner/pipeline/application/core/PipelineRunnable.java:56 | The rounds run stop at the first interrupted one, or when the queue has no more. |
| Runner.Run | pipeline-application/src/main/java/com/smoketurner/pipeline/application/core/PipelineRunnable.java:55-89 | A thread interrupted before the first check runs nothing. Otherwise the loop runs rounds up to and including the first interrupted one, each doing what one pass of the body does. |
| Notifications.DelayDuration | pipeline-application/src/main/java/com/smoketurner/pipeline/application/aws/AmazonSNSNotification.java:65-70 | Null exactly when there is no timestamp; otherwise the time from the timestamp to now. |
| Notifications.ValidHasDelay | pipeline-application/src/main/java/com/smoketurner/pipeline/application/aws/AmazonSNSNotification.java:63-75 | A valid notification, with both fields present, always has a delay. |
| Notifications.Equals | pipeline-application/src/main/java/com/smoketurner/pipeline/application/aws/AmazonSNSNotification.java:77-88 | Equal exactly when message and timestamp are equal. |
| Notifications.EqualsIsEquivalence | pipeline-application/src/main/java/com/smoketurner/pipeline/application/aws/AmazonSNSNotification.java:77-88 | `equals` is reflexive, symmetric and transitive. |
| S3Objects.OrNull | pipeline-application/src/main/java/com/smoketurner/pipeline/application/core/AmazonS3Object.java:50-59 | A null `Optional` and an absent one both store null. A present one stores its value. |
| S3Objects.New | pipeline-application/src/main/java/com/smoketurner/pipeline/application/core/AmazonS3Object.java:44-60 | Construction succeeds exactly when region, bucket name and key are non-null. The accessors then return the arguments. |
| S3Objects.Equals | pipeline-application/src/main/java/com/smoketurner/pipeline/application/core/AmazonS3Object.java:86-99 | Equal exactly when all six fields are equal. |
| S3Objects.NewEqualsIffArguments | pipeline-application/src/main/java/com/smoketurner/pipeline/application/core/AmazonS3Object.java:44-99 | Two references are equal exactly when they were built from arguments that agree on every stored field. |
| Converter.DoForward | pipeline-application/src/main/java/com/smoketurner/pipeline/application/convert/AmazonS3ObjectConverter.java:26-30 | Succeeds exactly when every dereferenced part and the region, bucket name, key and size are present. It then copies region, bucket name, key, size, eTag and versionId. |
| Converter.DoBackward | pipeline-application/src/main/java/com/smoketurner/pipeline/application/convert/AmazonS3ObjectConverter.java:33-39 | Copies bucket name, key, size, eTag and versionId. The event metadata, region and sequencer become null. |
| Converter.Convert | pipeline-application/src/main/java/com/smoketurner/pipeline/application/core/S3Downloader.java:54-57 | A null record converts to null. Otherwise the result is `doForward`'s. |
| Converter.BackwardAfterForward | pipeline-application/src/main/java/com/smoketurner/pipeline/application/convert/AmazonS3ObjectConverter.java:26-39 | Backward after forward keeps bucket name, key, size, eTag and versionId. |
| Converter.ForwardAfterBackwardFails | pipeline-application/src/main/java/com/smoketurner/pipeline/application/convert/AmazonS3ObjectConverter.java:38 | Forward after backward always fails, with a null region. |
| Converter.ForwardAfterBackwardWithRegion | pipeline-application/src/main/java/com/smoketurner/pipeline/application/convert/AmazonS3ObjectConverter.java:26-39 | With the region restored, forward after backward gives the reference back unchanged. |
| EventRecords.NewEventRecords | pipeline-application/src/main/java/com/smoketurner/pipeline/application/aws/AmazonEventRecords.java:35-43 | A missing record list becomes the empty list. A present one is kept. |

The envelope and the object reference are immutable values. Their Dafny
datatype constructors and destructors are the Java constructors and accessors,
so those return exactly what was stored. `Notifications.IsValid` (both fields
present) and `InstrumentedSseBroadcaster.IsEmpty` (counter below 1) are
predicates whose definitions are the Java conditions.

## Left out

- JSON parsing (Jackson, `S3EventNotification.parseJson`) is not modelled. The
  processor receives the two parse results as oracles: a syntax error, JSON
  `null`, or a value.
- Gzip decompression, UTF-8 decoding and line splitting are not modelled. A
  download carries the lines its plain and gzip readers would yield, whether
  the gzip header is readable, whether a read fails after the last line, and
  whether closing fails.
- The store, queue and broadcaster clients are not modelled, as they are I/O.
  The processor's `fetch` is an oracle of type `Downloader.FetchResult`, the
  outcome type of `Downloader.Fetch`.
  - The source types `fetch` on `S3EventNotificationRecord`, while the
    converter takes `AmazonEventRecord`. The model uses `AmazonEventRecord`
    throughout.
  - The source's `AmazonSQSIterator.next` returns a `ReceiveMessageResult`,
    while the loop uses a list of messages. The model uses the list.
  - The converter calls a three-argument `AmazonEventRecordS3` constructor that
    the record class shown does not have. The model uses the two parts the
    class declares.
- `deleteMessage`'s boolean result is ignored by the loop, and is not
  modelled.
- Runner.IterateMeans: the batch is filtered sequentially, in order, and a
  throwing `test` ends the batch at that message. With `parallelStream`, other
  messages of the batch may still be tested and deleted.
- Concurrency is not modelled. Subscribers joining and leaving during a message
  are covered by the processor's oracles, which see the full call history.
  `Broadcaster.InstrumentedSseBroadcaster.Broadcast` takes the number of
  subscribers that close during a send as a parameter.
- Broadcaster.InstrumentedSseBroadcaster.Add: the counter is an unbounded
  integer, so the 32-bit wrap-around of `AtomicInteger` after 2^31 additions is
  not modelled. The same holds for `LegacyBroadcaster.SseBroadcasterWithCount`.
- Downloader.IsGZippedMeans: case folding covers the ASCII letters only. Java's
  `toLowerCase` and `equalsIgnoreCase` fold all of Unicode. The same holds for
  `LegacyDownloader.IsGZipped`.
- Notifications.DelayDuration: the clock is a parameter, and `Duration` is an
  integer count of nanoseconds.
- `TimeUnit.SECONDS.sleep` is not performed: the loop records the chosen sleep
  length. An interrupt during sleep, and any other interrupt, is the round's
  `interrupt` flag.
- Runner.Run: `hasNext` of the queue iterator is always true. The model runs a
  finite sequence of rounds and stops when they run out.
- `Notifications.Equals` and `S3Objects.Equals` take a non-null argument of the
  same type. Java's `equals` also returns false for `null` and for an object of
  another class; that case is not modelled.
- `hashCode` is not modelled. The model's equality is structural, so equal
  values would hash equally under any function of the value. The exact
  integers `Objects.hash` produces are not modelled.
- `toString` is not modelled, and neither are metrics (meters,
  histograms) or logging, including the processor's trace and debug branches.
- A null message body and null elements inside a records list are not
  modelled: a body is a string, and records are values.
- The HTTP layers (the event resource and the client), configuration, the
  application bootstrap, the managed lifecycle wrappers and the heartbeat
  scheduler are not part of this model.
