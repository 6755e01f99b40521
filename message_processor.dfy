/** The message processor: decides for one queue message whether it may be deleted
    (every object it names was fully broadcast, or can never be) or must stay for
    redelivery. JSON parsing, downloading and the broadcaster are behind an
    `Environment` of oracles; every call made to them is logged, in order, so that
    what the processor does is visible as a list of calls. */
module Processor {
  import opened Wrappers
  import opened Notifications
  import opened EventRecords
  import opened Storage
  import Downloader

  /** A queue message. */
  datatype Message = Message(body: string, messageId: string, receiptHandle: string)

  /** What a JSON parse can give: a syntax error, the JSON literal `null`, or a value. */
  datatype Parsed<T> = Malformed | JsonNull | Value(value: T)

  /** One call made by the processor, with the answer where it matters. */
  datatype Call =
    | IsEmpty(empty: bool)                  // broadcaster.isEmpty()
    | ParseRecords(payload: string)         // S3EventNotification.parseJson(payload)
    | Fetch(index: nat)                     // s3.fetch(records[index])
    | Broadcast(line: string, stop: bool)   // broadcaster.test(line)
    | Abort                                 // input.abort()
    | Verdict(processed: bool)              // processRecord returns

  /** The world the processor talks to. Every answer may depend on everything the
      processor has done so far (`h`), which covers subscribers that come and go
      while a message is in progress. The records payload parses to `JsonNull` also
      when its record list is null. */
  datatype Environment = Environment(
    parseNotification: string -> Parsed<AmazonSNSNotification>,
    parseRecords: string -> Parsed<seq<AmazonEventRecord>>,
    isEmpty: seq<Call> -> bool,
    test: (seq<Call>, string) -> bool,
    fetch: (seq<Call>, AmazonEventRecord) -> Downloader.FetchResult)

  /** `test`'s result: a boolean, or an exception that escapes it. */
  datatype Outcome = Returned(delete: bool) | Threw

  /** How `streamObject` ends: with its event count, with the download aborted
      because nobody listens any more, with an IOException (bad gzip header, failed
      close), or with an UncheckedIOException from reading a line, which no caller
      in this class catches. */
  datatype StreamResult = Streamed(events: nat) | Aborted | StreamIOError | ReadError

  /** How `processRecord` ends: true, false, or an exception that escapes it. */
  datatype RecordResult = Processed | Unprocessed | Escaped

  // ---------------------------------------------------------------------------
  // Reference definitions. Each takes the calls made so far, `t`, and returns its
  // result together with `t` extended by the calls it makes.
  // ---------------------------------------------------------------------------

  /** `lines().anyMatch(broadcaster::test)`: test the lines in order, stopping after
      the first one whose answer is "stop". */
  function StreamLines(env: Environment, t: seq<Call>, lines: seq<string>): (bool, seq<Call>)
    decreases |lines|
  {
    if lines == [] then (false, t)
    else
      var stop := env.test(t, lines[0]);
      var t' := t + [Broadcast(lines[0], stop)];
      if stop then (true, t') else StreamLines(env, t', lines[1..])
  }

  /** The reader `streamObject` wraps around the content: decompressing when the
      download counts as gzipped; `None` when the gzip header cannot be read. */
  function Reader(d: S3Download): Option<LineStream> {
    if Downloader.IsGZipped(Some(d)) then d.content.gunzipped else Some(d.content.plain)
  }

  function StreamObjectSpec(env: Environment, t: seq<Call>, d: S3Download): (StreamResult, seq<Call>) {
    var reader := Reader(d);
    if reader.None? then (StreamIOError, t)
    else
      var sent := StreamLines(env, t, reader.value.lines);
      if sent.0 then (Aborted, sent.1 + [Abort])
      else if reader.value.readFails then (ReadError, sent.1)
      else if d.closeFails then (StreamIOError, sent.1)
      else (Streamed(|reader.value.lines|), sent.1)
  }

  /** Fetch outcomes after which a record counts as done although nothing was sent. */
  predicate Skippable(f: Downloader.FetchResult) {
    f.ConstraintFailure? || f.ZeroSizeFailure? || f == Downloader.ServiceError(S3Exception(404))
  }

  function ProcessRecordSpec(env: Environment, t: seq<Call>, i: nat, record: AmazonEventRecord): (RecordResult, seq<Call>) {
    var fetched := env.fetch(t, record);
    if !fetched.Fetched? then
      var processed := Skippable(fetched);
      (if processed then Processed else Unprocessed, t + [Fetch(i)] + [Verdict(processed)])
    else
      var streamed := StreamObjectSpec(env, t + [Fetch(i)], fetched.download);
      if streamed.0.ReadError? then (Escaped, streamed.1)
      else
        (if streamed.0.Streamed? then Processed else Unprocessed,
         streamed.1 + [Verdict(streamed.0.Streamed?)])
  }

  /** The record loop from record `i` on, `processed` records so far done. */
  function RecordsSpec(env: Environment, t: seq<Call>, rs: seq<AmazonEventRecord>, i: nat, processed: nat): (Outcome, seq<Call>)
    requires i <= |rs|
    decreases |rs| - i
  {
    if i == |rs| then (Returned(processed == |rs|), t)
    else if env.isEmpty(t) then (Returned(false), t + [IsEmpty(true)])
    else
      var record := ProcessRecordSpec(env, t + [IsEmpty(false)], i, rs[i]);
      if record.0.Escaped? then (Threw, record.1)
      else RecordsSpec(env, record.1, rs, i + 1, if record.0.Processed? then processed + 1 else processed)
  }

  /** The body whose records are read: the envelope's message when the envelope is
      valid, the queue message's own body otherwise. */
  function Payload(m: Message, n: AmazonSNSNotification): string {
    if IsValid(n) then n.message.value else m.body
  }

  /** The records a message carries, if both parses succeed. */
  function RecordsOf(env: Environment, m: Message): Option<seq<AmazonEventRecord>> {
    match env.parseNotification(m.body)
    case Value(n) =>
      (match env.parseRecords(Payload(m, n))
       case Value(rs) => Some(rs)
       case _ => None)
    case _ => None
  }

  function TestSpec(env: Environment, message: Option<Message>): (Outcome, seq<Call>) {
    if message.None? then (Returned(false), [])
    else if env.isEmpty([]) then (Returned(false), [IsEmpty(true)])
    else
      var m := message.value;
      match env.parseNotification(m.body)
      case Malformed => (Returned(true), [IsEmpty(false)])
      case JsonNull => (Threw, [IsEmpty(false)])
      case Value(n) =>
        var payload := Payload(m, n);
        var t := [IsEmpty(false), ParseRecords(payload)];
        match env.parseRecords(payload)
        case Malformed => (Returned(true), t)
        case JsonNull => (Threw, t)
        case Value(rs) => if |rs| < 1 then (Returned(true), t) else RecordsSpec(env, t, rs, 0, 0)
  }

  // ---------------------------------------------------------------------------
  // The processor, step by step, proved equal to the reference definitions.
  // ---------------------------------------------------------------------------

  /** `streamObject`: count and test the lines of the selected reader until the
      broadcaster says stop; then abort the download and fail. */
  method StreamObject(env: Environment, t: seq<Call>, d: S3Download) returns (result: StreamResult, trace: seq<Call>)
    ensures (result, trace) == StreamObjectSpec(env, t, d)
  {
    trace := t;
    var reader := Reader(d);
    if reader.None? {
      return StreamIOError, trace;
    }
    var lines := reader.value.lines;
    var eventCount := 0;
    var failed := false;
    while eventCount < |lines| && !failed
      invariant 0 <= eventCount <= |lines|
      invariant StreamLines(env, t, lines) ==
                  if failed then (true, trace) else StreamLines(env, trace, lines[eventCount..])
    {
      var line := lines[eventCount];
      assert lines[eventCount..][1..] == lines[eventCount + 1..];
      eventCount := eventCount + 1;
      var stop := env.test(trace, line);
      trace := trace + [Broadcast(line, stop)];
      failed := stop;
    }
    if failed {
      return Aborted, trace + [Abort];
    }
    assert lines[eventCount..] == [];
    if reader.value.readFails {
      return ReadError, trace;
    }
    if d.closeFails {
      return StreamIOError, trace;
    }
    return Streamed(eventCount), trace;
  }

  /** `processRecord`: fetch the record's object and stream it; the fetch errors
      that mean "there is nothing to send" count as done, every other failure not. */
  method ProcessRecord(env: Environment, t: seq<Call>, i: nat, record: AmazonEventRecord)
    returns (r: RecordResult, trace: seq<Call>)
    ensures (r, trace) == ProcessRecordSpec(env, t, i, record)
  {
    var fetched := env.fetch(t, record);
    trace := t + [Fetch(i)];
    match fetched {
      case ConstraintFailure(_) =>
        return Processed, trace + [Verdict(true)];
      case ZeroSizeFailure(_) =>
        return Processed, trace + [Verdict(true)];
      case ServiceError(S3Exception(code)) =>
        if code == 404 {
          return Processed, trace + [Verdict(true)];
        }
        return Unprocessed, trace + [Verdict(false)];
      case ServiceError(OtherServiceException(_)) =>
        return Unprocessed, trace + [Verdict(false)];
      case ClientError =>
        return Unprocessed, trace + [Verdict(false)];
      case NullPointerError =>
        return Unprocessed, trace + [Verdict(false)];
      case Fetched(download) =>
        var s;
        s, trace := StreamObject(env, trace, download);
        if s.ReadError? {
          return Escaped, trace;
        }
        if !s.Streamed? {
          return Unprocessed, trace + [Verdict(false)];
        }
        return Processed, trace + [Verdict(true)];
    }
  }

  /** `test`: the verdict for one message, together with every call it made. */
  method Test(env: Environment, message: Option<Message>) returns (r: Outcome, trace: seq<Call>)
    ensures (r, trace) == TestSpec(env, message)
  {
    if message.None? {
      return Returned(false), [];
    }
    var m := message.value;
    if env.isEmpty([]) {
      return Returned(false), [IsEmpty(true)];
    }
    trace := [IsEmpty(false)];
    var notification := env.parseNotification(m.body);
    if notification.Malformed? {
      return Returned(true), trace;
    }
    if notification.JsonNull? {
      // the debug line dereferences the null notification
      return Threw, trace;
    }
    var n := notification.value;
    var body := if IsValid(n) then n.message.value else m.body;
    trace := [IsEmpty(false), ParseRecords(body)];
    var records := env.parseRecords(body);
    if records.Malformed? {
      return Returned(true), trace;
    }
    if records.JsonNull? {
      return Threw, trace;
    }
    var rs := records.value;
    var recordCount := |rs|;
    if recordCount < 1 {
      return Returned(true), trace;
    }
    r, trace := ProcessRecords(env, trace, rs);
  }

  /** The record loop of `test`: before each record the broadcaster is asked again
      whether anybody listens; the message may be deleted when every record was
      processed. */
  method ProcessRecords(env: Environment, t: seq<Call>, rs: seq<AmazonEventRecord>)
    returns (r: Outcome, trace: seq<Call>)
    ensures (r, trace) == RecordsSpec(env, t, rs, 0, 0)
  {
    var recordCount := |rs|;
    trace := t;
    var recordsProcessed := 0;
    var i := 0;
    while i < |rs|
      invariant 0 <= recordsProcessed <= i <= |rs|
      invariant RecordsSpec(env, t, rs, 0, 0) == RecordsSpec(env, trace, rs, i, recordsProcessed)
    {
      if env.isEmpty(trace) {
        return Returned(false), trace + [IsEmpty(true)];
      }
      trace := trace + [IsEmpty(false)];
      var processed;
      processed, trace := ProcessRecord(env, trace, i, rs[i]);
      if processed.Escaped? {
        return Threw, trace;
      }
      if processed.Processed? {
        recordsProcessed := recordsProcessed + 1;
      }
      i := i + 1;
    }
    if recordsProcessed == recordCount {
      return Returned(true), trace;
    }
    return Returned(false), trace;
  }
}
