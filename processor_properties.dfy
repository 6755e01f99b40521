/** What the message processor promises, stated over the list of calls it makes. */
module ProcessorProperties {
  import opened Wrappers
  import opened Notifications
  import opened EventRecords
  import opened Storage
  import Downloader
  import opened Processor

  // ---------------------------------------------------------------------------
  // Views of a call list
  // ---------------------------------------------------------------------------

  /** The indices of the records fetched, in call order. */
  function Fetches(t: seq<Call>): seq<nat>
    decreases |t|
  {
    if t == [] then []
    else Fetches(t[..|t| - 1]) + (if t[|t| - 1].Fetch? then [t[|t| - 1].index] else [])
  }

  /** lo, lo + 1, ..., hi - 1. */
  function Range(lo: nat, hi: nat): (r: seq<nat>)
    requires lo <= hi
    ensures |r| == hi - lo
    ensures forall k :: 0 <= k < |r| ==> r[k] == lo + k
  {
    seq(hi - lo, k requires 0 <= k < hi - lo => lo + k)
  }

  /** Every download is preceded, immediately, by a check that somebody listens. */
  predicate Gated(t: seq<Call>) {
    forall k :: 0 <= k < |t| && t[k].Fetch? ==> 0 < k && t[k - 1] == IsEmpty(false)
  }

  /** Once the broadcaster reports nobody listening, nothing else is done. */
  predicate StopsWhenEmpty(t: seq<Call>) {
    forall k :: 0 <= k < |t| && t[k] == IsEmpty(true) ==> k == |t| - 1
  }

  /** Only calls made while streaming one object. */
  predicate StreamCalls(s: seq<Call>) {
    forall k :: 0 <= k < |s| ==> s[k].Broadcast? || s[k].Abort?
  }

  predicate NoFetch(s: seq<Call>) {
    forall k :: 0 <= k < |s| ==> !s[k].Fetch?
  }

  // ---------------------------------------------------------------------------
  // Small facts about the views
  // ---------------------------------------------------------------------------

  lemma {:induction false} FetchesAppend(a: seq<Call>, b: seq<Call>)
    ensures Fetches(a + b) == Fetches(a) + Fetches(b)
    decreases |b|
  {
    if b == [] {
      assert a + b == a;
    } else {
      var b' := b[..|b| - 1];
      assert (a + b)[..|a + b| - 1] == a + b';
      assert b[..|b| - 1] == b';
      FetchesAppend(a, b');
    }
  }

  lemma {:induction false} NoFetchHasNoFetches(s: seq<Call>)
    requires NoFetch(s)
    ensures Fetches(s) == []
    decreases |s|
  {
    if s != [] {
      NoFetchHasNoFetches(s[..|s| - 1]);
    }
  }

  lemma RangeSnoc(lo: nat, hi: nat)
    requires lo <= hi
    ensures Range(lo, hi) + [hi] == Range(lo, hi + 1)
  {
  }

  // ---------------------------------------------------------------------------
  // Streaming one object
  // ---------------------------------------------------------------------------

  /** The lines are offered to the broadcaster in file order, each once; every
      answer but the last is "go on"; the stream failed exactly when the last answer
      was "stop"; and when it did not fail, every line was offered. */
  lemma {:induction false} StreamLinesOffersPrefix(env: Environment, t: seq<Call>, lines: seq<string>)
    ensures var r := StreamLines(env, t, lines);
            && |t| <= |r.1| <= |t| + |lines| && r.1[..|t|] == t
            && (forall k :: |t| <= k < |r.1| ==>
                  r.1[k] == Broadcast(lines[k - |t|], env.test(r.1[..k], lines[k - |t|])))
            && (forall k :: |t| <= k < |r.1| - 1 ==> !r.1[k].stop)
            && (r.0 <==> |r.1| > |t| && r.1[|r.1| - 1].stop)
            && (!r.0 ==> |r.1| == |t| + |lines|)
    decreases |lines|
  {
    if lines != [] {
      var stop := env.test(t, lines[0]);
      var t' := t + [Broadcast(lines[0], stop)];
      assert t'[..|t|] == t;
      if !stop {
        StreamLinesOffersPrefix(env, t', lines[1..]);
        var r := StreamLines(env, t', lines[1..]);
        assert r.1[..|t'|] == t';
        assert r.1[..|t|] == t;
        forall k | |t| <= k < |r.1|
          ensures r.1[k] == Broadcast(lines[k - |t|], env.test(r.1[..k], lines[k - |t|]))
        {
          if k == |t| {
            assert r.1[k] == t'[k];
          } else {
            assert lines[1..][k - |t'|] == lines[k - |t|];
          }
        }
      }
    }
  }

  /** The same, for the calls added alone: a stream that failed ends with a "stop"
      answer; one that did not fail offered exactly the lines, in order, with every
      answer "go on". */
  lemma StreamLinesSent(env: Environment, t: seq<Call>, lines: seq<string>)
    ensures var r := StreamLines(env, t, lines);
            |t| <= |r.1| &&
            var b := r.1[|t|..];
            && (forall k :: 0 <= k < |b| ==> b[k].Broadcast?)
            && (r.0 ==> |b| >= 1 && b[|b| - 1].stop)
            && (!r.0 ==> |b| == |lines| && forall k :: 0 <= k < |b| ==> !b[k].stop && b[k].line == lines[k])
  {
    StreamLinesOffersPrefix(env, t, lines);
    var r := StreamLines(env, t, lines);
    var b := r.1[|t|..];
    assert forall k :: 0 <= k < |b| ==> b[k] == r.1[|t| + k];
  }

  /** `streamObject` only broadcasts and aborts, and aborts once exactly when it
      ends `Aborted`. */
  lemma StreamObjectCalls(env: Environment, t: seq<Call>, d: S3Download)
    ensures var r := StreamObjectSpec(env, t, d);
            && |t| <= |r.1| && r.1[..|t|] == t
            && StreamCalls(r.1[|t|..])
            && multiset(r.1[|t|..])[Abort] == (if r.0.Aborted? then 1 else 0)
  {
    var reader := Reader(d);
    if reader.Some? {
      StreamLinesOffersPrefix(env, t, reader.value.lines);
      var sent := StreamLines(env, t, reader.value.lines);
      var b := sent.1[|t|..];
      assert forall k :: 0 <= k < |b| ==> b[k] == sent.1[|t| + k];
      assert Abort !in b;
      if sent.0 {
        assert (sent.1 + [Abort])[|t|..] == b + [Abort];
      }
    }
  }

  /** The abort comes right after the first line whose answer was "stop"; without an
      abort no answer was "stop"; an object streamed to the end had every line of the
      selected reader offered, in order, and its event count is the number of lines.
      An unreadable gzip header sends nothing. */
  lemma StreamObjectOffersLines(env: Environment, t: seq<Call>, d: S3Download)
    ensures var r := StreamObjectSpec(env, t, d);
            |t| <= |r.1| &&
            var s := r.1[|t|..];
            && (r.0.Aborted? ==> |s| >= 2 && s[|s| - 1] == Abort && s[|s| - 2].Broadcast? && s[|s| - 2].stop)
            && (!r.0.Aborted? ==> forall k :: 0 <= k < |s| ==> s[k].Broadcast? && !s[k].stop)
            && (r.0.Streamed? ==>
                  && Reader(d).Some?
                  && r.0.events == |s| == |Reader(d).value.lines|
                  && forall k :: 0 <= k < |s| ==> s[k].line == Reader(d).value.lines[k])
            && (Reader(d).None? ==> r.0 == StreamIOError && s == [])
  {
    var reader := Reader(d);
    if reader.Some? {
      StreamLinesSent(env, t, reader.value.lines);
      var sent := StreamLines(env, t, reader.value.lines);
      var b := sent.1[|t|..];
      if sent.0 {
        assert (sent.1 + [Abort])[|t|..] == b + [Abort];
      }
    } else {
      assert t[|t|..] == [];
    }
  }

  /** Appending calls that fetch nothing keeps the downloads gated. */
  lemma GatedAppend(a: seq<Call>, b: seq<Call>)
    requires Gated(a) && NoFetch(b)
    ensures Gated(a + b)
  {
    assert forall k :: |a| <= k < |a + b| ==> (a + b)[k] == b[k - |a|];
  }

  // ---------------------------------------------------------------------------
  // Processing one record
  // ---------------------------------------------------------------------------


  /** The calls `processRecord` adds after its fetch: streaming calls, then (unless
      an exception escapes) the verdict. */
  lemma ProcessRecordExtension(env: Environment, t: seq<Call>, i: nat, record: AmazonEventRecord)
    ensures var r := ProcessRecordSpec(env, t, i, record);
            && |t| + 1 <= |r.1| && r.1[..|t| + 1] == t + [Fetch(i)]
            && (r.0.Escaped? ==> StreamCalls(r.1[|t| + 1..]))
            && (!r.0.Escaped? ==>
                  && |t| + 2 <= |r.1|
                  && StreamCalls(r.1[|t| + 1..|r.1| - 1])
                  && r.1[|r.1| - 1] == Verdict(r.0.Processed?))
  {
    var f := env.fetch(t, record);
    var t1 := t + [Fetch(i)];
    if f.Fetched? {
      StreamObjectCalls(env, t1, f.download);
      var so := StreamObjectSpec(env, t1, f.download);
      if !so.0.ReadError? {
        var r := so.1 + [Verdict(so.0.Streamed?)];
        assert r[|t1|..|r| - 1] == so.1[|t1|..];
      }
    }
  }

  /** What `processRecord` adds after the calls so far, as one piece: its fetch, then
      calls that are neither fetches nor "no connections" answers. */
  lemma ProcessRecordRest(env: Environment, t: seq<Call>, i: nat, record: AmazonEventRecord)
    ensures var r := ProcessRecordSpec(env, t, i, record);
            && |t| + 1 <= |r.1| && r.1 == t + [Fetch(i)] + r.1[|t| + 1..]
            && NoFetch(r.1[|t| + 1..]) && IsEmpty(true) !in r.1[|t| + 1..]
  {
    ProcessRecordExtension(env, t, i, record);
    var r := ProcessRecordSpec(env, t, i, record);
    var t1 := t + [Fetch(i)];
    var rest := r.1[|t1|..];
    assert r.1 == r.1[..|t1|] + rest;
    if r.0.Escaped? {
      assert StreamCalls(rest);
    } else {
      assert rest == r.1[|t1|..|r.1| - 1] + [r.1[|r.1| - 1]];
    }
  }

  /** `processRecord` fetches record `i` once, first, and fetches nothing else. */
  lemma ProcessRecordCalls(env: Environment, t: seq<Call>, i: nat, record: AmazonEventRecord)
    ensures var r := ProcessRecordSpec(env, t, i, record);
            && |t| < |r.1| && r.1[..|t|] == t && r.1[|t|] == Fetch(i)
            && Fetches(r.1) == Fetches(t) + [i]
  {
    ProcessRecordRest(env, t, i, record);
    var r := ProcessRecordSpec(env, t, i, record);
    var t1 := t + [Fetch(i)];
    var rest := r.1[|t1|..];
    FetchesAppend(t, [Fetch(i)]);
    assert Fetches([Fetch(i)]) == [i] by {
      assert [Fetch(i)][..0] == [];
    }
    FetchesAppend(t1, rest);
    NoFetchHasNoFetches(rest);
  }

  /** When the calls so far end with a "connections present" answer, the fetch of
      `processRecord` is gated by it; and `processRecord` never asks whether the
      broadcaster is empty. */
  lemma ProcessRecordGated(env: Environment, t: seq<Call>, i: nat, record: AmazonEventRecord)
    ensures var r := ProcessRecordSpec(env, t, i, record);
            && (Gated(t) && t != [] && t[|t| - 1] == IsEmpty(false) ==> Gated(r.1))
            && (IsEmpty(true) !in t ==> IsEmpty(true) !in r.1)
  {
    ProcessRecordRest(env, t, i, record);
    var r := ProcessRecordSpec(env, t, i, record);
    var t1 := t + [Fetch(i)];
    if t != [] && Gated(t) && t[|t| - 1] == IsEmpty(false) {
      assert Gated(t1);
      GatedAppend(t1, r.1[|t1|..]);
    }
  }

  /** A record counts as processed exactly when its fetch failed in a way that leaves
      nothing to send (constraint, zero size, 404) or its object was streamed to the
      end; an exception escapes exactly on a read error while streaming; a processed
      record adds one "processed" verdict and no abort, and every record adds at most
      one of the two. */
  lemma ProcessRecordVerdict(env: Environment, t: seq<Call>, i: nat, record: AmazonEventRecord)
    ensures var r := ProcessRecordSpec(env, t, i, record);
            var f := env.fetch(t, record);
            && (r.0.Processed? <==> Skippable(f) || (f.Fetched? && StreamObjectSpec(env, t + [Fetch(i)], f.download).0.Streamed?))
            && (r.0.Escaped? <==> f.Fetched? && StreamObjectSpec(env, t + [Fetch(i)], f.download).0.ReadError?)
            && multiset(r.1)[Verdict(true)] == multiset(t)[Verdict(true)] + (if r.0.Processed? then 1 else 0)
            && multiset(r.1)[Verdict(true)] + multiset(r.1)[Abort] <= multiset(t)[Verdict(true)] + multiset(t)[Abort] + 1
  {
    var f := env.fetch(t, record);
    var t1 := t + [Fetch(i)];
    if f.Fetched? {
      StreamObjectCalls(env, t1, f.download);
      var so := StreamObjectSpec(env, t1, f.download);
      var b := so.1[|t1|..];
      assert so.1 == t1 + b;
      assert Verdict(true) !in b;
    }
  }

  // ---------------------------------------------------------------------------
  // The loop over the records
  // ---------------------------------------------------------------------------

  /** What holds of the calls between two records of the loop of `test`, when `i`
      records have been handled and `p` of them counted as processed: every fetch was
      gated, nobody reported "no connections" yet, records 0 .. i - 1 were fetched in
      order, `p` "processed" verdicts were given, and at most one verdict or abort
      per record. */
  predicate BetweenRecords(t: seq<Call>, rs: seq<AmazonEventRecord>, i: nat, p: nat) {
    && i <= |rs| && p <= i
    && Gated(t) && IsEmpty(true) !in t
    && Fetches(t) == Range(0, i)
    && multiset(t)[Verdict(true)] == p
    && multiset(t)[Verdict(true)] + multiset(t)[Abort] <= i
  }

  /** The "connections present" answer that opens a turn of the loop neither fetches
      nor counts. */
  lemma ConnectedKeeps(t: seq<Call>)
    ensures Gated(t) ==> Gated(t + [IsEmpty(false)])
    ensures Fetches(t + [IsEmpty(false)]) == Fetches(t)
    ensures IsEmpty(true) !in t ==> IsEmpty(true) !in t + [IsEmpty(false)]
    ensures multiset(t + [IsEmpty(false)])[Verdict(true)] == multiset(t)[Verdict(true)]
    ensures multiset(t + [IsEmpty(false)])[Abort] == multiset(t)[Abort]
  {
    assert NoFetch([IsEmpty(false)]);
    if Gated(t) {
      GatedAppend(t, [IsEmpty(false)]);
    }
    FetchesAppend(t, [IsEmpty(false)]);
    NoFetchHasNoFetches([IsEmpty(false)]);
  }

  /** One turn of the loop: check for connections, then process record `i`. */
  lemma RecordStep(env: Environment, t: seq<Call>, rs: seq<AmazonEventRecord>, i: nat, p: nat)
    requires BetweenRecords(t, rs, i, p) && i < |rs|
    ensures var r := ProcessRecordSpec(env, t + [IsEmpty(false)], i, rs[i]);
            var p' := if r.0.Processed? then p + 1 else p;
            && |t| < |r.1| && r.1[..|t|] == t
            && Gated(r.1) && IsEmpty(true) !in r.1
            && Fetches(r.1) == Range(0, i + 1)
            && multiset(r.1)[Verdict(true)] == p'
            && multiset(r.1)[Verdict(true)] + multiset(r.1)[Abort] <= i + 1
  {
    var t1 := t + [IsEmpty(false)];
    ProcessRecordCalls(env, t1, i, rs[i]);
    ProcessRecordGated(env, t1, i, rs[i]);
    ProcessRecordVerdict(env, t1, i, rs[i]);
    ConnectedKeeps(t);
    RangeSnoc(0, i);
    var r := ProcessRecordSpec(env, t1, i, rs[i]);
    assert r.1[..|t|] == r.1[..|t1|][..|t|];
  }

  /** What the loop of `test` leaves behind, having started from the calls `t`: it
      kept them; every fetch is gated; after a "no connections" answer nothing else
      happens, and the result is "keep the message"; records are fetched in order,
      each at most once, and every record is fetched unless the loop stopped for lack
      of connections or an exception escaped; each record gives at most one
      "processed" verdict or abort; and a returned verdict says "delete" exactly when
      every record counted as processed. */
  predicate LoopEnd(t: seq<Call>, rs: seq<AmazonEventRecord>, out: Outcome, r: seq<Call>) {
    && |t| <= |r| && r[..|t|] == t
    && Gated(r) && StopsWhenEmpty(r)
    && |Fetches(r)| <= |rs| && Fetches(r) == Range(0, |Fetches(r)|)
    && multiset(r)[Verdict(true)] + multiset(r)[Abort] <= |Fetches(r)|
    && (out.Returned? ==> (out.delete <==> multiset(r)[Verdict(true)] == |rs|))
    && (out.Returned? && IsEmpty(true) !in r ==> |Fetches(r)| == |rs|)
    && (IsEmpty(true) in r ==> out == Returned(false))
  }

  lemma AllRecordsHandled(t: seq<Call>, rs: seq<AmazonEventRecord>, p: nat)
    requires BetweenRecords(t, rs, |rs|, p)
    ensures LoopEnd(t, rs, Returned(p == |rs|), t)
  {
  }

  lemma NobodyListens(t: seq<Call>, rs: seq<AmazonEventRecord>, i: nat, p: nat)
    requires BetweenRecords(t, rs, i, p) && i < |rs|
    ensures LoopEnd(t, rs, Returned(false), t + [IsEmpty(true)])
  {
    var t' := t + [IsEmpty(true)];
    assert StopsWhenEmpty(t');
    assert NoFetch([IsEmpty(true)]);
    GatedAppend(t, [IsEmpty(true)]);
    FetchesAppend(t, [IsEmpty(true)]);
    NoFetchHasNoFetches([IsEmpty(true)]);
  }

  lemma EscapedFrom(t: seq<Call>, rs: seq<AmazonEventRecord>, i: nat, r: seq<Call>)
    requires i < |rs|
    requires && |t| < |r| && r[..|t|] == t
             && Gated(r) && IsEmpty(true) !in r
             && Fetches(r) == Range(0, i + 1)
             && multiset(r)[Verdict(true)] + multiset(r)[Abort] <= i + 1
    ensures LoopEnd(t, rs, Threw, r)
  {
  }

  lemma LoopEndFrom(t: seq<Call>, t': seq<Call>, rs: seq<AmazonEventRecord>, out: Outcome, r: seq<Call>)
    requires |t| <= |t'| && t'[..|t|] == t
    requires LoopEnd(t', rs, out, r)
    ensures LoopEnd(t, rs, out, r)
  {
    assert r[..|t|] == r[..|t'|][..|t|];
  }

  /** One turn of the loop of `test`, as `RecordsSpec` takes it. */
  lemma RecordsSpecTurn(env: Environment, t: seq<Call>, rs: seq<AmazonEventRecord>, i: nat, p: nat)
    requires i < |rs| && !env.isEmpty(t)
    ensures var r := ProcessRecordSpec(env, t + [IsEmpty(false)], i, rs[i]);
            RecordsSpec(env, t, rs, i, p)
            == if r.0.Escaped? then (Threw, r.1)
               else RecordsSpec(env, r.1, rs, i + 1, if r.0.Processed? then p + 1 else p)
  {
  }

  /** One turn of the loop of `test`, from what the rest of the loop leaves behind. */
  lemma RecordsShapeNext(env: Environment, t: seq<Call>, rs: seq<AmazonEventRecord>, i: nat, p: nat)
    requires BetweenRecords(t, rs, i, p) && i < |rs| && !env.isEmpty(t)
    requires var r := ProcessRecordSpec(env, t + [IsEmpty(false)], i, rs[i]);
             var p' := if r.0.Processed? then p + 1 else p;
             !r.0.Escaped? ==> var q := RecordsSpec(env, r.1, rs, i + 1, p'); LoopEnd(r.1, rs, q.0, q.1)
    ensures var q := RecordsSpec(env, t, rs, i, p); LoopEnd(t, rs, q.0, q.1)
  {
    RecordStep(env, t, rs, i, p);
    RecordsSpecTurn(env, t, rs, i, p);
    var r := ProcessRecordSpec(env, t + [IsEmpty(false)], i, rs[i]);
    var q := if r.0.Escaped? then (Threw, r.1)
             else RecordsSpec(env, r.1, rs, i + 1, if r.0.Processed? then p + 1 else p);
    if r.0.Escaped? {
      EscapedFrom(t, rs, i, r.1);
    } else {
      LoopEndFrom(t, r.1, rs, q.0, q.1);
    }
    assert LoopEnd(t, rs, q.0, q.1);
  }

  /** The two ways out of the loop of `test` other than an exception. */
  lemma RecordsSpecStops(env: Environment, t: seq<Call>, rs: seq<AmazonEventRecord>, i: nat, p: nat)
    requires i <= |rs|
    ensures i == |rs| ==> RecordsSpec(env, t, rs, i, p) == (Returned(p == |rs|), t)
    ensures i < |rs| && env.isEmpty(t) ==> RecordsSpec(env, t, rs, i, p) == (Returned(false), t + [IsEmpty(true)])
  {
  }

  /** A turn of the loop that does not throw leads to the next turn. */
  lemma RecordStepBetween(env: Environment, t: seq<Call>, rs: seq<AmazonEventRecord>, i: nat, p: nat)
    requires BetweenRecords(t, rs, i, p) && i < |rs|
    ensures var r := ProcessRecordSpec(env, t + [IsEmpty(false)], i, rs[i]);
            !r.0.Escaped? ==> BetweenRecords(r.1, rs, i + 1, if r.0.Processed? then p + 1 else p)
  {
    RecordStep(env, t, rs, i, p);
  }

  /** The loop of `test` from record `i` on. */
  lemma {:induction false} RecordsShape(env: Environment, t: seq<Call>, rs: seq<AmazonEventRecord>, i: nat, p: nat)
    requires BetweenRecords(t, rs, i, p)
    ensures var r := RecordsSpec(env, t, rs, i, p); LoopEnd(t, rs, r.0, r.1)
    decreases |rs| - i
  {
    RecordsSpecStops(env, t, rs, i, p);
    if i == |rs| {
      AllRecordsHandled(t, rs, p);
    } else if env.isEmpty(t) {
      NobodyListens(t, rs, i, p);
    } else {
      RecordStepBetween(env, t, rs, i, p);
      var r := ProcessRecordSpec(env, t + [IsEmpty(false)], i, rs[i]);
      if !r.0.Escaped? {
        RecordsShape(env, r.1, rs, i + 1, if r.0.Processed? then p + 1 else p);
      }
      RecordsShapeNext(env, t, rs, i, p);
    }
  }

  // ---------------------------------------------------------------------------
  // One message
  // ---------------------------------------------------------------------------

  /** A message that parses to at least one record, received while somebody
      listens, goes through the loop over its records, starting after the
      connection check and the parse of the records. */
  lemma TestEntersLoop(env: Environment, m: Message)
    requires !env.isEmpty([]) && RecordsOf(env, m).Some? && |RecordsOf(env, m).value| >= 1
    ensures var rs := RecordsOf(env, m).value;
            var t0 := [IsEmpty(false), ParseRecords(Payload(m, env.parseNotification(m.body).value))];
            var r := TestSpec(env, Some(m));
            r == RecordsSpec(env, t0, rs, 0, 0) && LoopEnd(t0, rs, r.0, r.1)
  {
    var rs := RecordsOf(env, m).value;
    var t0 := [IsEmpty(false), ParseRecords(Payload(m, env.parseNotification(m.body).value))];
    assert NoFetch(t0);
    NoFetchHasNoFetches(t0);
    assert BetweenRecords(t0, rs, 0, 0);
    RecordsShape(env, t0, rs, 0, 0);
  }

  /** The calls `test` makes before it could reach the loop: none for a null
      message, then the connection check, then the parse of the records. */
  lemma TestBeforeLoop(env: Environment, message: Option<Message>)
    requires message.None? || env.isEmpty([]) || RecordsOf(env, message.value).None? || |RecordsOf(env, message.value).value| < 1
    ensures var r := TestSpec(env, message);
            && Gated(r.1) && StopsWhenEmpty(r.1) && Fetches(r.1) == []
            && (message.None? ==> r == (Returned(false), []))
            && (message.Some? && env.isEmpty([]) ==> r == (Returned(false), [IsEmpty(true)]))
            && (message.Some? && !env.isEmpty([]) ==> r.0 != Returned(false) && IsEmpty(true) !in r.1)
  {
    var r := TestSpec(env, message);
    assert NoFetch(r.1);
    NoFetchHasNoFetches(r.1);
  }

  /** The order of the calls of `test`: every download is preceded by a check that
      somebody listens, the first thing done with a message is that check, nothing
      follows a "no connections" answer, and downloads, if any, are of records
      0, 1, 2, ... of a message that parsed, each at most once. */
  lemma TestCallOrder(env: Environment, message: Option<Message>)
    ensures var r := TestSpec(env, message);
            var n := |Fetches(r.1)|;
            && Gated(r.1) && StopsWhenEmpty(r.1)
            && Fetches(r.1) == Range(0, n)
            && (n > 0 ==> message.Some? && RecordsOf(env, message.value).Some? && n <= |RecordsOf(env, message.value).value|)
            && (message.None? <==> r.1 == [])
            && (message.Some? ==> r.1[0] == IsEmpty(env.isEmpty([])))
  {
    if message.None? || env.isEmpty([]) || RecordsOf(env, message.value).None? || |RecordsOf(env, message.value).value| < 1 {
      TestBeforeLoop(env, message);
    } else {
      LoopCallOrder(env, message.value);
    }
  }

  /** The call order of a message that reaches the loop over its records. */
  lemma LoopCallOrder(env: Environment, m: Message)
    requires !env.isEmpty([]) && RecordsOf(env, m).Some? && |RecordsOf(env, m).value| >= 1
    ensures var r := TestSpec(env, Some(m));
            var n := |Fetches(r.1)|;
            && Gated(r.1) && StopsWhenEmpty(r.1)
            && Fetches(r.1) == Range(0, n)
            && n <= |RecordsOf(env, m).value|
            && r.1 != [] && r.1[0] == IsEmpty(false)
  {
    TestEntersLoop(env, m);
    var t0 := [IsEmpty(false), ParseRecords(Payload(m, env.parseNotification(m.body).value))];
    var r := TestSpec(env, Some(m));
    assert r.1[..|t0|] == t0;
    assert r.1[0] == r.1[..|t0|][0];
  }

  /** `test` says "delete" exactly when the envelope or the records do not parse,
      when there are no records, or when the loop over the records returned with
      every record counted as processed; and it keeps the message whenever the
      broadcaster reports nobody listening. Ill-formed JSON is deleted, JSON `null`
      throws. */
  lemma TestVerdict(env: Environment, message: Option<Message>)
    ensures var r := TestSpec(env, message);
            && (r.0 == Returned(true) <==>
                  && message.Some? && !env.isEmpty([])
                  && var pn := env.parseNotification(message.value.body);
                     (|| pn.Malformed?
                      || (&& pn.Value?
                          && var pr := env.parseRecords(Payload(message.value, pn.value));
                             (|| pr.Malformed?
                              || (pr.Value? && |pr.value| == 0)
                              || (pr.Value? && r.0.Returned? && multiset(r.1)[Verdict(true)] == |pr.value|)))))
            && (IsEmpty(true) in r.1 ==> r.0 == Returned(false))
            && (message.Some? && !env.isEmpty([]) && env.parseNotification(message.value.body).JsonNull? ==> r.0 == Threw)
  {
    if message.None? || env.isEmpty([]) || RecordsOf(env, message.value).None? || |RecordsOf(env, message.value).value| < 1 {
      TestBeforeLoop(env, message);
    } else {
      TestEntersLoop(env, message.value);
    }
  }

  /** A message is deleted after its records were streamed only when every record
      was downloaded and no stream was aborted; and unless the broadcaster reported
      nobody listening or an exception escaped, every record is tried: a record that
      fails does not stop the loop. */
  lemma TestTriesEveryRecord(env: Environment, m: Message)
    requires RecordsOf(env, m).Some?
    ensures var rs := RecordsOf(env, m).value;
            var r := TestSpec(env, Some(m));
            && (r.0.Returned? && IsEmpty(true) !in r.1 ==> |Fetches(r.1)| == |rs|)
            && (r.0 == Returned(true) && |rs| >= 1 ==> |Fetches(r.1)| == |rs| && multiset(r.1)[Abort] == 0)
  {
    if env.isEmpty([]) || |RecordsOf(env, m).value| < 1 {
      TestBeforeLoop(env, Some(m));
    } else {
      TestEntersLoop(env, m);
    }
  }

  /** A message one of whose downloads was aborted, because the last listener left
      while it streamed, is never deleted. */
  lemma AbortedMessageIsKept(env: Environment, message: Option<Message>)
    ensures var r := TestSpec(env, message);
            multiset(r.1)[Abort] > 0 ==> r.0 != Returned(true)
  {
    if message.None? || env.isEmpty([]) || RecordsOf(env, message.value).None? || |RecordsOf(env, message.value).value| < 1 {
      var r := TestSpec(env, message);
      assert Abort !in r.1;
    } else {
      TestEntersLoop(env, message.value);
    }
  }

  /** `processRecord` gives one "not processed" verdict exactly when it returns
      false, and none otherwise. */
  lemma ProcessRecordFailures(env: Environment, t: seq<Call>, i: nat, record: AmazonEventRecord)
    ensures var r := ProcessRecordSpec(env, t, i, record);
            multiset(r.1)[Verdict(false)] == multiset(t)[Verdict(false)] + (if r.0.Unprocessed? then 1 else 0)
  {
    var f := env.fetch(t, record);
    var t1 := t + [Fetch(i)];
    if f.Fetched? {
      StreamObjectCalls(env, t1, f.download);
      var so := StreamObjectSpec(env, t1, f.download);
      var b := so.1[|t1|..];
      assert so.1 == t1 + b;
      assert Verdict(false) !in b;
    }
  }

  /** From record `i` on, when every record handled so far was either counted as
      processed or gave a "not processed" verdict, a loop that gave any "not
      processed" verdict does not end with "delete". */
  lemma {:induction false} RecordsKeepFailures(env: Environment, t: seq<Call>, rs: seq<AmazonEventRecord>, i: nat, p: nat)
    requires i <= |rs| && p + multiset(t)[Verdict(false)] <= i
    ensures var r := RecordsSpec(env, t, rs, i, p);
            multiset(r.1)[Verdict(false)] > 0 ==> r.0 != Returned(true)
    decreases |rs| - i
  {
    RecordsSpecStops(env, t, rs, i, p);
    if i < |rs| && !env.isEmpty(t) {
      KeepFailuresStep(env, t, rs, i, p);
      var r := ProcessRecordSpec(env, t + [IsEmpty(false)], i, rs[i]);
      if !r.0.Escaped? {
        RecordsKeepFailures(env, r.1, rs, i + 1, if r.0.Processed? then p + 1 else p);
      }
      KeepFailuresNext(env, t, rs, i, p);
    }
  }

  /** One turn of the loop keeps the count of records handled. */
  lemma KeepFailuresStep(env: Environment, t: seq<Call>, rs: seq<AmazonEventRecord>, i: nat, p: nat)
    requires i < |rs| && p + multiset(t)[Verdict(false)] <= i
    ensures var r := ProcessRecordSpec(env, t + [IsEmpty(false)], i, rs[i]);
            (if r.0.Processed? then p + 1 else p) + multiset(r.1)[Verdict(false)] <= i + 1
  {
    var t1 := t + [IsEmpty(false)];
    assert multiset(t1)[Verdict(false)] == multiset(t)[Verdict(false)];
    ProcessRecordFailures(env, t1, i, rs[i]);
  }

  /** One turn of the loop, from what the rest of the loop leaves behind. */
  lemma KeepFailuresNext(env: Environment, t: seq<Call>, rs: seq<AmazonEventRecord>, i: nat, p: nat)
    requires i < |rs| && !env.isEmpty(t)
    requires var r := ProcessRecordSpec(env, t + [IsEmpty(false)], i, rs[i]);
             !r.0.Escaped? ==>
               var q := RecordsSpec(env, r.1, rs, i + 1, if r.0.Processed? then p + 1 else p);
               multiset(q.1)[Verdict(false)] > 0 ==> q.0 != Returned(true)
    ensures var q := RecordsSpec(env, t, rs, i, p);
            multiset(q.1)[Verdict(false)] > 0 ==> q.0 != Returned(true)
  {
    RecordsSpecTurn(env, t, rs, i, p);
  }

  /** A message one of whose records was not processed (a service error other than
      404, a client error, a record the converter rejects, an I/O error while
      streaming, or an aborted stream) is never deleted, although the records after
      it are still tried. */
  lemma FailedRecordKeeps(env: Environment, message: Option<Message>)
    ensures var r := TestSpec(env, message);
            Verdict(false) in r.1 ==> r.0 != Returned(true)
  {
    if message.None? || env.isEmpty([]) || RecordsOf(env, message.value).None? || |RecordsOf(env, message.value).value| < 1 {
      var r := TestSpec(env, message);
      assert Verdict(false) !in r.1;
    } else {
      var m := message.value;
      var t0 := [IsEmpty(false), ParseRecords(Payload(m, env.parseNotification(m.body).value))];
      assert multiset(t0)[Verdict(false)] == 0;
      RecordsKeepFailures(env, t0, RecordsOf(env, m).value, 0, 0);
    }
  }

  /** The records are parsed from the envelope's `Message` when the envelope is
      valid, and from the raw body otherwise; nothing is parsed when the envelope
      itself does not parse. */
  lemma TestParsesPayload(env: Environment, m: Message)
    requires !env.isEmpty([])
    ensures var r := TestSpec(env, Some(m));
            var pn := env.parseNotification(m.body);
            && (pn.Value? ==> |r.1| >= 2 && r.1[1] == ParseRecords(if IsValid(pn.value) then pn.value.message.value else m.body))
            && (!pn.Value? ==> r.1 == [IsEmpty(false)])
  {
    if RecordsOf(env, m).Some? && |RecordsOf(env, m).value| >= 1 {
      TestEntersLoop(env, m);
    }
  }
}
