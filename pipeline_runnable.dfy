/** The polling loop: while the queue has more and the thread is not interrupted,
    receive a batch of messages (only when somebody listens), delete the messages
    the processor accepts, and sleep, longer after a failure. The queue, the
    processor, the broadcaster and the thread's interrupt flag are given round by
    round as the answers they would give. */
module Runner {
  import opened Processor

  /** Seconds slept after an ordinary round. */
  const DEFAULT_SLEEP_SECS: int := 1
  /** Seconds slept after the queue or the processor failed. */
  const SQS_FAILURE_SLEEP_SECS: int := 10

  /** What asking the queue for messages gives: a batch, the request limit, or any
      other failure. */
  datatype Batch = Received(messages: seq<Message>) | OverLimit | ReceiveFailure

  /** The answers the world gives in one round of the loop: whether the broadcaster
      is empty, what the queue returns, what the processor's `test` gives for each
      message, and whether the thread is interrupted before the next check of the
      loop condition (while working or sleeping). */
  datatype Round = Round(
    broadcasterEmpty: bool,
    batch: Batch,
    verdict: Message -> Outcome,
    interrupt: bool)

  /** What one round did: whether it asked the queue, which messages it deleted, in
      order, and how long it slept. */
  datatype Iteration = Iteration(requested: bool, deleted: seq<Message>, sleepSeconds: int)

  // ---------------------------------------------------------------------------
  // Filtering a batch
  // ---------------------------------------------------------------------------

  /** The position of the first message whose `test` throws, or the batch size. */
  function FirstThrow(ms: seq<Message>, verdict: Message -> Outcome): (n: nat)
    ensures n <= |ms|
    ensures forall k :: 0 <= k < n ==> !verdict(ms[k]).Threw?
    ensures n < |ms| ==> verdict(ms[n]).Threw?
    decreases |ms|
  {
    if ms == [] || verdict(ms[0]).Threw? then 0 else 1 + FirstThrow(ms[1..], verdict)
  }

  /** `messages.stream().filter(processor::test).forEach(sqs::deleteMessage)`, taken
      in order: the messages deleted, and whether an exception ended the stream. */
  function Sift(ms: seq<Message>, verdict: Message -> Outcome): (seq<Message>, bool)
    decreases |ms|
  {
    if ms == [] then ([], false)
    else if verdict(ms[0]).Threw? then ([], true)
    else
      var rest := Sift(ms[1..], verdict);
      if verdict(ms[0]) == Returned(true) then ([ms[0]] + rest.0, rest.1) else rest
  }

  /** The stream ends in an exception exactly when some message's `test` throws; the
      messages deleted are, in order, those before the first throw that `test`
      accepts. */
  lemma SiftMeans(ms: seq<Message>, verdict: Message -> Outcome)
    ensures var r := Sift(ms, verdict);
            && (r.1 <==> exists k :: 0 <= k < |ms| && verdict(ms[k]).Threw?)
            && r.0 == Accepted(ms[..FirstThrow(ms, verdict)], verdict)
  {
    SiftThrows(ms, verdict);
    SiftDeletes(ms, verdict);
  }

  lemma {:induction false} SiftThrows(ms: seq<Message>, verdict: Message -> Outcome)
    ensures Sift(ms, verdict).1 <==> exists k :: 0 <= k < |ms| && verdict(ms[k]).Threw?
    decreases |ms|
  {
    if ms != [] && !verdict(ms[0]).Threw? {
      SiftThrows(ms[1..], verdict);
      if exists k :: 0 <= k < |ms| && verdict(ms[k]).Threw? {
        var k :| 0 <= k < |ms| && verdict(ms[k]).Threw?;
        assert k > 0 && verdict(ms[1..][k - 1]).Threw?;
      }
    }
  }

  lemma {:induction false} SiftDeletes(ms: seq<Message>, verdict: Message -> Outcome)
    ensures Sift(ms, verdict).0 == Accepted(ms[..FirstThrow(ms, verdict)], verdict)
    decreases |ms|
  {
    if ms == [] {
    } else if verdict(ms[0]).Threw? {
      assert ms[..0] == [];
    } else {
      SiftDeletes(ms[1..], verdict);
      var n := FirstThrow(ms, verdict);
      AcceptedCons(ms[..n], verdict);
      assert ms[..n][0] == ms[0] && ms[..n][1..] == ms[1..][..n - 1];
    }
  }

  /** One step of `Accepted`. */
  lemma AcceptedCons(ms: seq<Message>, verdict: Message -> Outcome)
    requires ms != []
    ensures Accepted(ms, verdict) ==
            (if verdict(ms[0]) == Returned(true) then [ms[0]] else []) + Accepted(ms[1..], verdict)
  {
  }

  /** The messages, in order, whose `test` returns true. */
  function Accepted(ms: seq<Message>, verdict: Message -> Outcome): (r: seq<Message>)
    ensures |r| <= |ms|
    ensures forall m :: m in r <==> m in ms && verdict(m) == Returned(true)
    ensures multiset(r) <= multiset(ms)
    decreases |ms|
  {
    if ms == [] then []
    else
      assert ms == [ms[0]] + ms[1..];
      (if verdict(ms[0]) == Returned(true) then [ms[0]] else []) + Accepted(ms[1..], verdict)
  }

  // ---------------------------------------------------------------------------
  // One round and the loop
  // ---------------------------------------------------------------------------

  /** One pass of the loop body. */
  function Iterate(round: Round): Iteration {
    if round.broadcasterEmpty then Iteration(false, [], DEFAULT_SLEEP_SECS)
    else
      match round.batch
      case Received(ms) =>
        var sifted := Sift(ms, round.verdict);
        Iteration(true, sifted.0, if sifted.1 then SQS_FAILURE_SLEEP_SECS else DEFAULT_SLEEP_SECS)
      case _ => Iteration(true, [], SQS_FAILURE_SLEEP_SECS)
  }

  /** A round sleeps one second normally and ten after a failure; it asks the queue
      only when somebody listens; it deletes only messages of its batch that `test`
      accepted; and it sleeps ten seconds exactly when it asked the queue and the
      request failed or a `test` threw. */
  lemma IterateMeans(round: Round)
    ensures var it := Iterate(round);
            && (it.sleepSeconds == DEFAULT_SLEEP_SECS || it.sleepSeconds == SQS_FAILURE_SLEEP_SECS)
            && (it.requested <==> !round.broadcasterEmpty)
            && (forall m :: m in it.deleted ==>
                  round.batch.Received? && m in round.batch.messages && round.verdict(m) == Returned(true))
            && (it.sleepSeconds == SQS_FAILURE_SLEEP_SECS <==>
                  && it.requested
                  && (!round.batch.Received? || exists k :: 0 <= k < |round.batch.messages| && round.verdict(round.batch.messages[k]).Threw?))
  {
    if !round.broadcasterEmpty && round.batch.Received? {
      var ms := round.batch.messages;
      SiftMeans(ms, round.verdict);
      var n := FirstThrow(ms, round.verdict);
      forall m | m in Sift(ms, round.verdict).0 ensures m in ms {
        assert m in ms[..n];
      }
    }
  }

  /** A batch in which no `test` throws has every accepted message deleted, and
      nothing else. */
  lemma DeletesEveryAccepted(round: Round)
    requires !round.broadcasterEmpty && round.batch.Received?
    requires forall k :: 0 <= k < |round.batch.messages| ==> !round.verdict(round.batch.messages[k]).Threw?
    ensures Iterate(round).deleted == Accepted(round.batch.messages, round.verdict)
    ensures Iterate(round).sleepSeconds == DEFAULT_SLEEP_SECS
  {
    var ms := round.batch.messages;
    SiftMeans(ms, round.verdict);
    assert ms[..|ms|] == ms;
  }

  /** How many rounds the loop runs: up to and including the first round in which the
      thread is interrupted, and no more than the rounds the queue offers. */
  function RoundsRun(rounds: seq<Round>): (n: nat)
    ensures n <= |rounds|
    ensures forall k :: 0 <= k < n - 1 ==> !rounds[k].interrupt
    ensures n < |rounds| ==> n > 0 && rounds[n - 1].interrupt
    decreases |rounds|
  {
    if rounds == [] then 0
    else if rounds[0].interrupt then 1
    else 1 + RoundsRun(rounds[1..])
  }

  /** `run()`: the queue has a next batch as long as rounds remain; a thread already
      interrupted runs no round. */
  method Run(interrupted: bool, rounds: seq<Round>) returns (log: seq<Iteration>)
    ensures interrupted ==> log == []
    ensures !interrupted ==> |log| == RoundsRun(rounds)
    ensures forall k :: 0 <= k < |log| ==> log[k] == Iterate(rounds[k])
  {
    log := [];
    var isInterrupted := interrupted;
    var i := 0;
    while i < |rounds| && !isInterrupted
      invariant 0 <= i <= |rounds|
      invariant |log| == i
      invariant forall k :: 0 <= k < i ==> log[k] == Iterate(rounds[k])
      invariant i == 0 ==> isInterrupted == interrupted
      invariant interrupted ==> i == 0
      invariant !interrupted ==> (isInterrupted <==> i > 0 && rounds[i - 1].interrupt)
      invariant !interrupted ==> forall k :: 0 <= k < i - 1 ==> !rounds[k].interrupt
      decreases |rounds| - i
    {
      var round := rounds[i];
      var sleepSeconds := DEFAULT_SLEEP_SECS;
      var deleted: seq<Message> := [];
      if !round.broadcasterEmpty {
        match round.batch {
          case Received(ms) =>
            var sifted := Sift(ms, round.verdict);
            deleted := sifted.0;
            if sifted.1 {
              sleepSeconds := SQS_FAILURE_SLEEP_SECS;
            }
          case OverLimit =>
            sleepSeconds := SQS_FAILURE_SLEEP_SECS;
          case ReceiveFailure =>
            sleepSeconds := SQS_FAILURE_SLEEP_SECS;
        }
      }
      log := log + [Iteration(!round.broadcasterEmpty, deleted, sleepSeconds)];
      isInterrupted := round.interrupt;
      i := i + 1;
    }
    if !interrupted {
      RoundsRunIsFirstInterrupt(rounds, i);
    }
  }

  /** `RoundsRun` is the one count that ends at an interrupt or at the end. */
  lemma {:induction false} RoundsRunIsFirstInterrupt(rounds: seq<Round>, i: nat)
    requires i <= |rounds|
    requires forall k :: 0 <= k < i - 1 ==> !rounds[k].interrupt
    requires i == |rounds| || (i > 0 && rounds[i - 1].interrupt)
    ensures RoundsRun(rounds) == i
    decreases i
  {
    if rounds != [] && !rounds[0].interrupt {
      assert i > 0 by {
        if i == 0 {
          assert i == |rounds|;
        }
      }
      RoundsRunIsFirstInterrupt(rounds[1..], i - 1);
    }
  }
}
