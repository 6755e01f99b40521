/** The older broadcaster that only counts its connections. */
module LegacyBroadcaster {
  import opened Broadcaster

  /** What has happened to a broadcaster: an `add` with its result, or a close. */
  datatype Event = Added(accepted: bool) | Closed

  class SseBroadcasterWithCount {
    /** Number of open connections. */
    var connectionCounter: int
    /** Every `add` and close so far, in order. */
    ghost var history: seq<Event>

    /** The counter is the number of accepted outputs minus the number of closes. */
    ghost predicate Valid()
      reads this
    {
      connectionCounter == multiset(history)[Added(true)] as int - multiset(history)[Closed]
    }

    constructor()
      ensures Valid() && history == []
      ensures connectionCounter == 0
    {
      connectionCounter := 0;
      history := [];
    }

    /** `add`: a closed output is refused; otherwise the library's answer `accepted`
        is returned, and only an accepted output is counted, once. */
    method Add(output: ChunkedOutput, accepted: bool) returns (r: bool)
      requires Valid()
      modifies this
      ensures Valid() && history == old(history) + [Added(r)]
      ensures output.closed ==> !r
      ensures !output.closed ==> r == accepted
      ensures connectionCounter == old(connectionCounter) + (if r then 1 else 0)
    {
      if output.closed {
        r := false;
      } else {
        r := accepted;
        if r {
          connectionCounter := connectionCounter + 1;
        }
      }
      history := history + [Added(r)];
    }

    /** `onClose`: one connection fewer. */
    method OnClose(output: ChunkedOutput)
      requires Valid()
      modifies this
      ensures Valid() && history == old(history) + [Closed]
      ensures connectionCounter == old(connectionCounter) - 1
    {
      history := history + [Closed];
      connectionCounter := connectionCounter - 1;
    }

    /** `size`: the number of outputs accepted so far minus the number closed. */
    function Size(): (r: int)
      requires Valid()
      reads this
      ensures r == connectionCounter
      ensures r == multiset(history)[Added(true)] as int - multiset(history)[Closed]
    {
      connectionCounter
    }
  }
}
