/** The server-sent-events broadcaster that also answers the processor's
    "should streaming stop?" question. The library broadcaster underneath is
    represented by the list of events it was asked to send and by the number of
    subscribers that close while an event is being sent, which is a parameter. */
module Broadcaster {

  datatype OutboundEvent = OutboundEvent(name: string, data: string)

  /** The heartbeat event. */
  const PING_EVENT := OutboundEvent("ping", "ping")

  /** An event carrying one line of an object; its media type (JSON) is not modelled. */
  function DataEvent(data: string): OutboundEvent {
    OutboundEvent("event", data)
  }

  /** A subscriber's output channel; only whether it is already closed matters here. */
  datatype ChunkedOutput = ChunkedOutput(id: nat, closed: bool)

  class InstrumentedSseBroadcaster {
    /** Number of open connections: up on every accepted add, down on every close. */
    var connectionCounter: int
    /** Every event handed to the library broadcast, in order. */
    var sent: seq<OutboundEvent>

    constructor()
      ensures connectionCounter == 0 && sent == []
      ensures IsEmpty()
    {
      connectionCounter := 0;
      sent := [];
    }

    /** `isEmpty`: no connection is open. */
    predicate IsEmpty()
      reads this
    {
      connectionCounter < 1
    }

    /** `add`: a closed output is refused outright; otherwise the library's answer
        `accepted` is returned and an accepted output is counted once. */
    method Add(output: ChunkedOutput, accepted: bool) returns (r: bool)
      modifies this
      ensures output.closed ==> !r
      ensures !output.closed ==> r == accepted
      ensures connectionCounter == old(connectionCounter) + (if r then 1 else 0)
      ensures sent == old(sent)
    {
      if output.closed {
        return false;
      }
      r := accepted;
      if r {
        connectionCounter := connectionCounter + 1;
      }
    }

    /** `onClose`: one connection fewer. */
    method OnClose(output: ChunkedOutput)
      modifies this
      ensures connectionCounter == old(connectionCounter) - 1
      ensures sent == old(sent)
    {
      connectionCounter := connectionCounter - 1;
    }

    /** `onException`: only logged. */
    method OnException(output: ChunkedOutput)
      ensures connectionCounter == old(connectionCounter) && sent == old(sent)
    {
    }

    /** The library broadcast of one event, during which `closing` subscribers close
        and the library calls `onClose` for each of them. */
    method Broadcast(event: OutboundEvent, closing: nat)
      modifies this
      ensures sent == old(sent) + [event]
      ensures connectionCounter == old(connectionCounter) - closing
    {
      sent := sent + [event];
      var k := 0;
      while k < closing
        invariant 0 <= k <= closing
        invariant sent == old(sent) + [event]
        invariant connectionCounter == old(connectionCounter) - k
      {
        OnClose(ChunkedOutput(k, true));
        k := k + 1;
      }
    }

    /** `test`: with nobody connected, answer "stop" without sending; otherwise send
        the line as one event and answer "stop" exactly when nobody is left. */
    method Test(event: string, closing: nat) returns (r: bool)
      modifies this
      ensures old(IsEmpty()) ==> r && connectionCounter == old(connectionCounter) && sent == old(sent)
      ensures !old(IsEmpty()) ==>
                && sent == old(sent) + [DataEvent(event)]
                && connectionCounter == old(connectionCounter) - closing
                && (r <==> IsEmpty())
      ensures !r <==> old(connectionCounter) - closing >= 1
    {
      if IsEmpty() {
        return true;
      }
      Broadcast(DataEvent(event), closing);
      if IsEmpty() {
        return true;
      }
      return false;
    }

    /** `ping`: the heartbeat is sent whatever the count; only subscribers that close
        during the send change the counter. */
    method Ping(closing: nat)
      modifies this
      ensures sent == old(sent) + [PING_EVENT]
      ensures connectionCounter == old(connectionCounter) - closing
    {
      Broadcast(PING_EVENT, closing);
    }
  }

  /** A fresh broadcaster is empty, and stops being empty once an open output is
      accepted. */
  method AddMakesNonEmpty() returns (before: bool, after: bool)
    ensures before && !after
  {
    var b := new InstrumentedSseBroadcaster();
    before := b.IsEmpty();
    var added := b.Add(ChunkedOutput(0, false), true);
    after := b.IsEmpty();
  }
}
