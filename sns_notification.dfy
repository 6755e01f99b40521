/** The pub/sub envelope a queue message body may carry: a `Message` string
    (the inner event-records JSON) and a `Timestamp`; both may be absent. */
module Notifications {
  import opened Wrappers

  /** A zoned date-time, reduced to its instant (nanoseconds since the epoch) and zone id. */
  datatype Timestamp = Timestamp(epochNanos: int, zone: string)

  /** The immutable envelope; the Jackson creator stores its two arguments as given,
      so the datatype constructor and its destructors are the constructor and accessors. */
  datatype AmazonSNSNotification = AmazonSNSNotification(message: Option<string>, timestamp: Option<Timestamp>)

  /** Both fields present. */
  predicate IsValid(n: AmazonSNSNotification) {
    n.message.Some? && n.timestamp.Some?
  }

  /** How far the notification lags behind `now` (the clock is a parameter);
      null when the notification has no timestamp. */
  function DelayDuration(n: AmazonSNSNotification, now: Timestamp): (r: Option<int>)
    ensures r.None? <==> n.timestamp.None?
    ensures r.Some? ==> r.value + n.timestamp.value.epochNanos == now.epochNanos
  {
    match n.timestamp
    case None => None
    case Some(t) => Some(now.epochNanos - t.epochNanos)
  }

  /** `equals`: field-wise comparison of message and timestamp. */
  function Equals(a: AmazonSNSNotification, b: AmazonSNSNotification): (r: bool)
    ensures r <==> a == b
  {
    a.message == b.message && a.timestamp == b.timestamp
  }

  /** A valid notification always has a delay to report. */
  lemma ValidHasDelay(n: AmazonSNSNotification, now: Timestamp)
    requires IsValid(n)
    ensures DelayDuration(n, now).Some?
  {
  }

  /** `equals` is an equivalence relation. */
  lemma EqualsIsEquivalence(a: AmazonSNSNotification, b: AmazonSNSNotification, c: AmazonSNSNotification)
    ensures Equals(a, a)
    ensures Equals(a, b) ==> Equals(b, a)
    ensures Equals(a, b) && Equals(b, c) ==> Equals(a, c)
  {
  }
}
