/**
 * The chain end to end: what the sink measures and acknowledges for a
 * message the driver sent into relay 0, whatever the binding.
 */
module Pipeline {
  import opened Config
  import opened Messages
  import opened Relays
  import opened Sinks

  /** A sink `k` hops down the chain that divides by `hops` records for the driver's `msg` exactly
      the sample it would record for the driver's own clock reading. */
  lemma ArrivalSample(b: Binding, msg: Timing, k: nat, receipt: int, hops: int)
    requires hops > 0
    ensures HopLatency(receipt, Arrival(b, msg, k).nanosec, hops) == HopLatency(receipt, msg.nanosec, hops)
    ensures receipt >= msg.nanosec ==> HopLatency(receipt, Arrival(b, msg, k).nanosec, hops) == (receipt - msg.nanosec) / hops
  {
  }

  /** In the five bindings whose sink sits behind all `NumRelays` relays and divides by `HopCount`,
      the message the sink receives carries the driver's id and clock reading, so the sample it
      records for a receipt at `receipt` is the driver-to-sink time divided over all hops. */
  lemma SinkMeasuresFromDriver(b: Binding, msg: Timing, receipt: int)
    ensures Arrival(b, msg, NumRelays).msgid == msg.msgid
    ensures WellFormed(msg) ==> WellFormed(Arrival(b, msg, NumRelays))
    ensures HopLatency(receipt, Arrival(b, msg, NumRelays).nanosec, HopCount) == HopLatency(receipt, msg.nanosec, HopCount)
    ensures receipt >= msg.nanosec ==>
      HopLatency(receipt, Arrival(b, msg, NumRelays).nanosec, HopCount) == (receipt - msg.nanosec) / HopCount
  {
    ArrivalSample(b, msg, NumRelays, receipt, HopCount);
  }

  /** The zenoh sink started with index `index` subscribes to the topic relay `index - 1`
      publishes to, so it receives the driver's message after `index` relays, and divides by
      `index + 1`: the sample is the driver-to-sink time divided over the hops actually taken. */
  lemma ZenohSinkMeasuresFromDriver(msg: Timing, index: nat, receipt: int)
    ensures Arrival(Zenoh, msg, index) == msg
    ensures HopLatency(receipt, Arrival(Zenoh, msg, index).nanosec, index + 1) == HopLatency(receipt, msg.nanosec, index + 1)
    ensures receipt >= msg.nanosec ==>
      HopLatency(receipt, Arrival(Zenoh, msg, index).nanosec, index + 1) == (receipt - msg.nanosec) / (index + 1)
  {
    ArrivalSample(Zenoh, msg, index, receipt, index + 1);
  }

  /** Whether the outgoing call of some relay from `k` on fails in transport. */
  predicate BrokenFrom(k: nat, broken: set<nat>) {
    exists i :: k <= i < NumRelays && i in broken
  }

  lemma BrokenFromStep(k: nat, broken: set<nat>)
    requires k < NumRelays
    ensures BrokenFrom(k, broken) <==> k in broken || BrokenFrom(k + 1, broken)
  {
    if BrokenFrom(k, broken) && k !in broken {
      var i :| k <= i < NumRelays && i in broken;
      assert k + 1 <= i;
    }
  }

  /** What a caller's `client_.bench` gives back for the answer of the handler it called: the
      returned value, or the exception rethrown. */
  function CallOutcome(a: Answer): (r: Result<int>)
    ensures r.Err? <==> a.Raised?
    ensures a.Answered? ==> r == Ok(a.ack)
  {
    match a
    case Answered(ack) => Ok(ack)
    case Raised => Err
  }

  /** What the driver's call to relay `k` gives back, in the C++ Thrift chain, for the driver's
      `msg`, when the outgoing call of each relay in `broken` fails in transport: the sink returns
      the id it received, every relay returns its successor's answer, and an exception anywhere
      downstream reaches the driver. */
  function ThriftBenchAnswer(msg: Timing, k: nat, broken: set<nat>): (r: Answer)
    requires k <= NumRelays
    ensures r.Raised? <==> BrokenFrom(k, broken)
    decreases NumRelays - k
  {
    if k == NumRelays then Answered(Arrival(ThriftBench, msg, NumRelays).msgid)
    else
      BrokenFromStep(k, broken);
      var downstream := if k in broken then Err else CallOutcome(ThriftBenchAnswer(msg, k + 1, broken));
      ThriftBenchRelay(k, Arrival(ThriftBench, msg, k), downstream).answer
  }

  /** So an acknowledgement that comes back through the whole chain is the driver's own id. */
  lemma {:induction false} ThriftBenchAckIsDriverId(msg: Timing, k: nat, broken: set<nat>)
    requires k <= NumRelays
    ensures ThriftBenchAnswer(msg, k, broken).Answered? ==> ThriftBenchAnswer(msg, k, broken).ack == msg.msgid
    decreases NumRelays - k
  {
    if k < NumRelays && k !in broken {
      ThriftBenchAckIsDriverId(msg, k + 1, broken);
    }
  }
}
