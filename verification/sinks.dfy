/**
 * The sinks: the last hop, which turns each message into one per-hop latency
 * sample and, once enough samples are in, reports P50 and P90.
 *
 * The four C++ sinks (Thrift `SinkHandler`, gRPC `Sink`, the ROS 2 sink
 * service lambda and `PnodeSink`) share one behaviour: insert into an
 * unordered multiset, and at 1000 samples report and `exit(0)`.  The two Rust
 * sinks push onto a vector and clear it after reporting: the Thrift one keeps
 * serving, the zenoh one returns from its receive loop.  The receipt clock
 * reading is a parameter; process exit is the `exited` flag.
 */
module Sinks {
  import opened Numeric
  import opened Config
  import opened Messages
  import opened Stats

  datatype Option<T> = None | Some(value: T)

  /** Per-hop latency: the elapsed time since the origin, divided by the hop count with truncation
      toward zero, as C++ and Rust divide signed 64-bit integers. */
  function HopLatency(receipt: int, origin: int, hops: int): (r: int)
    requires hops != 0
    ensures Abs(r) * Abs(hops) <= Abs(receipt - origin) < (Abs(r) + 1) * Abs(hops)
    ensures hops > 0 && receipt >= origin ==> 0 <= r == (receipt - origin) / hops
    ensures hops > 0 && receipt < origin ==> r <= 0
    ensures hops > 0 && IsInt64(receipt - origin) ==> IsInt64(r)
  {
    var elapsed := receipt - origin;
    if hops > 0 then TruncDivByPositive(elapsed, hops); TruncDiv(elapsed, hops)
    else TruncDiv(elapsed, hops)
  }

  /** What a C++ sink call leads to: the acknowledgement (the Thrift return value, the gRPC or ROS 2
      response's `ack`; the publish/subscribe sink sends none), or the report followed by exit. */
  datatype SinkOutcome = Acked(ack: int) | Exited(report: Report)

  class CppSink {
    /** `data_`: the samples so far, in no particular order. */
    var data: multiset<int>
    /** Whether the sink has reported and ended the process. */
    var exited: bool

    /** Below the threshold the sink serves; it exits exactly when the threshold is reached. */
    ghost predicate Valid()
      reads this
    {
      if exited then |data| == NumMessages else |data| < NumMessages
    }

    constructor ()
      ensures Valid() && data == multiset{} && !exited
    {
      data := multiset{};
      exited := false;
    }

    /** One message reaches the sink: exactly one sample is added, none removed; the call that
        brings the count to the threshold reports and exits, every earlier one acknowledges. */
    method Bench(receipt: int, msg: Timing) returns (outcome: SinkOutcome)
      requires Valid() && !exited
      modifies this
      ensures Valid()
      ensures data == old(data) + multiset{HopLatency(receipt, msg.nanosec, HopCount)}
      ensures exited <==> |old(data)| + 1 == NumMessages
      ensures outcome == if exited then Exited(PercentileReport(SortedOf(data))) else Acked(msg.msgid)
    {
      var nanosecPerHop := HopLatency(receipt, msg.nanosec, HopCount);
      data := data + multiset{nanosecPerHop};
      if |data| >= NumMessages {
        var report := PrintStats();
        exited := true;
        return Exited(report);
      }
      return Acked(msg.msgid);
    }

    /** `print_stats`: copies the samples into a vector in whatever order the multiset yields them,
        sorts it and reports the elements at `n/2` and `n*9/10`, divided by 1000. */
    method PrintStats() returns (report: Report)
      requires |data| > 0
      ensures report == PercentileReport(SortedOf(data))
    {
      var buffer := new int[|data|];
      var rest := data;
      var i := 0;
      while i < buffer.Length
        invariant 0 <= i <= buffer.Length && |rest| == buffer.Length - i
        invariant multiset(buffer[..i]) + rest == data
      {
        assert rest != multiset{};
        HasElement(rest);
        var x :| x in rest;
        buffer[i] := x;
        assert buffer[..i + 1] == buffer[..i] + [x];
        assert multiset(buffer[..i + 1]) == multiset(buffer[..i]) + multiset{x};
        rest := rest - multiset{x};
        i := i + 1;
      }
      assert rest == multiset{};
      assert buffer[..] == buffer[..i];
      assert multiset(buffer[..]) == data;
      report := SortAndReport(buffer);
    }
  }

  /** The Rust Thrift sink: `latency_vec` is pushed to, and sorted and cleared at the threshold. */
  class ThriftRsSink {
    var latencies: seq<int>

    /** Between calls the vector never holds a full batch: it is cleared as soon as it fills. */
    ghost predicate Valid()
      reads this
    {
      |latencies| < NumMessages
    }

    constructor ()
      ensures Valid() && latencies == []
    {
      latencies := [];
    }

    /** `SinkHandler::handle_bench`: pushes one latency measured from the sink's epoch; when the
        vector reaches the threshold it sorts it, reports, and clears it.  Always answers `Ok(0)`. */
    method HandleBench(elapsed: int, arg: Timing) returns (ret: int, report: Option<Report>)
      requires Valid()
      modifies this
      ensures Valid()
      ensures ret == 0
      ensures var pushed := old(latencies) + [HopLatency(elapsed, arg.nanosec, HopCount)];
        if |pushed| == NumMessages
        then latencies == [] && report == Some(PercentileReport(SortedOf(multiset(pushed))))
        else latencies == pushed && report == None
    {
      var latency := HopLatency(elapsed, arg.nanosec, HopCount);
      latencies := latencies + [latency];
      report := None;
      if |latencies| == NumMessages {
        var vec := latencies;
        var a := new int[|vec|](k requires 0 <= k < |vec| => vec[k]);
        assert a[..] == vec;
        var r := SortAndReport(a);
        latencies := a[..];
        report := Some(r);
        latencies := [];
      }
      ret := 0;
    }
  }

  /** The per-hop latencies the zenoh sink computes for `msgs` received at clock readings `clock`. */
  function Latencies(hops: int, msgs: seq<Timing>, clock: seq<int>): (ls: seq<int>)
    requires hops != 0 && |clock| == |msgs|
    ensures |ls| == |msgs|
  {
    seq(|msgs|, k requires 0 <= k < |msgs| => HopLatency(clock[k], msgs[k].nanosec, hops))
  }

  /** `index + 1` on an `i32`.  With overflow checks on (a debug build) `i32::MAX + 1` panics
      (`None`); without them (a release build) the sum wraps around modulo 2^32. */
  function AddOneI32(index: int, overflowChecks: bool): (r: Option<int>)
    requires IsInt32(index)
    ensures r.None? <==> index == INT32_MAX && overflowChecks
    ensures r.Some? ==> IsInt32(r.value) && (r.value - (index + 1)) % 0x1_0000_0000 == 0
    ensures index < INT32_MAX ==> r == Some(index + 1)
  {
    if index < INT32_MAX then Some(index + 1)
    else if overflowChecks then None
    else Some(INT32_MIN)
  }

  /** `sink_loop` of the zenoh binding: the divisor is the sink's own `index + 1`, computed in
      `i32` (see `AddOneI32`).  It pushes one latency per message; at the threshold it sorts,
      reports, clears and returns.  A failed receive (the end of `inbox`) ends the loop without a
      report.  With `index == -1` the first message divides by zero, and with `index == i32::MAX`
      and overflow checks on the first message overflows; either panics. */
  method ZenohSinkLoop(index: int, overflowChecks: bool, inbox: seq<Timing>, clock: seq<int>)
    returns (report: Option<Report>, panicked: bool)
    requires IsInt32(index) && |clock| == |inbox|
    ensures var d := AddOneI32(index, overflowChecks);
      panicked <==> |inbox| > 0 && (d.None? || d.value == 0)
    ensures panicked || |inbox| < NumMessages ==> report == None
    ensures var d := AddOneI32(index, overflowChecks);
      !panicked && |inbox| >= NumMessages ==>
      d.Some? && d.value != 0 &&
      report == Some(PercentileReport(SortedOf(multiset(
        Latencies(d.value, inbox[..NumMessages], clock[..NumMessages])))))
  {
    var divisor := AddOneI32(index, overflowChecks);
    var latencyVec: seq<int> := [];
    var i := 0;
    while i < |inbox|
      invariant 0 <= i <= |inbox| && i < NumMessages
      invariant i > 0 ==> divisor.Some? && divisor.value != 0
      invariant divisor.Some? && divisor.value != 0 ==>
        latencyVec == Latencies(divisor.value, inbox[..i], clock[..i])
    {
      var t := inbox[i];
      if divisor.None? || divisor.value == 0 {
        return None, true;
      }
      var hops := divisor.value;
      var latency := HopLatency(clock[i], t.nanosec, hops);
      latencyVec := latencyVec + [latency];
      i := i + 1;
      assert latencyVec == Latencies(hops, inbox[..i], clock[..i]);
      if |latencyVec| == NumMessages {
        var vec := latencyVec;
        var a := new int[|vec|](k requires 0 <= k < |vec| => vec[k]);
        assert a[..] == vec;
        var r := SortAndReport(a);
        latencyVec := a[..];
        report := Some(r);
        latencyVec := [];
        return report, false;
      }
    }
    report, panicked := None, false;
  }
}
