/**
 * The drivers: the code that builds each `timing` message and sends it into
 * relay 0.  The clock reading taken for message `i` is `clock[i]`; what the
 * transport answers (a gRPC status, a Rust `Result`) is a parameter, and what
 * the driver sends is returned in order.  The pauses between sends are not
 * modelled.
 */
module Drivers {
  import opened Numeric
  import opened Config
  import opened Messages
  import opened Relays

  /** The driver in `main` of the C++ Thrift binding: message `i` has id 0, source "client" and
      the clock reading; a returned ack is discarded, but a call that throws (`results[i]` is
      `Err`) is not caught, so the exception ends the program (`terminated`) after that message
      was sent. */
  method ThriftBenchClient(clock: seq<int>, results: seq<Result<int>>) returns (sent: seq<Timing>, terminated: bool)
    requires |clock| == NumMessages && |results| == NumMessages
    ensures 0 < |sent| <= NumMessages
    ensures forall i :: 0 <= i < |sent| ==> sent[i] == Timing(0, clock[i], "client")
    ensures forall i :: 0 <= i < |sent| - 1 ==> results[i].Ok?
    ensures terminated <==> results[|sent| - 1].Err?
    ensures !terminated ==> |sent| == NumMessages
  {
    sent := [];
    var i := 0;
    while i < NumMessages
      invariant 0 <= i <= NumMessages && |sent| == i
      invariant forall k :: 0 <= k < i ==> sent[k] == Timing(0, clock[k], "client")
      invariant forall k :: 0 <= k < i ==> results[k].Ok?
    {
      var msg := Timing(0, clock[i], "client");
      sent := sent + [msg];
      if results[i].Err? {
        return sent, true;
      }
      i := i + 1;
    }
    terminated := false;
  }

  /** The driver in `main` of the gRPC binding: every request has id 10 and source "client".  A
      non-OK status is logged (the index of the request is returned in `logged`) and the loop
      goes on, so all 1000 requests are sent whatever the statuses. */
  method GrpcClient(clock: seq<int>, statuses: seq<Status>) returns (sent: seq<Timing>, logged: seq<nat>)
    requires |clock| == NumMessages && |statuses| == NumMessages
    ensures |sent| == NumMessages
    ensures forall i :: 0 <= i < NumMessages ==> sent[i] == Timing(10, clock[i], "client")
    ensures forall i :: 0 <= i < NumMessages ==> (i in logged <==> statuses[i] != StatusOk)
    ensures forall p, q :: 0 <= p < q < |logged| ==> logged[p] < logged[q] < NumMessages
  {
    sent, logged := [], [];
    for i := 0 to NumMessages
      invariant |sent| == i
      invariant forall k :: 0 <= k < i ==> sent[k] == Timing(10, clock[k], "client")
      invariant forall k :: 0 <= k < NumMessages ==> (k in logged <==> k < i && statuses[k] != StatusOk)
      invariant forall p :: 0 <= p < |logged| ==> logged[p] < i
      invariant forall p, q :: 0 <= p < q < |logged| ==> logged[p] < logged[q]
    {
      var request := Timing(10, clock[i], "client");
      sent := sent + [request];
      var status := statuses[i];
      if status != StatusOk {
        logged := logged + [i];
      }
    }
  }

  /** `client_thread` of the ROS 2 service binding: request `i` has id `i` and source "client".
      The requests are sent asynchronously and their responses ignored. */
  method RosServiceClient(clock: seq<int>) returns (sent: seq<Timing>)
    requires |clock| == NumMessages
    ensures |sent| == NumMessages
    ensures forall i :: 0 <= i < NumMessages ==> sent[i] == Timing(i, clock[i], "client")
  {
    sent := [];
    for i := 0 to NumMessages
      invariant |sent| == i
      invariant forall k :: 0 <= k < i ==> sent[k] == Timing(k, clock[k], "client")
    {
      var request := Timing(i, clock[i], "client");
      sent := sent + [request];
    }
  }

  /** The ROS 2 publish/subscribe source node, with its message counter `msgid_`. */
  class PnodeSource {
    var msgid: int

    /** The counter starts at 0. */
    constructor ()
      ensures msgid == 0
    {
      msgid := 0;
    }

    /** `publish`: pre-increments the counter and publishes a message carrying the new value,
        the clock reading and the source "pnode publisher". */
    method Publish(now: int) returns (t: Timing)
      modifies this
      ensures msgid == old(msgid) + 1
      ensures t == Timing(msgid, now, "pnode publisher")
    {
      msgid := msgid + 1;
      t := Timing(msgid, now, "pnode publisher");
    }

    /** The wall timer calls `publish` once per tick: the published ids continue the counter
        one by one, so from a fresh source they are 1, 2, 3, ... */
    method OnTimerTicks(clock: seq<int>) returns (published: seq<Timing>)
      modifies this
      ensures msgid == old(msgid) + |clock|
      ensures |published| == |clock|
      ensures forall i :: 0 <= i < |clock| ==> published[i] == Timing(old(msgid) + i + 1, clock[i], "pnode publisher")
    {
      published := [];
      for i := 0 to |clock|
        invariant msgid == old(msgid) + i
        invariant |published| == i
        invariant forall k :: 0 <= k < i ==> published[k] == Timing(old(msgid) + k + 1, clock[k], "pnode publisher")
      {
        var t := Publish(clock[i]);
        published := published + [t];
      }
    }
  }

  /** The client loop in `main` of the Rust Thrift binding: message `i` has id `i` and source
      "client"; the reply of each call is unwrapped, so the first failed call panics and ends the
      loop (`panicked`), after that message was sent. */
  method ThriftRsClient(clock: seq<int>, results: seq<Result<int>>) returns (sent: seq<Timing>, panicked: bool)
    requires |clock| == NumMessages && |results| == NumMessages
    ensures 0 < |sent| <= NumMessages
    ensures forall i :: 0 <= i < |sent| ==> sent[i] == Timing(i, clock[i], "client")
    ensures forall i :: 0 <= i < |sent| - 1 ==> results[i].Ok?
    ensures panicked <==> results[|sent| - 1].Err?
    ensures !panicked ==> |sent| == NumMessages
  {
    sent := [];
    var i := 0;
    while i < NumMessages
      invariant 0 <= i <= NumMessages && |sent| == i
      invariant forall k :: 0 <= k < i ==> sent[k] == Timing(k, clock[k], "client")
      invariant forall k :: 0 <= k < i ==> results[k].Ok?
    {
      var t := Timing(i, clock[i], "client");
      sent := sent + [t];
      if results[i].Err? {
        return sent, true;
      }
      i := i + 1;
    }
    panicked := false;
  }

  /** The payload every zenoh client message carries as its source. */
  function ZenohPayload(): (p: string)
    ensures |p| == PayloadSize
    ensures forall i :: 0 <= i < |p| ==> p[i] == "publisher "[i % 10]
  {
    Repeat("publisher ", PayloadSize / 10)
  }

  /** `client_loop` of the zenoh binding: message `i` has id `i` and the large payload as source.
      The `put` of message `i` fails when `putFails[i]`; its result is unwrapped, so a failed put
      panics and ends the loop, and that message is not published. */
  method ZenohClient(clock: seq<int>, putFails: seq<bool>) returns (sent: seq<Timing>, panicked: bool)
    requires |clock| == NumMessages && |putFails| == NumMessages
    ensures |sent| <= NumMessages
    ensures forall i :: 0 <= i < |sent| ==> sent[i] == Timing(i, clock[i], ZenohPayload())
    ensures forall i :: 0 <= i < |sent| ==> !putFails[i]
    ensures panicked <==> exists i :: 0 <= i < NumMessages && putFails[i]
    ensures panicked ==> |sent| < NumMessages && putFails[|sent|]
    ensures !panicked ==> |sent| == NumMessages
  {
    var payload := ZenohPayload();
    sent := [];
    var i := 0;
    while i < NumMessages
      invariant 0 <= i <= NumMessages && |sent| == i
      invariant forall k :: 0 <= k < i ==> sent[k] == Timing(k, clock[k], payload)
      invariant forall k :: 0 <= k < i ==> !putFails[k]
    {
      var t := Timing(i, clock[i], payload);
      if putFails[i] {
        return sent, true;
      }
      sent := sent + [t];
      i := i + 1;
    }
    panicked := false;
  }
}
