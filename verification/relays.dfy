/**
 * What a relay does with a message it receives, in each binding: the message
 * it sends to its successor and the value it answers its caller with.  The
 * transport call itself is not modelled: a forward is an output value, and
 * where the relay's answer depends on the downstream call, that call's
 * outcome is a parameter.
 */
module Relays {
  import opened Numeric
  import opened Config
  import opened Messages

  /** The six bindings of the benchmark. */
  datatype Binding =
    | ThriftBench   // C++ Thrift
    | Grpc          // C++ gRPC
    | RosService    // C++ ROS 2 services
    | RosPubSub     // C++ ROS 2 publish/subscribe
    | ThriftRs      // Rust Thrift
    | Zenoh         // Rust zenoh publish/subscribe

  // ---------------------------------------------------------------- C++ Thrift

  /** `RelayHandler::bench`: a new message with the id and origin time of `arg`, labelled "relay <id>". */
  function ThriftBenchForward(id: nat, arg: Timing): Timing {
    Timing(arg.msgid, arg.nanosec, "relay " + NatToString(id))
  }

  /** What a C++ Thrift `bench` call gives its caller: the returned ack, or an exception. */
  datatype Answer = Answered(ack: int) | Raised

  datatype ThriftBenchRelayResult = ThriftBenchRelayResult(forward: Timing, answer: Answer)

  /** The whole handler: it forwards the copy and returns, as its own answer, whatever its
      successor answered; when the downstream call throws (`downstream` is `Err`), the handler
      catches nothing, so the exception reaches its own caller. */
  function ThriftBenchRelay(id: nat, arg: Timing, downstream: Result<int>): (r: ThriftBenchRelayResult)
    ensures r.answer.Raised? <==> downstream.Err?
    ensures downstream.Ok? ==> r.answer == Answered(downstream.value)
    ensures r.forward.msgid == arg.msgid && r.forward.nanosec == arg.nanosec
    ensures r.forward.source == "relay " + NatToString(id)
  {
    var answer := match downstream
      case Ok(ack) => Answered(ack)
      case Err => Raised;
    ThriftBenchRelayResult(ThriftBenchForward(id, arg), answer)
  }

  // ---------------------------------------------------------------- C++ gRPC

  datatype Status = StatusOk | StatusError(message: string)

  datatype GrpcRelayResult = GrpcRelayResult(ack: int, forward: Timing, status: Status)

  /** The port a gRPC or Thrift endpoint with index `id` listens on. */
  function ListenPort(id: nat): nat {
    RelayPortStart + id
  }

  /** `Relay::bench`: the response's ack echoes the request id, the copy is labelled with the relay's
      own port, and the handler answers OK whatever status the downstream call returned. */
  function GrpcRelayBench(port: nat, request: Timing, downstream: Status): (r: GrpcRelayResult)
    ensures r.ack == request.msgid
    ensures r.forward.msgid == request.msgid && r.forward.nanosec == request.nanosec
    ensures r.forward.source == "relay " + NatToString(port)
    ensures r.status == StatusOk
  {
    GrpcRelayResult(request.msgid, Timing(request.msgid, request.nanosec, "relay " + NatToString(port)), StatusOk)
  }

  // ---------------------------------------------------------------- C++ ROS 2 services

  datatype ServiceRelayResult = ServiceRelayResult(ack: int, forward: Timing)

  /** The service lambda of relay `i`: ack is the request id, the copy is labelled "srv relay <i>". */
  function RosServiceRelay(i: nat, request: Timing): (r: ServiceRelayResult)
    ensures r.ack == request.msgid
    ensures r.forward.msgid == request.msgid && r.forward.nanosec == request.nanosec
    ensures r.forward.source == "srv relay " + NatToString(i)
  {
    ServiceRelayResult(request.msgid, Timing(request.msgid, request.nanosec, "srv relay " + NatToString(i)))
  }

  // ---------------------------------------------------------------- C++ ROS 2 publish/subscribe

  /** `PnodeRelay::listen` builds a relabelled copy ("pnode relay <index>") but publishes the
      received message, so the copy never leaves the relay. */
  function RosPubSubCopy(index: nat, msg: Timing): Timing {
    msg.(source := "pnode relay " + NatToString(index))
  }

  function RosPubSubPublished(index: nat, msg: Timing): (r: Timing)
    ensures r == msg
  {
    var copy := RosPubSubCopy(index, msg);
    msg
  }

  // ---------------------------------------------------------------- Rust Thrift

  datatype HandlerResult = Returned(value: int) | Panicked

  /** `RelayHandler::handle_bench`'s copy: every field of `arg` except `source`, "relay hop <index>". */
  function ThriftRsForward(index: nat, arg: Timing): (r: Timing)
    ensures r.msgid == arg.msgid && r.nanosec == arg.nanosec
    ensures r.source == "relay hop " + NatToString(index)
  {
    arg.(source := "relay hop " + NatToString(index))
  }

  /** The handler answers `Ok(0)`, whatever the successor acknowledged; a failed downstream call
      is unwrapped and panics. */
  function ThriftRsRelayResult(downstream: Result<int>): (r: HandlerResult)
    ensures r.Returned? <==> downstream.Ok?
    ensures r.Returned? ==> r.value == 0
  {
    match downstream
    case Ok(_) => Returned(0)
    case Err => Panicked
  }

  datatype Result<T> = Ok(value: T) | Err

  // ---------------------------------------------------------------- all bindings

  /** Whether a binding's relays relabel what they forward. */
  predicate Relabels(b: Binding) {
    b == ThriftBench || b == Grpc || b == RosService || b == ThriftRs
  }

  /** The `source` label relay `index` puts on the message it forwards, in a relabelling binding. */
  function RelayLabel(b: Binding, index: nat): string
    requires Relabels(b)
  {
    match b
    case ThriftBench => "relay " + NatToString(index)
    case Grpc => "relay " + NatToString(ListenPort(index))
    case RosService => "srv relay " + NatToString(index)
    case ThriftRs => "relay hop " + NatToString(index)
  }

  /** The message relay `index` sends downstream when it receives `msg`: every relay keeps the id
      and the origin time; the relabelling ones set their own label, the publish/subscribe ones
      forward the message unchanged. */
  function Forward(b: Binding, index: nat, msg: Timing): (r: Timing)
    ensures r.msgid == msg.msgid && r.nanosec == msg.nanosec
    ensures Relabels(b) ==> r.source == RelayLabel(b, index)
    ensures !Relabels(b) ==> r == msg
  {
    match b
    case ThriftBench => ThriftBenchForward(index, msg)
    case Grpc => GrpcRelayBench(ListenPort(index), msg, StatusOk).forward
    case RosService => RosServiceRelay(index, msg).forward
    case RosPubSub => RosPubSubPublished(index, msg)
    case ThriftRs => ThriftRsForward(index, msg)
    case Zenoh => msg
  }

  /** The message hop `k` receives when the driver sends `msg` into relay 0: relay `k` for
      `k < NumRelays`, the sink for `k == NumRelays`.  Id and origin time survive any number of
      hops, so the sink measures from the driver's clock reading; the label at hop `k > 0` names
      relay `k - 1`. */
  function Arrival(b: Binding, msg: Timing, k: nat): (r: Timing)
    ensures r.msgid == msg.msgid && r.nanosec == msg.nanosec
    ensures k > 0 && Relabels(b) ==> r.source == RelayLabel(b, k - 1)
    ensures !Relabels(b) ==> r == msg
    decreases k
  {
    if k == 0 then msg else Forward(b, k - 1, Arrival(b, msg, k - 1))
  }

  /** Distinct relays write distinct labels, so the label a message carries names its last relay. */
  lemma LabelsIdentifyRelay(b: Binding, i: nat, j: nat)
    requires Relabels(b) && RelayLabel(b, i) == RelayLabel(b, j)
    ensures i == j
  {
    match b
    case ThriftBench => LabelInjective("relay ", i, j);
    case Grpc => LabelInjective("relay ", ListenPort(i), ListenPort(j));
    case RosService => LabelInjective("srv relay ", i, j);
    case ThriftRs => LabelInjective("relay hop ", i, j);
  }

  /** `relay_loop` of the zenoh binding: re-publishes each received message unchanged, counting
      them, and returns after `NumMessages` of them, or as soon as a receive fails (the end of
      `inbox`).  The `put` of message `i` fails when `putFails[i]`; its result is unwrapped, so a
      failed put panics and ends the loop. */
  method ZenohRelayLoop(inbox: seq<Timing>, putFails: seq<bool>) returns (published: seq<Timing>, panicked: bool)
    requires |putFails| == |inbox|
    ensures |published| <= |inbox| && published == inbox[..|published|]
    ensures forall i :: 0 <= i < |published| ==> !putFails[i]
    ensures panicked <==> exists i :: 0 <= i < |inbox| && i < NumMessages && putFails[i]
    ensures panicked ==> |published| < |inbox| && putFails[|published|]
    ensures !panicked && |inbox| >= NumMessages ==> published == inbox[..NumMessages]
    ensures !panicked && |inbox| < NumMessages ==> published == inbox
  {
    published := [];
    var messageCount := 0;
    while messageCount < |inbox|
      invariant 0 <= messageCount <= |inbox| && messageCount < NumMessages
      invariant published == inbox[..messageCount]
      invariant forall i :: 0 <= i < messageCount ==> !putFails[i]
    {
      var t := inbox[messageCount];
      if putFails[messageCount] {
        return published, true;
      }
      published := published + [t];
      messageCount := messageCount + 1;
      if messageCount == NumMessages {
        return published, false;
      }
    }
    panicked := false;
  }
}
