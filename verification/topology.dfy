/**
 * How each binding wires the chain: the address every endpoint listens on,
 * the address every relay forwards to, and where the driver sends.  A chain
 * is correctly wired when the addresses are pairwise distinct, relay `i`
 * forwards to the address of hop `i + 1` (the sink after the last relay) and
 * the driver sends to hop 0.
 */
module Topology {
  import opened Numeric
  import opened Config
  import Relays

  /** `listen[k]` is the address of hop `k` (relays `0 .. NumRelays-1`, then the sink),
      `forwardTo[i]` the address relay `i` sends to, `entry` the driver's target. */
  predicate ChainWired<A(==)>(listen: seq<A>, forwardTo: seq<A>, entry: A) {
    && |listen| == NumRelays + 1
    && |forwardTo| == NumRelays
    && entry == listen[0]
    && (forall i :: 0 <= i < NumRelays ==> forwardTo[i] == listen[i + 1])
    && (forall i, j :: 0 <= i < j < |listen| ==> listen[i] != listen[j])
  }

  /** The endpoint listening on address `a`, if any. */
  function HopAt<A(==)>(listen: seq<A>, a: A): (k: int)
    ensures -1 <= k < |listen|
    ensures k >= 0 ==> listen[k] == a
    ensures k == -1 ==> a !in listen
  {
    if |listen| == 0 then -1
    else if listen[|listen| - 1] == a then |listen| - 1
    else HopAt(listen[..|listen| - 1], a)
  }

  /** In a wired chain, whatever relay `i` sends is received by hop `i + 1` and by no other. */
  lemma {:induction false} NextHopIsUnique<A>(listen: seq<A>, forwardTo: seq<A>, entry: A, i: nat)
    requires ChainWired(listen, forwardTo, entry) && i < NumRelays
    ensures HopAt(listen, forwardTo[i]) == i + 1
    ensures HopAt(listen, entry) == 0
  {
    assert forwardTo[i] in listen by { assert listen[i + 1] == forwardTo[i]; }
    assert entry in listen by { assert listen[0] == entry; }
  }

  /** Prefixed decimal names of distinct indices differ. */
  lemma NamesDistinct(prefix: string, n: nat)
    ensures forall i, j :: 0 <= i < j < n ==> prefix + NatToString(i) != prefix + NatToString(j)
  {
    forall i, j | 0 <= i < j < n ensures prefix + NatToString(i) != prefix + NatToString(j) {
      if prefix + NatToString(i) == prefix + NatToString(j) {
        LabelInjective(prefix, i, j);
      }
    }
  }

  /** The port layout of the C++ Thrift and gRPC bindings and of the Rust Thrift binding:
      `main` creates relay `i` listening on `RelayPortStart + i` with a client for index `i + 1`
      (`port_ + 1` in gRPC), then the sink on index `NumRelays`; the driver connects to index 0. */
  method PortChain() returns (listen: seq<int>, forwardTo: seq<int>, entry: int)
    ensures ChainWired(listen, forwardTo, entry)
    ensures forall k :: 0 <= k < |listen| ==> listen[k] == Relays.ListenPort(k)
    ensures entry == 5000 && listen[NumRelays] == 5020
  {
    listen, forwardTo := [], [];
    for i := 0 to NumRelays
      invariant |listen| == i && |forwardTo| == i
      invariant forall k :: 0 <= k < i ==> listen[k] == Relays.ListenPort(k)
      invariant forall k :: 0 <= k < i ==> forwardTo[k] == Relays.ListenPort(k + 1)
    {
      var port := Relays.ListenPort(i);
      listen := listen + [port];
      forwardTo := forwardTo + [port + 1];
    }
    listen := listen + [Relays.ListenPort(NumRelays)];
    entry := Relays.ListenPort(0);
  }

  /** A chain whose hop `k` is named `prefix + k`, whose relays send to the next name and whose
      driver sends to the first name is correctly wired. */
  lemma NamedChainWired(prefix: string, listen: seq<string>, forwardTo: seq<string>, entry: string)
    requires |listen| == NumRelays + 1 && |forwardTo| == NumRelays
    requires forall k :: 0 <= k < |listen| ==> listen[k] == prefix + NatToString(k)
    requires forall i :: 0 <= i < NumRelays ==> forwardTo[i] == prefix + NatToString(i + 1)
    requires entry == prefix + NatToString(0)
    ensures ChainWired(listen, forwardTo, entry)
  {
    NamesDistinct(prefix, NumRelays + 1);
  }

  /** The ROS 2 service binding's clients: `main` creates one client per index `0 ..= NumRelays`,
      client `i` for the service "srv_relay_<i>". */
  method ServiceClients() returns (clients: seq<string>)
    ensures |clients| == NumRelays + 1
    ensures forall k :: 0 <= k < |clients| ==> clients[k] == "srv_relay_" + NatToString(k)
  {
    clients := [];
    for i := 0 to NumRelays + 1
      invariant |clients| == i
      invariant forall k :: 0 <= k < i ==> clients[k] == "srv_relay_" + NatToString(k)
    {
      clients := clients + ["srv_relay_" + NatToString(i)];
    }
  }

  /** The ROS 2 service binding: relay `i` serves "srv_relay_<i>" and sends through client `i + 1`,
      the sink serves "srv_relay_<NumRelays>", and the driver thread uses client 0. */
  method ServiceChain() returns (listen: seq<string>, forwardTo: seq<string>, entry: string)
    ensures ChainWired(listen, forwardTo, entry)
    ensures forall k :: 0 <= k < |listen| ==> listen[k] == "srv_relay_" + NatToString(k)
  {
    var clients := ServiceClients();
    listen, forwardTo := [], [];
    for i := 0 to NumRelays
      invariant |listen| == i && |forwardTo| == i
      invariant forall k :: 0 <= k < i ==> listen[k] == clients[k]
      invariant forall k :: 0 <= k < i ==> forwardTo[k] == clients[k + 1]
    {
      listen := listen + ["srv_relay_" + NatToString(i)];
      forwardTo := forwardTo + [clients[i + 1]];
    }
    listen := listen + ["srv_relay_" + NatToString(NumRelays)];
    entry := clients[0];
    NamedChainWired("srv_relay_", listen, forwardTo, entry);
  }

  /** The name of the topic hop `k` of the ROS 2 publish/subscribe chain subscribes to. */
  function Topic(k: nat): string {
    "msg_" + NatToString(k)
  }

  /** The ROS 2 publish/subscribe binding: the source publishes "msg_0", relay `i` subscribes to
      "msg_<i>" and publishes "msg_<i+1>", the sink subscribes to "msg_<NumRelays>". */
  method TopicChain() returns (listen: seq<string>, forwardTo: seq<string>, entry: string)
    ensures ChainWired(listen, forwardTo, entry)
    ensures forall k :: 0 <= k < |listen| ==> listen[k] == "msg_" + NatToString(k)
  {
    entry := Topic(0);
    listen, forwardTo := [], [];
    for i := 0 to NumRelays
      invariant |listen| == i && |forwardTo| == i
      invariant forall k :: 0 <= k < i ==> listen[k] == Topic(k)
      invariant forall k :: 0 <= k < i ==> forwardTo[k] == Topic(k + 1)
    {
      listen := listen + [Topic(i)];
      forwardTo := forwardTo + [Topic(i + 1)];
    }
    listen := listen + [Topic(NumRelays)];
    NamedChainWired("msg_", listen, forwardTo, entry);
  }

  /** The Rust Thrift `main` starts the sink first, then the relays from the last down to the first.
      Each relay connects to its successor as it starts, and every successor is already listening. */
  method ThriftRsStartOrder() returns (order: seq<nat>)
    ensures |order| == NumRelays + 1 && order[0] == NumRelays
    ensures forall k :: 0 < k < |order| ==> order[k] + 1 == order[k - 1]
  {
    order := [NumRelays];
    var i := NumRelays;
    while i > 0
      invariant 0 <= i <= NumRelays
      invariant |order| == NumRelays + 1 - i && order[0] == NumRelays
      invariant order[|order| - 1] == i
      invariant forall k :: 0 < k < |order| ==> order[k] + 1 == order[k - 1]
    {
      i := i - 1;
      order := order + [i];
    }
  }

  /** With that order, position `k` holds index `NumRelays - k`, so the successor `r + 1` of every
      relay `r` appears strictly before it. */
  lemma {:induction false} SuccessorStartedFirst(order: seq<nat>, k: nat)
    requires |order| == NumRelays + 1 && order[0] == NumRelays
    requires forall k :: 0 < k < |order| ==> order[k] + 1 == order[k - 1]
    requires k < |order|
    ensures order[k] == NumRelays - k
    ensures k > 0 ==> order[k - 1] == order[k] + 1
  {
    if k > 0 {
      SuccessorStartedFirst(order, k - 1);
    }
  }
}
