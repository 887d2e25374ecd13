# Relay-chain latency benchmark: a Dafny model

The benchmark measures the per-hop latency of six messaging bindings. These are C++ Thrift, C++ gRPC, C++ ROS 2 services, C++ ROS 2 publish/subscribe, Rust Thrift and Rust zenoh. Each binding uses the same layout:

- a **driver** stamps a `timing` message (`msgid`, `nanosec`, `source`) with a clock reading and sends it to relay 0;
- each of the 20 **relays** hands the message on to its successor;
- the **sink** divides the elapsed time by the hop count, truncating toward zero, and stores the result as one sample. The divisor is 21 in five bindings. The zenoh sink divides by its own command-line `index + 1`: the number of hops in front of a sink that subscribes to topic `bench/hop<index>`.

When 1000 samples are in, the sink sorts them and prints the samples at indices `n/2` (P50) and `n*9/10` (P90), each divided by 1000. The Thrift-generated C++ struct `timing` and its field-by-field `read`/`write` are modelled too.

Modules:

- `Numeric`: 64-bit range; C++/Rust truncating division; decimal rendering (`std::to_string`, `format!`); string repetition.
- `Config`: the shared constants.
- `Messages`: the `timing` message.
- `ThriftTiming`: the generated struct as a class. Its `read` and `write` work over a token-level protocol.
- `Relays`: what each binding's relay forwards and answers, and how messages travel down the chain.
- `Topology`: ports, service names and topic names of each chain, plus the Rust Thrift start order.
- `Stats`: the in-place sort, the reference `SortedOf` and the percentile report.
- `Sinks`: one class shared by the four C++ sinks; the Rust Thrift sink class; the zenoh sink loop.
- `Drivers`: the six client loops and the ROS 2 publisher node.
- `Pipeline`: what the sink measures and acknowledges for a message the driver sent.

Clock readings, transport answers (gRPC status, Rust `Result`, C++ Thrift exceptions, failed zenoh `put`s) and received messages are parameters. Whether the Rust code is built with overflow checks is a parameter too. Process exit is a flag or an outcome value.

Three behaviours of the code are easy to misread, and the model follows the code in each:

- **Only some relays make a failed forward visible.** The C++ Thrift relay does not catch the exception of its downstream call, so the failure reaches the driver, which does not catch it either. The Rust Thrift relay unwraps the downstream result and panics. The zenoh relay unwraps a failed `put` and panics. The other relays lose a failed forward silently. The gRPC relay ignores the downstream status and answers OK. The ROS 2 service relay sends its request asynchronously with an empty callback. The ROS 2 publish/subscribe relay publishes without checking.
- **The ROS 2 publish/subscribe relay republishes the received message.** It builds a relabelled copy but does not publish it.
- **The C++ Thrift driver sends id 0 every time, and the gRPC driver sends id 10 every time.**

## Model

| member | source | states |
|---|---|---|
| Numeric.TruncDiv | thrift-bench/bench.cpp:66 | The quotient's magnitude is the dividend's magnitude divided by the divisor's, rounded down. A non-zero quotient has the sign the operands' signs give. This is C++ and Rust signed division, not Euclidean division. |
| Numeric.TruncDivByPositive | thrift-rs/src/main.rs:135 | For a positive divisor: a non-negative dividend gives the Euclidean quotient, a negative dividend gives a result <= 0, and a 64-bit dividend gives a 64-bit quotient. |
| Numeric.TruncDivMonotone | thrift-bench/bench.cpp:84 | Dividing by 1000 preserves order, so sorted samples stay ordered in microseconds. |
| Numeric.NatToString | thrift-bench/bench.cpp:49 | `std::to_string` of a natural: non-empty, all digits, a single digit exactly below 10. |
| Numeric.NoLeadingZero | thrift-bench/bench.cpp:49 | The rendering has no leading zero: it starts with '0' only for 0. |
| Numeric.DecimalRoundTrip | thrift-bench/bench.cpp:49 | Reading back a rendered number gives the number. |
| Numeric.LabelInjective | grpc-bench/gbench/bench.cpp:48 | A fixed prefix plus the rendered number determines the number. |
| Numeric.Repeat | zenohbench/src/common.rs:12 | `str::repeat`: the length is the product, and character `i` is `s[i mod |s|]`. |
| ThriftTiming.Encode | thrift-bench/gen-cpp/timing_types.cpp:96-116 | `write` emits 7 tokens and ends with the stop marker. |
| ThriftTiming.TimingStruct.Write | thrift-bench/gen-cpp/timing_types.cpp:96-116 | Emits field 1 msgid:I64, field 2 nanosec:I64, field 3 source:STRING, in that order, then the stop marker. |
| ThriftTiming.TimingStruct.Read | thrift-bench/gen-cpp/timing_types.cpp:39-94 | Outcome and new members equal the reference `ReadFields`: dispatch on id and type until the first stop marker. A truncated or corrupt stream fails, and members already assigned keep their new values. |
| ThriftTiming.ReadAfterWrite | thrift-bench/gen-cpp/timing_types.cpp:60-83 | Reading what `write` produced restores all three fields and sets all three isset flags, whatever the struct held before and whatever follows. |
| ThriftTiming.ReadIgnoresTrailing | thrift-bench/gen-cpp/timing_types.cpp:52-57 | `read` stops at the first stop marker. Tokens after it change neither the result nor the members. |
| ThriftTiming.SkippedFieldChangesNothing | thrift-bench/gen-cpp/timing_types.cpp:84-86 | An unknown id, or a known id with the wrong type, is skipped and changes no member and no flag. |
| ThriftTiming.RepeatedFieldOverwrites | thrift-bench/gen-cpp/timing_types.cpp:60-83 | When any of the three fields appears twice in a row with values of its type, the later value wins and both count as consumed tokens. |
| ThriftTiming.OverwrittenStatesAgree | thrift-bench/gen-cpp/timing_types.cpp:52-86 | Two states that differ only in one field's value and flag read identically once that field occurs again after any well-formed fields. |
| ThriftTiming.LaterOccurrenceWins | thrift-bench/gen-cpp/timing_types.cpp:60-83 | A field that occurs again later, after any well-formed fields, ends with its last value: the earlier occurrence only adds 2 to the token count. |
| ThriftTiming.ReadOnlySetsFlags | thrift-bench/gen-cpp/timing_types.cpp:60-83 | `read` never clears an isset flag. A member whose flag stays clear keeps its value. |
| ThriftTiming.Swap | thrift-bench/gen-cpp/timing_types.cpp:118-124 | Exchanges all four members. |
| ThriftTiming.TimingStruct.Copy | thrift-bench/gen-cpp/timing_types.cpp:126-131 | The copy constructor copies all four members. |
| ThriftTiming.TimingStruct.Assign | thrift-bench/gen-cpp/timing_types.cpp:132-138 | Assignment copies all four members, self-assignment included. |
| Stats.P50Index | thrift-bench/bench.cpp:81 | `n/2` is a valid index. |
| Stats.P90Index | thrift-bench/bench.cpp:82 | `n*9/10` is a valid index and is not below `n/2`. |
| Stats.P90IndexBounds | thrift-bench/bench.cpp:81-82 | For every n >= 1: `n/2 <= n*9/10 < n`. |
| Stats.PercentileReport | thrift-bench/bench.cpp:81-84 | The samples at `n/2` and `n*9/10`, divided by 1000. On sorted samples the reported P50 is at most the reported P90, and both lie between the smallest and the largest sample, divided by 1000. |
| Stats.ReportOfSamples | pnode/src/pub.cpp:95-100 | For any non-empty sample multiset, P50 <= P90, and each reported value is an actual sample divided by 1000. |
| Stats.SortedOf | thrift-bench/bench.cpp:79-80 | The reference sort: sorted, and holding exactly the given elements. |
| Stats.SortedUnique | thrift-bench/bench.cpp:80 | A multiset has only one sorted arrangement. |
| Stats.SortedIsSortedOf | thrift-bench/bench.cpp:80 | Any sorted arrangement equals `SortedOf`. |
| Stats.SortInPlace | thrift-bench/bench.cpp:80 | `std::sort` or `slice::sort` on the vector: the result is sorted and is a permutation of the input. |
| Stats.SortAndReport | thrift-bench/bench.cpp:80-84 | After sorting, the array equals `SortedOf` of its original contents. The report is the percentile report of it. |
| Relays.ThriftBenchRelay | thrift-bench/bench.cpp:44-50 | The forwarded copy keeps msgid and nanosec and is labelled "relay <id>". The handler raises exactly when its downstream call raised; otherwise it returns its successor's answer unchanged. |
| Relays.GrpcRelayBench | grpc-bench/gbench/bench.cpp:41-53 | ack = request msgid. The copy keeps msgid and nanosec and is labelled "relay <port>", the port and not the index. The status is OK whatever the downstream status. |
| Relays.RosServiceRelay | psrv/src/srv.cpp:60-70 | ack = request msgid. The copy keeps msgid and nanosec and is labelled "srv relay <i>". |
| Relays.RosPubSubPublished | pnode/src/pub.cpp:59-64 | The relay publishes the received message itself, unchanged. |
| Relays.ThriftRsForward | thrift-rs/src/main.rs:95-99 | The copy keeps every field except source, which becomes "relay hop <index>". |
| Relays.ThriftRsRelayResult | thrift-rs/src/main.rs:100-102 | Returns `Ok(0)` exactly when the downstream call succeeded, whatever it acknowledged. A failure panics rather than dropping the message. |
| Relays.Forward | thrift-bench/bench.cpp:45-49 | In every binding, a relay keeps id and origin time. Relabelling bindings set their own label; publish/subscribe bindings forward the message unchanged. The gRPC (grpc-bench/gbench/bench.cpp lines 45-48), ROS 2 service (psrv/src/srv.cpp lines 64-67), ROS 2 publish/subscribe (pnode/src/pub.cpp lines 59-64), Rust Thrift (thrift-rs/src/main.rs lines 95-98) and zenoh (zenohbench/src/common.rs lines 50-57) relays are covered too. |
| Relays.Arrival | grpc-bench/gbench/bench.cpp:46-47 | Over any number of hops, id and origin time survive. After hop k the label names relay k-1; publish/subscribe chains deliver the driver's message unchanged. |
| Relays.LabelsIdentifyRelay | psrv/src/srv.cpp:65 | Distinct relays write distinct labels. |
| Relays.ZenohRelayLoop | zenohbench/src/common.rs:38-64 | Re-publishes each received message unchanged, in order. It returns after exactly 1000 forwards, or earlier when a receive fails. It panics exactly when a put among the first 1000 received messages fails, and that message is not published. |
| Topology.NextHopIsUnique | thrift-bench/bench.cpp:43 | In a correctly wired chain, relay i's target is listened on by hop i+1 only, and the driver's target by hop 0 only. |
| Topology.PortChain | thrift-bench/bench.cpp:120-124 | Relay i listens on 5000+i and sends to 5000+i+1. The sink listens on 5020 and the driver targets 5000. All ports are distinct, so the chain is correctly wired. The gRPC relays (listening on `port_`, targeting `port_ + 1`) and the Rust Thrift relays use the same layout. |
| Topology.ServiceClients | psrv/src/srv.cpp:44-49 | Client i, for i in 0..=20, targets the service "srv_relay_i". |
| Topology.ServiceChain | psrv/src/srv.cpp:54-81 | Relay i serves "srv_relay_i" and forwards through client i+1. The sink serves "srv_relay_20" and the driver uses client 0. The chain is correctly wired, with all names distinct. |
| Topology.TopicChain | pnode/src/pub.cpp:53-56 | Relay i subscribes "msg_i" and publishes "msg_(i+1)". The source publishes "msg_0" and the sink subscribes "msg_20". All topics are distinct. |
| Topology.NamesDistinct | psrv/src/srv.cpp:47 | Prefixed decimal names of distinct indices differ. |
| Topology.NamedChainWired | pnode/src/pub.cpp:53-56 | When hop k is named prefix+k, relays send to the next name and the driver sends to the first name, the chain is correctly wired. |
| Topology.ThriftRsStartOrder | thrift-rs/src/main.rs:29-34 | The sink starts first, then relays 19 down to 0. |
| Topology.SuccessorStartedFirst | thrift-rs/src/main.rs:71 | In that order position k holds NumRelays-k, so every relay's successor index+1 has already started. |
| Sinks.HopLatency | thrift-bench/bench.cpp:66 | `(receipt - origin) / hops` with truncation toward zero. For 21 hops: a non-negative elapsed time gives the floor quotient, a negative one gives at most 0, and a 64-bit input gives a 64-bit result. |
| Sinks.CppSink.constructor | thrift-bench/bench.cpp:88 | `data_` starts as an empty multiset and the sink has not exited, so the sink invariant holds. |
| Sinks.CppSink.Bench | thrift-bench/bench.cpp:62-75 | Adds exactly one sample and removes none. Below 1000 samples it acknowledges with the msgid. The call that reaches 1000 reports P50/P90 of the sorted samples and exits. The gRPC sink (grpc-bench/gbench/bench.cpp lines 64-80), the ROS 2 service sink lambda (psrv/src/srv.cpp lines 82-101) and the publish/subscribe sink (pnode/src/pub.cpp lines 81-93) behave the same way; the last sends no acknowledgement. |
| Sinks.CppSink.PrintStats | thrift-bench/bench.cpp:78-86 | Copies the multiset into a vector in any order and sorts it. The report is P50/P90 of `SortedOf(data)` divided by 1000, whatever the copy order. The same code is in the gRPC and publish/subscribe sinks and inline in the ROS 2 service sink. |
| Sinks.ThriftRsSink.constructor | thrift-rs/src/main.rs:110 | `latency_vec` starts empty, which establishes the below-1000 invariant `HandleBench` relies on. |
| Sinks.ThriftRsSink.HandleBench | thrift-rs/src/main.rs:133-149 | Pushes one latency. At exactly 1000 it reports on the sorted vector and clears it; otherwise it keeps the pushed vector. The vector stays below 1000 between calls, and the handler always returns 0, not the msgid. |
| Sinks.AddOneI32 | zenohbench/src/common.rs:84 | `index + 1` on an `i32`: the sum for every index below `i32::MAX`; at `i32::MAX` a panic with overflow checks on, and otherwise the value congruent to `index + 1` modulo 2^32 in `i32` range. |
| Sinks.ZenohSinkLoop | zenohbench/src/common.rs:68-97 | The divisor is the sink's own `index + 1` in `i32`. It reports the sorted latencies of the first 1000 messages and returns. It returns without a report when receiving ends early. It panics at the first message exactly when the divisor is 0 or the addition overflows with overflow checks on. |
| Drivers.ThriftBenchClient | thrift-bench/bench.cpp:136-145 | Each message has id 0, the clock reading and source "client". Every call before the last returned. The program terminates exactly when the last call raised, and otherwise sends all 1000. |
| Drivers.GrpcClient | grpc-bench/gbench/bench.cpp:112-128 | 1000 requests with id 10 and source "client". A non-OK status is printed and the loop continues; the model returns in `logged` the indices of exactly those requests whose status is not OK. |
| Drivers.RosServiceClient | psrv/src/srv.cpp:20-37 | Request i has id i and source "client", for i in 0..999. |
| Drivers.PnodeSource.constructor | pnode/src/pub.cpp:27 | The counter starts at 0. |
| Drivers.PnodeSource.Publish | pnode/src/pub.cpp:31-40 | Pre-increments the counter and publishes its new value, the clock reading and "pnode publisher". |
| Drivers.PnodeSource.OnTimerTicks | pnode/src/pub.cpp:29-40 | Over successive timer ticks, the published ids continue the counter one by one: 1, 2, 3, … from a fresh source. |
| Drivers.ThriftRsClient | thrift-rs/src/main.rs:38-48 | Message i has id i and source "client". Every call before the last succeeded. It panics exactly when the last call failed, and otherwise sends all 1000. |
| Drivers.ZenohPayload | zenohbench/src/common.rs:12 | "publisher " repeated `PAYLOAD_SIZE/10` times: exactly `PAYLOAD_SIZE` characters. |
| Drivers.ZenohClient | zenohbench/src/common.rs:11-34 | Message i has id i and the payload as source. Every published message's put succeeded. The loop panics exactly when one of the 1000 puts fails, at the first failed one, which is not published; otherwise all 1000 are published. |
| Pipeline.ArrivalSample | thrift-bench/bench.cpp:63-66 | For any binding, any number of hops k and any positive divisor, the sample a sink records for the message arriving at hop k equals the sample for the driver's own clock reading; when the receipt is not before the origin, it is the elapsed time divided by the hop count. |
| Pipeline.SinkMeasuresFromDriver | thrift-bench/bench.cpp:63-66 | For the sink behind all 20 relays, which divides by 21 in the C++ bindings and in Rust Thrift (thrift-rs/src/main.rs line 135), the sink receives the driver's id and clock reading, still within 64 bits. So its sample is the driver-to-sink time divided by 21. |
| Pipeline.ZenohSinkMeasuresFromDriver | zenohbench/src/common.rs:80-84 | The zenoh sink with index k receives the driver's message unchanged after k relays. So its sample is the driver-to-sink time divided by k+1, the `i32` sum for every k below `i32::MAX`. |
| Pipeline.ThriftBenchAnswer | thrift-bench/bench.cpp:50 | In the C++ Thrift chain, the driver's call raises exactly when the outgoing call of some relay at or after the called one fails. The sink returns the msgid (line 74), and each relay passes its successor's answer or exception back. |
| Pipeline.ThriftBenchAckIsDriverId | thrift-bench/bench.cpp:50 | In the C++ Thrift chain, an answer that travels back through all relays to the driver is the driver's own msgid. |

## Left out

- Transport and process plumbing is not modelled: sockets, Thrift servers and clients, gRPC channels, rclcpp nodes, QoS, executors, zenoh sessions, threads and sleeps. A forward is an output value, and downstream answers are parameters.
- Clocks (`steady_clock`, `Instant`, `SystemTime`) are parameters. `exit(0)` and Rust panics are flags or outcome values. Printing to stdout is left out; the printed numbers are the `Report` values.
- Concurrency is left out: the Rust Thrift sink's mutex on `latency_vec` and the Rust Thrift relay's mutex on its client (the C++ sinks and the zenoh sink use none), interleaved handler calls, and asynchronous ROS 2 requests whose responses are ignored.
- The byte encodings of the Thrift binary and compact protocols are left out. `read` and `write` work on one token per protocol call. `skip` consumes one value token of any other type, and nested skipped structures are not modelled. `readStructBegin`/`readStructEnd` consume nothing.
- ThriftTiming.TimingStruct.Read: `xfer` counts tokens, not bytes. The `int16_t` field id is an unbounded `int`. The recursion tracker is not modelled.
- The `__set_*` setters and `printTo` of the generated struct are not modelled: they are single assignments and output.
- The generated default constructor is declared in `timing_types.h`, which is not part of this model. `TimingStruct`'s constructor uses the usual zero and empty defaults.
- The zenoh relay decodes and re-encodes the message, and the zenoh sink decodes it, with the Rust Thrift library. The model keeps the decoded value, and a failed decode or encode (`unwrap` panic) is not modelled.
- Sinks.HopLatency: the 64-bit subtraction `receipt - origin` is computed without overflow. The contract states only that a result whose elapsed time fits in 64 bits also fits.
- Sinks.ZenohSinkLoop: a divisor of -1 on `i64::MIN` is not modelled.
- Drivers.PnodeSource.Publish: the `int64_t` counter is unbounded, so wrap-around after 2^63-1 messages is not modelled.
- The `i as i64` and `as_nanos() as i64` casts of the Rust drivers and sinks are not modelled. Their values fit for the counts and times involved.
- Pipeline.ThriftBenchAnswer: the sink's `exit(0)` on its 1000th sample, which leaves that call without any answer, is modelled in `Sinks.CppSink.Bench` and not in the chain's answer. An exception in a handler is carried back to the caller as a Thrift application exception; the model keeps only that the caller's call raises.
- Multi-process glue is left out: `zenohbench/src/main.rs`, `mpclient.rs`, `mprelay.rs` and `mpsink.rs` only parse arguments and open sessions.
- Topology.PortChain: it models the port arithmetic, not the socket bind. The gRPC and Rust Thrift chains share this layout.
