/**
 * The fixed parameters shared by the bindings of the benchmark.
 */
module Config {
  /** Number of relays between the driver and the sink (`kNumRelays`, `NUM_RELAYS`). */
  const NumRelays: nat := 20

  /** Relay `i` listens on port `RelayPortStart + i`; the sink on `RelayPortStart + NumRelays`. */
  const RelayPortStart: nat := 5000

  /** Samples the sinks collect before reporting (`1000`, `NUM_MESSAGES`); also the driver's message count. */
  const NumMessages: nat := 1000

  /** Length of the zenoh driver's payload string (`PAYLOAD_SIZE`). */
  const PayloadSize: nat := 10000000

  /** A message crosses every relay and then the sink: the hop count the latency is divided by. */
  const HopCount: nat := NumRelays + 1
}
