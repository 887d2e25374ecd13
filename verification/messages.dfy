/**
 * The `timing` message that every hop of the benchmark carries: an id that
 * correlates requests and acknowledgements, the origin time in nanoseconds
 * read once by the driver, and a provenance label naming the last hop that
 * touched it.
 */
module Messages {
  import opened Numeric

  datatype Timing = Timing(msgid: int, nanosec: int, source: string)

  /** The numeric fields are 64-bit signed integers in every binding. */
  predicate WellFormed(t: Timing) {
    IsInt64(t.msgid) && IsInt64(t.nanosec)
  }
}
