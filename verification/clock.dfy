/** UTC instants as the runtime counts them: whole ticks of 100 nanoseconds.
    The wall clock is read by the caller: an operation receives the instants it
    reads as parameters. */
module Clock {

  /** `TimeSpan.TicksPerMinute`. */
  const TicksPerMinute: int := 600_000_000

  /** `instant.AddMinutes(m)`. */
  function AddMinutes(instant: int, m: int): int {
    instant + m * TicksPerMinute
  }

  /** `Math.Ceiling(span.TotalMinutes)`: the least whole number of minutes that
      covers the span, which is 0 or less exactly when the span is not positive. */
  function CeilMinutes(span: int): (m: int)
    ensures (m - 1) * TicksPerMinute < span <= m * TicksPerMinute
    ensures m >= 1 <==> span > 0
  {
    (span + TicksPerMinute - 1) / TicksPerMinute
  }

  /** `span.TotalMinutes >= minutes`, compared exactly in ticks. */
  predicate AtLeastMinutes(span: int, minutes: int) {
    span >= minutes * TicksPerMinute
  }
}
