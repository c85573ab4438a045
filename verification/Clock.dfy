/** Instants are nanoseconds since the Unix epoch; the tables keep whole milliseconds. */
module Clock {

  const NANOS_PER_MILLI: int := 1_000_000
  const NANOS_PER_SECOND: int := 1_000_000_000

  /** The instants the time crate represents: years -9999 to 9999. Leaving them is a panic. */
  predicate Representable(ns: int) {
    -377705116800 * NANOS_PER_SECOND <= ns < 253402300800 * NANOS_PER_SECOND
  }

  /** `dt_to_millis`: Rust's division rounds toward zero. */
  function Millis(ns: int): int {
    if ns >= 0 then ns / NANOS_PER_MILLI else -(-ns / NANOS_PER_MILLI)
  }

  /** `millis_to_dt`, for the milliseconds of an instant the time crate can represent. */
  function Instant(ms: int): int {
    ms * NANOS_PER_MILLI
  }

  lemma MillisMonotone(a: int, b: int)
    requires a <= b
    ensures Millis(a) <= Millis(b)
  {
  }

  /** Later than a stored instant, in milliseconds and in nanoseconds: the same from the epoch on. */
  lemma MillisAfter(ns: int, ms: int)
    requires ns >= 0
    ensures ms > Millis(ns) <==> Instant(ms) > ns
  {
  }

  /** Rounding toward zero never moves an instant at or after the epoch forward, nor one before it back. */
  lemma MillisTruncates(ns: int)
    ensures ns >= 0 ==> Millis(ns) * 1_000_000 <= ns < (Millis(ns) + 1) * 1_000_000
    ensures ns <= 0 ==> (Millis(ns) - 1) * 1_000_000 < ns <= Millis(ns) * 1_000_000
  {
  }
}
