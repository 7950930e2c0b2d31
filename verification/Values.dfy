/** Stored values and wall-clock instants (include/novacache/store/value.hpp, clock.hpp). */
module Values {
  import opened Common

  type Key = Bytes

  datatype Value =
    | Str(text: Bytes)
    | Int(number: int64)
    | List(items: seq<Bytes>)
    | Set(members: set<Bytes>)

  /** Wall-clock ticks are microseconds; files hold milliseconds. */
  const TICKS_PER_MS: int := 1000

  /** Instants whose millisecond count fits the 64 bits of the file formats. */
  type Instant = t: int | -TWO63 * TICKS_PER_MS <= t < TWO63 * TICKS_PER_MS

  /** Truncates toward zero, as duration_cast does. */
  function ToUnixMs(t: Instant): int64 {
    if t >= 0 then t / TICKS_PER_MS else -(-(t as int) / TICKS_PER_MS)
  }

  function FromUnixMs(ms: int64): Instant {
    ms * TICKS_PER_MS
  }

  predicate WholeMs(t: Instant) {
    t % TICKS_PER_MS == 0
  }

  /** The conversion to milliseconds drops a fraction toward zero. */
  lemma TruncatesTowardZero(t: Instant)
    ensures var rest := t - FromUnixMs(ToUnixMs(t));
            -TICKS_PER_MS < rest < TICKS_PER_MS && (t >= 0 ==> rest >= 0) && (t <= 0 ==> rest <= 0)
  {
  }

  lemma MillisecondsExact(t: Instant)
    ensures FromUnixMs(ToUnixMs(t)) == t <==> WholeMs(t)
  {
  }
}
