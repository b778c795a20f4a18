/** High-resolution timestamps as `process.hrtime()` returns them, and the
    duration between two of them in milliseconds. */
module HrTimes {

  /** Nanoseconds in one second. */
  const NS_PER_SEC: int := 1_000_000_000
  /** Nanoseconds in one millisecond (index.js calls this constant MS_PER_NS). */
  const NS_PER_MS: int := 1_000_000

  /** A `[seconds, nanoseconds]` pair. */
  datatype HrPair = HrPair(seconds: int, nanos: int)

  /** A pair as the clock produces it: the nanosecond part is below one second. */
  type HrTime = t: HrPair | 0 <= t.nanos < NS_PER_SEC witness HrPair(0, 0)

  /** The instant a pair denotes, in nanoseconds. */
  function TotalNanos(t: HrPair): int {
    t.seconds * NS_PER_SEC + t.nanos
  }

  /** `a` is no later than `b`. */
  predicate NotAfter(a: HrPair, b: HrPair) {
    TotalNanos(a) <= TotalNanos(b)
  }

  /** getHrTimeDurationInMs: the seconds and nanoseconds are subtracted
      field by field and recombined, then scaled to milliseconds. The result
      is the exact rational value (no floating-point rounding). */
  function DurationMs(startTime: HrPair, endTime: HrPair): (ms: real)
    ensures ms * NS_PER_MS as real == (TotalNanos(endTime) - TotalNanos(startTime)) as real
  {
    var secondDiff := endTime.seconds - startTime.seconds;
    var nanoSecondDiff := endTime.nanos - startTime.nanos;
    var diffInNanoSecond := secondDiff * NS_PER_SEC + nanoSecondDiff;
    diffInNanoSecond as real / NS_PER_MS as real
  }

  /** Two pairs that denote the same instants give the same duration, however
      the nanoseconds borrow across the seconds field. */
  lemma DurationDependsOnlyOnInstants(a: HrPair, a': HrPair, b: HrPair, b': HrPair)
    requires TotalNanos(a) == TotalNanos(a') && TotalNanos(b) == TotalNanos(b')
    ensures DurationMs(a, b) == DurationMs(a', b')
  {
  }

  /** Durations add up along a chain of timestamps. */
  lemma DurationAdditive(a: HrPair, b: HrPair, c: HrPair)
    ensures DurationMs(a, b) + DurationMs(b, c) == DurationMs(a, c)
  {
  }

  /** The duration from a timestamp to itself is zero, and reversing the
      endpoints negates the duration. */
  lemma DurationZeroAndAntisymmetric(a: HrPair, b: HrPair)
    ensures DurationMs(a, a) == 0.0
    ensures DurationMs(b, a) == -DurationMs(a, b)
  {
  }

  /** A duration is non-negative exactly when its start is not after its end. */
  lemma DurationNonNegativeIff(a: HrPair, b: HrPair)
    ensures DurationMs(a, b) >= 0.0 <==> NotAfter(a, b)
  {
  }

  /** For clock timestamps, "not after" is the lexicographic order on
      `[seconds, nanoseconds]`. */
  lemma NotAfterIsLexicographic(a: HrTime, b: HrTime)
    ensures NotAfter(a, b) <==> a.seconds < b.seconds || (a.seconds == b.seconds && a.nanos <= b.nanos)
  {
  }

  /** Distinct clock timestamps denote distinct instants. */
  lemma TotalNanosInjective(a: HrTime, b: HrTime)
    ensures TotalNanos(a) == TotalNanos(b) <==> a == b
  {
  }

  /** Between clock timestamps the duration is zero exactly when they are equal. */
  lemma DurationZeroIffEqual(a: HrTime, b: HrTime)
    ensures DurationMs(a, b) == 0.0 <==> a == b
  {
  }

  /** A borrow across the seconds field: from 1 s + 999 999 000 ns to
      2 s + 1 000 ns is 2 000 ns, that is 0.002 ms. */
  lemma DurationAcrossSecondBoundary()
    ensures DurationMs(HrPair(1, 999_999_000), HrPair(2, 1_000)) == 0.002
  {
  }
}
