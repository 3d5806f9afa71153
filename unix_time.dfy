/**
 * Absolute time as whole Unix seconds in UTC, the precision at which the
 * reminder store keeps every timestamp.
 */
module UnixTime {

  const Minute: int := 60
  const Hour: int := 3600
  const Day: int := 86400

  /** One second in time.Duration units (nanoseconds). */
  const Second: int := 1_000_000_000

  /**
   * Go's zero time.Time, 0001-01-01T00:00:00Z, returned by NextAfter as
   * "no next time". It lies a whole number of days before the Unix epoch, so
   * truncating to a minute, hour or day measured from it or from the epoch
   * gives the same instant.
   */
  const ZeroTime: int := -62135596800

  /** The units the Go code truncates to. */
  predicate IsUnit(unit: int) {
    unit == Minute || unit == Hour || unit == Day
  }

  /**
   * t rounded down to a multiple of unit: time.Truncate, and for unit = Day
   * the midnight that `time.Date(t.Year(), t.Month(), t.Day(), 0, 0, 0, 0, UTC)`
   * denotes. Dafny's `%` is Euclidean, so this also holds before 1970.
   */
  function Truncate(t: int, unit: int): (r: int)
    requires IsUnit(unit)
    ensures r <= t < r + unit
    ensures r % unit == 0
  {
    t - t % unit
  }

  /** Adding a multiple of d does not change the remainder modulo d. */
  lemma ModShift(a: int, b: int, d: int)
    requires IsUnit(d) && a % d == 0
    ensures (a + b) % d == b % d
  {
  }

  /** x = q * 60 + r with 0 <= r < 60 determines x's quotient and remainder by a minute. */
  lemma MinuteDivMod(x: int, q: int, r: int)
    requires 0 <= r < Minute && x == q * Minute + r
    ensures x / Minute == q && x % Minute == r
  {
  }

  /** x = q * 86400 + r with 0 <= r < 86400 determines x's quotient and remainder by a day. */
  lemma DayDivMod(x: int, q: int, r: int)
    requires 0 <= r < Day && x == q * Day + r
    ensures x / Day == q && x % Day == r
  {
  }

  /** An offset below the unit is its own remainder. */
  lemma SmallMod(x: int, d: int)
    requires IsUnit(d) && 0 <= x < d
    ensures x % d == x
  {
  }

  /**
   * The first instant strictly after `from` of the form
   * `Truncate(from, period) + offset (+ period)`: the "same wall-clock time
   * this day, else the next day" step (and its per-hour form) that the Go code
   * writes as `time.Date(...)` followed by `if !t.After(from) { t = t.Add(period) }`.
   * `time.Date` normalises fields out of range, so offset may exceed period.
   */
  function SameOrNext(from: int, period: int, offset: int): (r: int)
    requires period == Hour || period == Day
    requires offset >= 0
    ensures r > from
    ensures r % period == offset % period
    ensures offset < period ==> r <= from + period
    ensures r == Truncate(from, period) + offset || r == Truncate(from, period) + offset + period
    ensures r == Truncate(from, period) + offset + period <==> Truncate(from, period) + offset <= from
  {
    var base := Truncate(from, period);
    PeriodShift(base, period, offset);
    if base + offset > from then base + offset else base + offset + period
  }

  /** From a period boundary, both candidates of SameOrNext keep offset's remainder. */
  lemma PeriodShift(base: int, period: int, offset: int)
    requires period == Hour || period == Day
    requires base % period == 0
    ensures (base + offset) % period == offset % period
    ensures (base + offset + period) % period == offset % period
  {
    if period == Hour {
      assert base % Hour == 0;
      ModShift(base, offset, Hour);
      ModShift(base + Hour, offset, Hour);
      assert base + Hour + offset == base + offset + period;
    } else {
      assert base % Day == 0;
      ModShift(base, offset, Day);
      ModShift(base + Day, offset, Day);
      assert base + Day + offset == base + offset + period;
    }
  }
}
