/**
 * Calendar dates, times of day and the range of Python's datetime, as integers.
 *
 * A date is its proleptic Gregorian ordinal, as `date.toordinal()` gives it: 0001-01-01 is 1 and
 * `date.max` (9999-12-31) is MaxOrdinal. A time of day is the number of minutes since midnight, which
 * is all that a time parsed with "%H:%M" can carry.
 */
module Calendar {

  const MaxOrdinal: int := 3652059
  const MinutesPerDay: int := 1440

  predicate IsDate(d: int) { 1 <= d <= MaxOrdinal }

  predicate IsTime(t: int) { 0 <= t < MinutesPerDay }

  /** `date.weekday()`: 0 is Monday and 6 is Sunday (0001-01-01 was a Monday). */
  function Weekday(d: int): (w: int)
    ensures 0 <= w < 7
  {
    (d + 6) % 7
  }

  /** What `strftime('%A').lower()` yields in the English locale for weekday `w`, 0 = Monday. */
  function WeekdayName(w: int): string
    requires 0 <= w < 7
  {
    match w
    case 0 => "monday"
    case 1 => "tuesday"
    case 2 => "wednesday"
    case 3 => "thursday"
    case 4 => "friday"
    case 5 => "saturday"
    case _ => "sunday"
  }

  function DayName(d: int): string
  {
    WeekdayName(Weekday(d))
  }

  /** Minutes from `datetime.min` to `datetime.combine(d, t)`. */
  function Instant(d: int, t: int): int
  {
    (d - 1) * MinutesPerDay + t
  }

  /** `datetime.max` (9999-12-31 23:59:59.999999) counted in whole minutes. */
  const MaxInstant: int := MaxOrdinal * MinutesPerDay - 1

  /**
   * Adding `minutes` to `datetime.combine(d, t)` raises OverflowError. (A `timedelta` too large to
   * construct is also far beyond the range of datetime, so one test covers both errors.)
   */
  predicate AddOverflows(d: int, t: int, minutes: int)
  {
    Instant(d, t) + minutes > MaxInstant
  }
}
