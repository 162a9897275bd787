/** Naive (time-zone free) date and time values, as the application
    obtains them from the clock and from parsing: a proleptic Gregorian
    date from year 1 to year 9999 and a time of day to the microsecond.

    Two operations of the application use these values in different ways:
    adding a task compares two date-times field by field (year first,
    microsecond last), and the reminder check subtracts them. The lemma
    `BeforeIffEarlier` shows that the two agree. */
module DateTime {

  datatype DateTime = DateTime(year: int, month: int, day: int,
                               hour: int, minute: int, second: int, microsecond: int)

  predicate IsLeapYear(y: int) {
    y % 4 == 0 && (y % 100 != 0 || y % 400 == 0)
  }

  function DaysInMonth(y: int, m: int): (n: int)
    requires 1 <= m <= 12
    ensures 28 <= n <= 31
    ensures m == 2 ==> (n == 29 <==> IsLeapYear(y))
  {
    if m == 2 then (if IsLeapYear(y) then 29 else 28)
    else if m == 4 || m == 6 || m == 9 || m == 11 then 30
    else 31
  }

  function DaysInYear(y: int): int {
    if IsLeapYear(y) then 366 else 365
  }

  /** The ranges a date-time's fields are kept in. */
  predicate Valid(t: DateTime) {
    && 1 <= t.year <= 9999
    && 1 <= t.month <= 12
    && 1 <= t.day <= DaysInMonth(t.year, t.month)
    && 0 <= t.hour < 24
    && 0 <= t.minute < 60
    && 0 <= t.second < 60
    && 0 <= t.microsecond < 1_000_000
  }

  type ValidDateTime = t: DateTime | Valid(t) witness DateTime(1, 1, 1, 0, 0, 0, 0)

  /** A date-time with nothing below the minute, as every parsed due date is. */
  predicate WholeMinute(t: DateTime) {
    t.second == 0 && t.microsecond == 0
  }

  /** The values a task's due date takes. */
  type DueDate = t: DateTime | Valid(t) && WholeMinute(t) witness DateTime(1, 1, 1, 0, 0, 0, 0)

  /** Drops the seconds and microseconds. */
  function Truncated(t: ValidDateTime): (r: DueDate)
    ensures r.year == t.year && r.month == t.month && r.day == t.day
    ensures r.hour == t.hour && r.minute == t.minute
  {
    DateTime(t.year, t.month, t.day, t.hour, t.minute, 0, 0)
  }

  /** Comparison field by field, most significant first: strictly earlier. */
  predicate Before(a: DateTime, b: DateTime) {
    || a.year < b.year
    || (a.year == b.year && a.month < b.month)
    || (a.year == b.year && a.month == b.month && a.day < b.day)
    || (a.year == b.year && a.month == b.month && a.day == b.day && a.hour < b.hour)
    || (a.year == b.year && a.month == b.month && a.day == b.day && a.hour == b.hour
        && a.minute < b.minute)
    || (a.year == b.year && a.month == b.month && a.day == b.day && a.hour == b.hour
        && a.minute == b.minute && a.second < b.second)
    || (a.year == b.year && a.month == b.month && a.day == b.day && a.hour == b.hour
        && a.minute == b.minute && a.second == b.second && a.microsecond < b.microsecond)
  }

  /** Days in the years before year `y`. */
  function DaysBeforeYear(y: int): int
    requires y >= 1
  {
    var p := y - 1;
    365 * p + p / 4 - p / 100 + p / 400
  }

  /** Days in the months of year `y` before month `m`. */
  function DaysBeforeMonth(y: int, m: int): int
    requires 1 <= m <= 12
  {
    var common := [0, 31, 59, 90, 120, 151, 181, 212, 243, 273, 304, 334][m - 1];
    if m > 2 && IsLeapYear(y) then common + 1 else common
  }

  /** The day number of the date, counting 0001-01-01 as day 1. */
  function Ordinal(t: ValidDateTime): int {
    DaysBeforeYear(t.year) + DaysBeforeMonth(t.year, t.month) + t.day
  }

  const MicrosPerDay: int := 86_400_000_000

  function MicrosOfDay(t: ValidDateTime): (r: int)
    ensures 0 <= r < MicrosPerDay
  {
    t.hour * 3_600_000_000 + t.minute * 60_000_000 + t.second * 1_000_000 + t.microsecond
  }

  /** Microseconds since 0001-01-01 00:00. */
  function Micros(t: ValidDateTime): int {
    Ordinal(t) * MicrosPerDay + MicrosOfDay(t)
  }

  /** The signed difference `to - from`, in microseconds. */
  function Elapsed(from: ValidDateTime, to: ValidDateTime): int {
    Micros(to) - Micros(from)
  }

  lemma YearLength(y: int)
    requires y >= 1
    ensures DaysBeforeYear(y + 1) == DaysBeforeYear(y) + DaysInYear(y)
  {
    LeapDivisors(y);
    assert DaysBeforeYear(y + 1) == 365 * y + y / 4 - y / 100 + y / 400;
  }

  /** The counts of multiples of 4, 100 and 400 up to `y` each grow by one
      exactly when `y` is a multiple. */
  lemma LeapDivisors(y: int)
    requires y >= 1
    ensures y / 4 == (y - 1) / 4 + (if y % 4 == 0 then 1 else 0)
    ensures y / 100 == (y - 1) / 100 + (if y % 100 == 0 then 1 else 0)
    ensures y / 400 == (y - 1) / 400 + (if y % 400 == 0 then 1 else 0)
  {
  }

  lemma {:induction false} DaysBeforeYearMonotone(a: int, b: int)
    requires 1 <= a <= b
    ensures DaysBeforeYear(a) + (b - a) * 365 <= DaysBeforeYear(b)
    decreases b - a
  {
    if a < b {
      DaysBeforeYearMonotone(a, b - 1);
      YearLength(b - 1);
    }
  }

  /** A month ends no later than any later month begins, and month 12 ends the year. */
  lemma MonthEnd(y: int, m: int, m': int)
    requires 1 <= m < m' <= 12
    ensures DaysBeforeMonth(y, m) + DaysInMonth(y, m) <= DaysBeforeMonth(y, m')
  {
  }

  lemma YearEnd(y: int, m: int)
    requires 1 <= m <= 12
    ensures DaysBeforeMonth(y, m) + DaysInMonth(y, m) <= DaysInYear(y)
  {
  }

  /** A strictly earlier calendar date has a strictly smaller day number. */
  lemma OrdinalIncreasing(a: ValidDateTime, b: ValidDateTime)
    requires || a.year < b.year
             || (a.year == b.year && a.month < b.month)
             || (a.year == b.year && a.month == b.month && a.day < b.day)
    ensures Ordinal(a) < Ordinal(b)
  {
    if a.year < b.year {
      YearEnd(a.year, a.month);
      YearLength(a.year);
      DaysBeforeYearMonotone(a.year + 1, b.year);
    } else if a.month < b.month {
      MonthEnd(a.year, a.month, b.month);
    }
  }

  /** Field-by-field comparison and the microsecond count order date-times alike. */
  lemma BeforeIffEarlier(a: ValidDateTime, b: ValidDateTime)
    ensures Before(a, b) <==> Micros(a) < Micros(b)
    ensures a == b <==> Micros(a) == Micros(b)
  {
    if a.year != b.year || a.month != b.month || a.day != b.day {
      if Before(a, b) {
        OrdinalIncreasing(a, b);
      } else {
        OrdinalIncreasing(b, a);
      }
    }
  }
}
