/**
 * Naive local date-times and their conversion to a count of seconds.
 *
 * The application subtracts two `datetime` values and reads the difference in
 * seconds. This module gives that subtraction a meaning: a date is numbered by
 * its proleptic Gregorian ordinal (day 1 is 0001-01-01, as Python's
 * `date.toordinal`), and a date-time by ordinal * 86400 plus its second of the day.
 */
module Calendar {

  /** A date-time without time zone, as stored in the ticket table. */
  datatype DateTime = DateTime(year: int, month: int, day: int, hour: int, minute: int, second: int)

  /**
   * A reading of the local clock: a date-time and its microseconds, which the
   * clock carries but the stored text form drops.
   */
  datatype Moment = Moment(at: DateTime, micros: int)

  predicate IsLeapYear(y: int)
  {
    y % 4 == 0 && (y % 100 != 0 || y % 400 == 0)
  }

  function DaysInMonth(y: int, m: int): int
    requires 1 <= m <= 12
  {
    if m == 2 then (if IsLeapYear(y) then 29 else 28)
    else if m == 4 || m == 6 || m == 9 || m == 11 then 30
    else 31
  }

  function YearLength(y: int): int
  {
    if IsLeapYear(y) then 366 else 365
  }

  /** Python's `datetime` accepts years 1 through 9999. */
  predicate ValidDate(y: int, m: int, d: int)
  {
    1 <= y <= 9999 && 1 <= m <= 12 && 1 <= d <= DaysInMonth(y, m)
  }

  predicate ValidTime(h: int, mi: int, s: int)
  {
    0 <= h < 24 && 0 <= mi < 60 && 0 <= s < 60
  }

  predicate ValidDateTime(t: DateTime)
  {
    ValidDate(t.year, t.month, t.day) && ValidTime(t.hour, t.minute, t.second)
  }

  predicate ValidMoment(m: Moment)
  {
    ValidDateTime(m.at) && 0 <= m.micros < 1000000
  }

  /** Number of days in the years before `y`. */
  function DaysBeforeYear(y: int): int
    requires y >= 1
  {
    var p := y - 1;
    p * 365 + p / 4 - p / 100 + p / 400
  }

  /** Number of days in the months of year `y` before month `m` (13 stands for the year's end). */
  function DaysBeforeMonth(y: int, m: int): int
    requires 1 <= m <= 13
  {
    var table := [0, 0, 31, 59, 90, 120, 151, 181, 212, 243, 273, 304, 334, 365];
    table[m] + (if m > 2 && IsLeapYear(y) then 1 else 0)
  }

  /** The proleptic Gregorian day number of a date. */
  function Ordinal(y: int, m: int, d: int): int
    requires 1 <= y && 1 <= m <= 12
  {
    DaysBeforeYear(y) + DaysBeforeMonth(y, m) + d
  }

  function SecondOfDay(t: DateTime): int
  {
    t.hour * 3600 + t.minute * 60 + t.second
  }

  /** Seconds since the start of day 0 of the proleptic calendar. */
  function ToSeconds(t: DateTime): int
    requires ValidDateTime(t)
  {
    Ordinal(t.year, t.month, t.day) * 86400 + SecondOfDay(t)
  }

  /**
   * `(b - a).total_seconds()` for two date-times: positive exactly when `b` is
   * later, and zero exactly when they are the same date-time.
   */
  function ElapsedSeconds(a: DateTime, b: DateTime): (r: int)
    requires ValidDateTime(a) && ValidDateTime(b)
    ensures r > 0 <==> Before(a, b)
    ensures r == 0 <==> a == b
  {
    ElapsedPositiveIffBefore(a, b);
    ToSecondsInjective(a, b);
    ToSeconds(b) - ToSeconds(a)
  }

  /** The calendar day after a valid date (the year may step past 9999). */
  function NextDate(y: int, m: int, d: int): (r: (int, int, int))
    requires ValidDate(y, m, d)
  {
    if d < DaysInMonth(y, m) then (y, m, d + 1)
    else if m < 12 then (y, m + 1, 1)
    else (y + 1, 1, 1)
  }

  /** Strict chronological order of dates, field by field. */
  predicate DateBefore(a: DateTime, b: DateTime)
  {
    a.year < b.year
    || (a.year == b.year && a.month < b.month)
    || (a.year == b.year && a.month == b.month && a.day < b.day)
  }

  predicate SameDate(a: DateTime, b: DateTime)
  {
    a.year == b.year && a.month == b.month && a.day == b.day
  }

  /** Strict chronological order of date-times, field by field. */
  predicate Before(a: DateTime, b: DateTime)
  {
    DateBefore(a, b) || (SameDate(a, b) && SecondOfDay(a) < SecondOfDay(b))
  }

  /** Stepping a non-negative count by one moves its quotient by a divisor exactly at a multiple. */
  lemma DivStep(p: int)
    requires p >= 0
    ensures (p + 1) / 4 == p / 4 + (if (p + 1) % 4 == 0 then 1 else 0)
    ensures (p + 1) / 100 == p / 100 + (if (p + 1) % 100 == 0 then 1 else 0)
    ensures (p + 1) / 400 == p / 400 + (if (p + 1) % 400 == 0 then 1 else 0)
  {
  }

  /** Consecutive years are numbered contiguously. */
  lemma {:induction false} DaysBeforeNextYear(y: int)
    requires y >= 1
    ensures DaysBeforeYear(y + 1) == DaysBeforeYear(y) + YearLength(y)
  {
    var p := y - 1;
    DivStep(p);
    assert (p + 1) % 4 == y % 4 && (p + 1) % 100 == y % 100 && (p + 1) % 400 == y % 400;
  }

  lemma {:induction false} DaysBeforeYearMonotone(y1: int, y2: int)
    requires 1 <= y1 <= y2
    ensures DaysBeforeYear(y1) + 365 * (y2 - y1) <= DaysBeforeYear(y2)
    decreases y2 - y1
  {
    if y1 < y2 {
      DaysBeforeNextYear(y1);
      DaysBeforeYearMonotone(y1 + 1, y2);
    }
  }

  /** The day after a date has the next ordinal: the numbering has no gaps and no repeats. */
  lemma OrdinalOfNextDate(y: int, m: int, d: int)
    requires ValidDate(y, m, d)
    ensures var (y', m', d') := NextDate(y, m, d);
      1 <= m' <= 12 && Ordinal(y', m', d') == Ordinal(y, m, d) + 1
  {
    if d == DaysInMonth(y, m) && m == 12 {
      DaysBeforeNextYear(y);
    }
  }

  /** Every date of year `y` lies strictly after the years before it and within its own year. */
  lemma OrdinalWithinYear(y: int, m: int, d: int)
    requires ValidDate(y, m, d)
    ensures DaysBeforeYear(y) < Ordinal(y, m, d) <= DaysBeforeYear(y + 1)
  {
    DaysBeforeNextYear(y);
  }

  /** Earlier dates have smaller ordinals. */
  lemma OrdinalMonotone(a: DateTime, b: DateTime)
    requires ValidDateTime(a) && ValidDateTime(b)
    requires DateBefore(a, b)
    ensures Ordinal(a.year, a.month, a.day) < Ordinal(b.year, b.month, b.day)
  {
    if a.year < b.year {
      OrdinalWithinYear(a.year, a.month, a.day);
      OrdinalWithinYear(b.year, b.month, b.day);
      DaysBeforeYearMonotone(a.year + 1, b.year);
    }
  }

  /**
   * Counting seconds keeps the order of date-times: the count of `b` is larger
   * exactly when `b` comes later on the calendar and clock.
   */
  lemma ElapsedPositiveIffBefore(a: DateTime, b: DateTime)
    requires ValidDateTime(a) && ValidDateTime(b)
    ensures ToSeconds(a) < ToSeconds(b) <==> Before(a, b)
  {
    if DateBefore(a, b) {
      OrdinalMonotone(a, b);
    } else if DateBefore(b, a) {
      OrdinalMonotone(b, a);
    }
  }

  /** Two valid date-times are the same instant exactly when all their fields agree. */
  lemma ToSecondsInjective(a: DateTime, b: DateTime)
    requires ValidDateTime(a) && ValidDateTime(b)
    ensures ToSeconds(a) == ToSeconds(b) <==> a == b
  {
    ElapsedPositiveIffBefore(a, b);
    ElapsedPositiveIffBefore(b, a);
    if SameDate(a, b) && SecondOfDay(a) == SecondOfDay(b) {
      assert a.hour == b.hour;
      assert a.minute == b.minute;
    }
  }
}
