/**
 * Proleptic Gregorian calendar arithmetic behind moment's daysInMonth, day() and the
 * millisecond time line: days are counted from 1970-01-01 (day 0, a Thursday).
 * Months are 0-based, as in moment.
 */
module Calendar {

  /** The Gregorian rule: every fourth year, except centuries, except every fourth century. */
  predicate IsLeapYear(year: int)
    ensures IsLeapYear(year) ==> year % 4 == 0
    ensures year % 4 == 0 && year % 100 != 0 ==> IsLeapYear(year)
    ensures year % 100 == 0 ==> (IsLeapYear(year) <==> year % 400 == 0)
  {
    (year % 4 == 0 && year % 100 != 0) || year % 400 == 0
  }

  /** moment's daysInMonth(year, month) for a month in 0..11. */
  function DaysInMonth(year: int, month: int): (n: int)
    requires 0 <= month < 12
    ensures month == 1 ==> (n == 29 <==> IsLeapYear(year)) && 28 <= n <= 29
    // thirty days have September (8), April (3), June (5) and November (10); all the rest but February have 31
    ensures month != 1 ==> (n == 30 <==> month in {3, 5, 8, 10}) && 30 <= n <= 31
  {
    if month == 1 then (if IsLeapYear(year) then 29 else 28) else 31 - month % 7 % 2
  }

  function DaysInYear(year: int): int {
    if IsLeapYear(year) then 366 else 365
  }

  datatype Date = Date(year: int, month: int, day: int) {
    /** A real calendar day: what moment's overflow check accepts. */
    predicate Valid() {
      0 <= month < 12 && 1 <= day <= DaysInMonth(year, month)
    }
  }

  /** Lexicographic order of calendar days. */
  predicate Before(a: Date, b: Date) {
    a.year < b.year
    || (a.year == b.year && a.month < b.month)
    || (a.year == b.year && a.month == b.month && a.day < b.day)
  }

  /**
   * Days from 1970-01-01 to January 1st of `year`: 365 a year plus one for every leap
   * year in between (floor division counts the years divisible by 4, 100 and 400).
   */
  function DaysBeforeYear(year: int): int {
    365 * (year - 1970) + (year + 3) / 4 - (year + 99) / 100 + (year + 399) / 400 - 478
  }

  /** Days from January 1st to the first of `month` in `year`. */
  function DaysBeforeMonth(year: int, month: int): (n: int)
    requires 0 <= month <= 12
    ensures 28 * month <= n <= 31 * month
  {
    if month == 0 then 0 else DaysBeforeMonth(year, month - 1) + DaysInMonth(year, month - 1)
  }

  /** The serial day number of a calendar day, 1970-01-01 being day 0. */
  function DayNumber(d: Date): int
    requires d.Valid()
  {
    DaysBeforeYear(d.year) + DaysBeforeMonth(d.year, d.month) + d.day - 1
  }

  /** Day of week as moment's day() gives it: 0 is Sunday, 6 is Saturday. */
  function Weekday(d: Date): (w: int)
    requires d.Valid()
    ensures 0 <= w < 7
  {
    (DayNumber(d) + 4) % 7
  }

  /** Floor division by 4, 100 and 400 counts one more multiple when a year is one. */
  lemma QuarterStep(year: int)
    ensures (year + 4) / 4 == (year + 3) / 4 + (if year % 4 == 0 then 1 else 0)
  {
    var q, r := year / 4, year % 4;
    if r == 0 {
      assert year + 3 == 4 * q + 3 && year + 4 == 4 * (q + 1);
    } else {
      assert year + 3 == 4 * (q + 1) + (r - 1) && year + 4 == 4 * (q + 1) + r;
    }
  }

  lemma CenturyStep(year: int)
    ensures (year + 100) / 100 == (year + 99) / 100 + (if year % 100 == 0 then 1 else 0)
  {
    var q, r := year / 100, year % 100;
    if r == 0 {
      assert year + 99 == 100 * q + 99 && year + 100 == 100 * (q + 1);
    } else {
      assert year + 99 == 100 * (q + 1) + (r - 1) && year + 100 == 100 * (q + 1) + r;
    }
  }

  lemma QuadCenturyStep(year: int)
    ensures (year + 400) / 400 == (year + 399) / 400 + (if year % 400 == 0 then 1 else 0)
  {
    var q, r := year / 400, year % 400;
    if r == 0 {
      assert year + 399 == 400 * q + 399 && year + 400 == 400 * (q + 1);
    } else {
      assert year + 399 == 400 * (q + 1) + (r - 1) && year + 400 == 400 * (q + 1) + r;
    }
  }

  lemma MultiplesNest(year: int)
    ensures year % 400 == 0 ==> year % 100 == 0
    ensures year % 100 == 0 ==> year % 4 == 0
  {
    if year % 400 == 0 {
      var q := year / 400;
      assert year == 100 * (4 * q);
    }
    if year % 100 == 0 {
      var q := year / 100;
      assert year == 4 * (25 * q);
    }
  }

  /** Consecutive New Year's days are a year's length apart. */
  lemma {:induction false} YearLength(year: int)
    ensures DaysBeforeYear(year + 1) == DaysBeforeYear(year) + DaysInYear(year)
  {
    var next := year + 1;
    assert DaysBeforeYear(next) == 365 * (next - 1970) + (year + 4) / 4 - (year + 100) / 100 + (year + 400) / 400 - 478;
    QuarterStep(year);
    CenturyStep(year);
    QuadCenturyStep(year);
    MultiplesNest(year);
  }

  /** The twelve months fill the year exactly. */
  lemma MonthsFillYear(year: int)
    ensures DaysBeforeMonth(year, 12) == DaysInYear(year)
  {
    var feb := DaysInMonth(year, 1);
    assert DaysBeforeMonth(year, 1) == 31;
    assert DaysBeforeMonth(year, 2) == 31 + feb;
    assert DaysBeforeMonth(year, 3) == 62 + feb;
    assert DaysBeforeMonth(year, 4) == 92 + feb;
    assert DaysBeforeMonth(year, 5) == 123 + feb;
    assert DaysBeforeMonth(year, 6) == 153 + feb;
    assert DaysBeforeMonth(year, 7) == 184 + feb;
    assert DaysBeforeMonth(year, 8) == 215 + feb;
    assert DaysBeforeMonth(year, 9) == 245 + feb;
    assert DaysBeforeMonth(year, 10) == 276 + feb;
    assert DaysBeforeMonth(year, 11) == 306 + feb;
  }

  lemma {:induction false} DaysBeforeMonthMonotone(year: int, m1: int, m2: int)
    requires 0 <= m1 < m2 <= 12
    ensures DaysBeforeMonth(year, m1) + DaysInMonth(year, m1) <= DaysBeforeMonth(year, m2)
    decreases m2
  {
    if m1 + 1 < m2 {
      DaysBeforeMonthMonotone(year, m1, m2 - 1);
    }
  }

  lemma {:induction false} DaysBeforeYearMonotone(y1: int, y2: int)
    requires y1 < y2
    ensures DaysBeforeYear(y1) + DaysInYear(y1) <= DaysBeforeYear(y2)
    decreases y2 - y1
  {
    YearLength(y1);
    if y1 + 1 < y2 {
      DaysBeforeYearMonotone(y1 + 1, y2);
    }
  }

  /** A day of `year` is numbered within that year's span of day numbers. */
  lemma DayNumberWithinYear(d: Date)
    requires d.Valid()
    ensures DaysBeforeYear(d.year) <= DayNumber(d) < DaysBeforeYear(d.year) + DaysInYear(d.year)
  {
    MonthsFillYear(d.year);
    DaysBeforeMonthMonotone(d.year, d.month, 12);
  }

  lemma BeforeNumberedEarlier(a: Date, b: Date)
    requires a.Valid() && b.Valid() && Before(a, b)
    ensures DayNumber(a) < DayNumber(b)
  {
    if a.year < b.year {
      DayNumberWithinYear(a);
      DayNumberWithinYear(b);
      DaysBeforeYearMonotone(a.year, b.year);
    } else if a.month < b.month {
      DaysBeforeMonthMonotone(a.year, a.month, b.month);
    }
  }

  /**
   * Day numbers follow calendar order, and distinct calendar days have distinct
   * numbers: comparing instants is comparing dates, then times of day.
   */
  lemma DayNumberOrder(a: Date, b: Date)
    requires a.Valid() && b.Valid()
    ensures DayNumber(a) < DayNumber(b) <==> Before(a, b)
    ensures DayNumber(a) == DayNumber(b) <==> a == b
  {
    if Before(a, b) {
      BeforeNumberedEarlier(a, b);
    } else if Before(b, a) {
      BeforeNumberedEarlier(b, a);
    }
  }

  /** The calendar is anchored correctly: 1 January 2024 was a Monday and 1 May 2024 a Wednesday. */
  lemma WeekdayAnchors()
    ensures Weekday(Date(2024, 0, 1)) == 1
    ensures Weekday(Date(2024, 4, 1)) == 3
    ensures Weekday(Date(2000, 1, 29)) == 2
  {
  }
}
