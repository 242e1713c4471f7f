/** Calendar dates of the proleptic Gregorian calendar, their day count from
    1970-01-01 and the weekday derived from it, as chrono's `NaiveDate` and
    `Datelike::weekday` provide them. */
module Dates {

  /** A year/month/day triple; not every triple is a calendar date. */
  datatype Date = Date(year: int, month: int, day: int)

  /** Days of the week, in chrono's order (Monday first). */
  datatype Weekday = Mon | Tue | Wed | Thu | Fri | Sat | Sun

  /** Gregorian leap years: divisible by 4, except centuries not divisible by 400. */
  predicate IsLeapYear(y: int) {
    y % 4 == 0 && (y % 100 != 0 || y % 400 == 0)
  }

  function DaysInYear(y: int): int {
    if IsLeapYear(y) then 366 else 365
  }

  function DaysInMonth(y: int, m: int): int
    requires 1 <= m <= 12
  {
    if m == 2 then (if IsLeapYear(y) then 29 else 28)
    else if m == 4 || m == 6 || m == 9 || m == 11 then 30
    else 31
  }

  /** The triple names an existing day: month 1..12, day 1..length of that month. */
  predicate Valid(d: Date) {
    1 <= d.month <= 12 && 1 <= d.day <= DaysInMonth(d.year, d.month)
  }

  /** A calendar date, the value a `NaiveDate` holds. */
  type CalendarDate = d: Date | Valid(d) witness Date(1970, 1, 1)

  /** 1970-01-01, the origin of the day count. */
  const Epoch: CalendarDate := Date(1970, 1, 1)

  /** The number of leap years in 1..n for n >= 0, extended to every `n` so
      that it steps by one exactly at leap years. */
  function LeapYearsThrough(n: int): int {
    n / 4 - n / 100 + n / 400
  }

  /** Days from 1970-01-01 to January 1st of year `y` (negative before 1970). */
  function YearStart(y: int): int {
    365 * (y - 1970) + LeapYearsThrough(y - 1) - LeapYearsThrough(1969)
  }

  /** Days in the months of year `y` before month `m`. */
  function DaysBeforeMonth(y: int, m: int): int
    requires 1 <= m <= 13
    decreases m
  {
    if m == 1 then 0 else DaysBeforeMonth(y, m - 1) + DaysInMonth(y, m - 1)
  }

  /** Zero-based position of `d` within its year. */
  function DayOfYear(d: CalendarDate): int {
    DaysBeforeMonth(d.year, d.month) + d.day - 1
  }

  /** Days from 1970-01-01 to `d`. */
  function DaysFromEpoch(d: CalendarDate): int {
    YearStart(d.year) + DayOfYear(d)
  }

  function WeekdayFromIndex(i: int): Weekday
    requires 0 <= i < 7
  {
    match i
    case 0 => Mon
    case 1 => Tue
    case 2 => Wed
    case 3 => Thu
    case 4 => Fri
    case 5 => Sat
    case _ => Sun
  }

  /** The weekday of `d`: 1970-01-01 was a Thursday (index 3 from Monday).
      Dafny's `%` never yields a negative remainder, so dates before 1970 are
      covered too. */
  function WeekdayOf(d: CalendarDate): Weekday {
    WeekdayOfCount(DaysFromEpoch(d))
  }

  /** The weekday of the day numbered `n` from the Thursday 1970-01-01. */
  function WeekdayOfCount(n: int): Weekday {
    WeekdayFromIndex((n + 3) % 7)
  }

  /** The following weekday, as chrono's `Weekday::succ`. */
  function Succ(w: Weekday): Weekday {
    match w
    case Mon => Tue
    case Tue => Wed
    case Wed => Thu
    case Thu => Fri
    case Fri => Sat
    case Sat => Sun
    case Sun => Mon
  }

  /** The calendar date after `d`. */
  function NextDay(d: CalendarDate): CalendarDate {
    if d.day < DaysInMonth(d.year, d.month) then Date(d.year, d.month, d.day + 1)
    else if d.month < 12 then Date(d.year, d.month + 1, 1)
    else Date(d.year + 1, 1, 1)
  }

  /** Chronological order of year/month/day triples. */
  predicate Before(a: Date, b: Date) {
    || a.year < b.year
    || (a.year == b.year && a.month < b.month)
    || (a.year == b.year && a.month == b.month && a.day < b.day)
  }

  /** The leap-year count steps by one exactly at leap years. */
  lemma LeapYearsStep(n: int)
    ensures LeapYearsThrough(n) - LeapYearsThrough(n - 1) == if IsLeapYear(n) then 1 else 0
  {
    FloorDivSteps(n);
  }

  /** Floor division by 4, 100 and 400 steps up by one exactly at multiples,
      and the multiples nest. */
  lemma FloorDivSteps(n: int)
    ensures n / 4 - (n - 1) / 4 == if n % 4 == 0 then 1 else 0
    ensures n / 100 - (n - 1) / 100 == if n % 100 == 0 then 1 else 0
    ensures n / 400 - (n - 1) / 400 == if n % 400 == 0 then 1 else 0
    ensures n % 400 == 0 ==> n % 100 == 0
    ensures n % 100 == 0 ==> n % 4 == 0
  {
  }

  /** A year contributes its own length to the start of the next one. */
  lemma YearStartStep(y: int)
    ensures YearStart(y + 1) == YearStart(y) + DaysInYear(y)
  {
    LeapYearsStep(y);
  }

  /** The twelve months of a year add up to the year's length. */
  lemma DaysBeforeYearEnd(y: int)
    ensures DaysBeforeMonth(y, 13) == DaysInYear(y)
  {
    assert DaysBeforeMonth(y, 3) == 59 + (if IsLeapYear(y) then 1 else 0);
    assert DaysBeforeMonth(y, 7) == 181 + (if IsLeapYear(y) then 1 else 0);
    assert DaysBeforeMonth(y, 10) == 273 + (if IsLeapYear(y) then 1 else 0);
  }

  /** The day count of the next day is one more. */
  lemma NextDayCountsOne(d: CalendarDate)
    ensures DaysFromEpoch(NextDay(d)) == DaysFromEpoch(d) + 1
  {
    if d.day == DaysInMonth(d.year, d.month) && d.month == 12 {
      DaysBeforeYearEnd(d.year);
      YearStartStep(d.year);
    }
  }

  /** 1970-01-01 is day zero and a Thursday. */
  lemma EpochIsThursday()
    ensures DaysFromEpoch(Epoch) == 0
    ensures WeekdayOf(Epoch) == Thu
  {
  }

  /** Counting one day on moves one step along the week. */
  lemma WeekdayOfCountStep(n: int)
    ensures WeekdayOfCount(n + 1) == Succ(WeekdayOfCount(n))
  {
    assert (n + 4) % 7 == if (n + 3) % 7 == 6 then 0 else (n + 3) % 7 + 1;
  }

  /** Saturdays and Sundays are the days counted 2 and 3 modulo 7. */
  lemma WeekendOfCount(n: int)
    ensures WeekdayOfCount(n) == Sat <==> n % 7 == 2
    ensures WeekdayOfCount(n) == Sun <==> n % 7 == 3
  {
    assert (n + 3) % 7 == (n % 7 + 3) % 7;
  }

  /** Saturdays and Sundays are the dates counted 2 and 3 modulo 7 from the
      Thursday 1970-01-01. */
  lemma WeekendByCount(d: CalendarDate)
    ensures WeekdayOf(d) == Sat <==> DaysFromEpoch(d) % 7 == 2
    ensures WeekdayOf(d) == Sun <==> DaysFromEpoch(d) % 7 == 3
  {
    WeekendOfCount(DaysFromEpoch(d));
  }

  /** Each next day moves one step along the week. */
  lemma NextDayAdvancesWeekday(d: CalendarDate)
    ensures WeekdayOf(NextDay(d)) == Succ(WeekdayOf(d))
  {
    NextDayCountsOne(d);
    WeekdayOfCountStep(DaysFromEpoch(d));
  }

  /** The next day is the immediate successor: later than `d`, and no calendar
      date lies strictly between the two. */
  lemma NextDayIsSuccessor(d: CalendarDate, e: CalendarDate)
    ensures Before(d, NextDay(d))
    ensures Before(d, e) ==> e == NextDay(d) || Before(NextDay(d), e)
  {
  }

  /** Whole years add up: a later year starts at least the earlier year's
      length later. */
  lemma {:induction false} YearStartGrows(y: int, z: int)
    requires y < z
    ensures YearStart(y) + DaysInYear(y) <= YearStart(z)
    decreases z - y
  {
    YearStartStep(y);
    if y + 1 < z {
      YearStartGrows(y + 1, z);
    }
  }

  /** Whole months add up within a year. */
  lemma {:induction false} DaysBeforeMonthGrows(y: int, m: int, n: int)
    requires 1 <= m < n <= 13
    ensures DaysBeforeMonth(y, m) + DaysInMonth(y, m) <= DaysBeforeMonth(y, n)
    decreases n - m
  {
    if m + 1 < n {
      DaysBeforeMonthGrows(y, m + 1, n);
    }
  }

  /** A date's position within its year is below the year's length. */
  lemma DayOfYearBound(d: CalendarDate)
    ensures 0 <= DayOfYear(d) < DaysInYear(d.year)
  {
    DaysBeforeYearEnd(d.year);
    if d.month < 12 {
      DaysBeforeMonthGrows(d.year, d.month, 13);
    }
  }

  /** The day count is strictly increasing in chronological order, so it
      tells calendar dates apart and the weekday derivation is well defined. */
  lemma DaysFromEpochOrdered(a: CalendarDate, b: CalendarDate)
    ensures Before(a, b) <==> DaysFromEpoch(a) < DaysFromEpoch(b)
    ensures a == b <==> DaysFromEpoch(a) == DaysFromEpoch(b)
  {
    forall x: CalendarDate, y: CalendarDate | Before(x, y)
      ensures DaysFromEpoch(x) < DaysFromEpoch(y)
    {
      BeforeCountsLess(x, y);
    }
    assert a == b || Before(a, b) || Before(b, a);
  }

  lemma BeforeCountsLess(a: CalendarDate, b: CalendarDate)
    requires Before(a, b)
    ensures DaysFromEpoch(a) < DaysFromEpoch(b)
  {
    DayOfYearBound(a);
    DayOfYearBound(b);
    if a.year < b.year {
      YearStartGrows(a.year, b.year);
    } else if a.month < b.month {
      DaysBeforeMonthGrows(a.year, a.month, b.month);
    }
  }
}
