/**
 * The calendar arithmetic of the scheduling ledger: day bucketing of `time_t`
 * instants (`normalizeToDay`), the split of an instant into year, month and
 * day of month (what `localtime` yields), and the month table of
 * `getDaysInMonth`.
 *
 * Instants are seconds since 1970-01-01 00:00 in one fixed zone without
 * daylight-saving shifts, so a day is exactly 86400 seconds long.
 */
module Calendar {

  const SecondsPerDay := 86400
  const EpochYear := 1970

  /** The Gregorian rule. A zero remainder means the same thing under C++'s
      truncating `%` and Dafny's Euclidean `%`, so negative years agree too. */
  predicate IsLeapYear(year: int) {
    year % 4 == 0 && (year % 100 != 0 || year % 400 == 0)
  }

  /** `InterventionPlanner::getDaysInMonth`: 0 for a month number outside 1..12. */
  function DaysInMonth(month: int, year: int): (r: int)
    ensures r > 0 <==> 1 <= month <= 12
    ensures r != 0 ==> 28 <= r <= 31
    ensures month == 2 ==> (r == 29 <==> IsLeapYear(year))
    ensures month == 2 && !IsLeapYear(year) ==> r == 28
  {
    if month < 1 || month > 12 then 0
    else if month == 2 && IsLeapYear(year) then 29
    else [31, 28, 31, 30, 31, 30, 31, 31, 30, 31, 30, 31][month - 1]
  }

  /** Days of the year that precede the first of `month` (month 13 gives the whole year). */
  function DaysBefore(month: int, year: int): (r: int)
    requires 1 <= month <= 13
    ensures 28 * (month - 1) <= r <= 31 * (month - 1)
  {
    if month == 1 then 0 else DaysBefore(month - 1, year) + DaysInMonth(month - 1, year)
  }

  function DaysInYear(year: int): int {
    DaysBefore(13, year)
  }

  lemma {:induction false} DaysInYearIsLeapAware(year: int)
    ensures DaysInYear(year) == if IsLeapYear(year) then 366 else 365
  {
    var d := DaysBefore(13, year);
    assert d == DaysBefore(3, year) + 31 + 30 + 31 + 30 + 31 + 31 + 30 + 31 + 30 + 31 by {
      assert DaysBefore(13, year) == DaysBefore(12, year) + 31;
      assert DaysBefore(12, year) == DaysBefore(11, year) + 30;
      assert DaysBefore(11, year) == DaysBefore(10, year) + 31;
      assert DaysBefore(10, year) == DaysBefore(9, year) + 30;
      assert DaysBefore(9, year) == DaysBefore(8, year) + 31;
      assert DaysBefore(8, year) == DaysBefore(7, year) + 31;
      assert DaysBefore(7, year) == DaysBefore(6, year) + 30;
      assert DaysBefore(6, year) == DaysBefore(5, year) + 31;
      assert DaysBefore(5, year) == DaysBefore(4, year) + 30;
      assert DaysBefore(4, year) == DaysBefore(3, year) + 31;
    }
    assert DaysBefore(3, year) == 31 + DaysInMonth(2, year) by {
      assert DaysBefore(2, year) == 31;
    }
  }

  /** Days from 1970-01-01 to the first of January of `year` (negative before 1970). */
  function YearStart(year: int): int
    decreases if year < EpochYear then EpochYear - year else year - EpochYear
  {
    if year == EpochYear then 0
    else if year > EpochYear then YearStart(year - 1) + DaysInYear(year - 1)
    else YearStart(year + 1) - DaysInYear(year)
  }

  lemma YearStartStep(year: int)
    ensures YearStart(year + 1) == YearStart(year) + DaysInYear(year)
  {
  }

  datatype Date = Date(year: int, month: int, day: int)

  /** A valid calendar date: what `localtime` can report. */
  predicate IsDate(d: Date) {
    1 <= d.month <= 12 && 1 <= d.day <= DaysInMonth(d.month, d.year)
  }

  /** Day number since the epoch of a date; inverse of `SplitDays`. */
  function DayNumber(d: Date): int
    requires 1 <= d.month <= 12
  {
    YearStart(d.year) + DaysBefore(d.month, d.year) + d.day - 1
  }

  /** The date `n` days after the first of `month`, within `year`. */
  function MonthSplit(year: int, month: int, n: int): (r: Date)
    requires 1 <= month <= 12
    requires 0 <= n < DaysInYear(year) - DaysBefore(month, year)
    ensures r.year == year && month <= r.month && IsDate(r)
    ensures DaysBefore(r.month, year) + r.day - 1 == DaysBefore(month, year) + n
    decreases 12 - month
  {
    if n < DaysInMonth(month, year) then Date(year, month, n + 1)
    else MonthSplit(year, month + 1, n - DaysInMonth(month, year))
  }

  /** The date `n` days (possibly negative) after the first of January of `year`. */
  function SplitDays(year: int, n: int): (r: Date)
    ensures IsDate(r)
    ensures DayNumber(r) == YearStart(year) + n
    decreases if n < 0 then 1 else 0, if n < 0 then -n else n
  {
    if n < 0 then
      YearStartStep(year - 1);
      SplitDays(year - 1, n + DaysInYear(year - 1))
    else if n >= DaysInYear(year) then
      YearStartStep(year);
      SplitDays(year + 1, n - DaysInYear(year))
    else
      MonthSplit(year, 1, n)
  }

  /** `normalizeToDay`: the instant of midnight that starts the day of `t`. */
  function Day(t: int): int {
    t - t % SecondsPerDay
  }

  /** The day of `t` starts at a multiple of a day's length, at or before `t`,
      less than a day before it. */
  lemma DayBounds(t: int)
    ensures Day(t) <= t < Day(t) + SecondsPerDay
    ensures Day(t) % SecondsPerDay == 0
  {
  }

  /** The year, month (1..12) and day of month of instant `t` (the `tm_year + 1900`,
      `tm_mon + 1` and `tm_mday` that `localtime` reports). */
  function Split(t: int): (r: Date)
    ensures IsDate(r)
    ensures DayNumber(r) == t / SecondsPerDay
  {
    SplitDays(EpochYear, t / SecondsPerDay)
  }

  lemma DayIsIdempotent(t: int)
    ensures Day(Day(t)) == Day(t)
  {
  }

  /** Bucketing by day does not move an instant to another calendar date. */
  lemma SplitOfDay(t: int)
    ensures Split(Day(t)) == Split(t)
  {
    assert Day(t) / SecondsPerDay == t / SecondsPerDay;
  }

  /** Two day starts with the same calendar date are the same instant, so the
      ledger holds at most one bucket per calendar date. */
  lemma {:induction false} SplitIsInjectiveOnDays(a: int, b: int)
    requires Day(a) == a && Day(b) == b
    requires Split(a) == Split(b)
    ensures a == b
  {
    assert a / SecondsPerDay == b / SecondsPerDay;
    assert a == SecondsPerDay * (a / SecondsPerDay);
    assert b == SecondsPerDay * (b / SecondsPerDay);
  }
}
