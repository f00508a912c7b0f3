/** Calendar dates as (year, month, day) triples in the proleptic Gregorian
    calendar of Python's `datetime`, with the day arithmetic that
    `start_date + timedelta(days = n)` performs. */
module Calendar {

  datatype Date = Date(year: int, month: int, day: int)

  predicate IsLeapYear(y: int) {
    y % 4 == 0 && (y % 100 != 0 || y % 400 == 0)
  }

  function DaysInYear(y: int): nat {
    if IsLeapYear(y) then 366 else 365
  }

  function DaysInMonth(y: int, m: int): nat
    requires 1 <= m <= 12
  {
    if m == 2 then (if IsLeapYear(y) then 29 else 28)
    else if m == 4 || m == 6 || m == 9 || m == 11 then 30
    else 31
  }

  predicate ValidDate(d: Date) {
    1 <= d.month <= 12 && 1 <= d.day <= DaysInMonth(d.year, d.month)
  }

  /** Strict chronological order of dates. */
  predicate Before(a: Date, b: Date) {
    a.year < b.year ||
    (a.year == b.year && (a.month < b.month || (a.month == b.month && a.day < b.day)))
  }

  /** The first day of (year, month), as `to_datetime` builds it from the
      year and month columns with day 1. */
  function FirstOfMonth(year: int, month: int): (d: Date)
    ensures d.year == year && d.month == month && d.day == 1
    ensures 1 <= month <= 12 ==> ValidDate(d)
    ensures forall e :: ValidDate(e) && e.year == year && e.month == month ==> !Before(e, d)
  {
    Date(year, month, 1)
  }

  /** Number of days from the first day of month m to the end of year y. */
  function DaysFromMonth(y: int, m: int): nat
    requires 1 <= m <= 13
    decreases 13 - m
  {
    if m == 13 then 0 else DaysInMonth(y, m) + DaysFromMonth(y, m + 1)
  }

  /** Number of days in year y before the first day of month m. */
  function DaysBeforeMonth(y: int, m: int): nat
    requires 1 <= m <= 13
  {
    if m == 1 then 0 else DaysBeforeMonth(y, m - 1) + DaysInMonth(y, m - 1)
  }

  /** The twelve months add up to the length of the year. */
  lemma YearLength(y: int)
    ensures DaysFromMonth(y, 1) == DaysInYear(y)
  {
    var f := if IsLeapYear(y) then 29 else 28;
    assert DaysFromMonth(y, 10) == 92;
    assert DaysFromMonth(y, 7) == 184;
    assert DaysFromMonth(y, 4) == 275;
    assert DaysFromMonth(y, 2) == 306 + f;
  }

  lemma {:induction false} MonthsSplitYear(y: int, m: int)
    requires 1 <= m <= 13
    ensures DaysBeforeMonth(y, m) + DaysFromMonth(y, m) == DaysInYear(y)
  {
    if m == 1 {
      YearLength(y);
    } else {
      MonthsSplitYear(y, m - 1);
    }
  }

  /** The date n days after the first day of month m of year y, for a day
      that still lies in year y. */
  function DateInYear(y: int, m: int, n: nat): (d: Date)
    requires 1 <= m <= 12 && n < DaysFromMonth(y, m)
    ensures ValidDate(d) && d.year == y && m <= d.month
    ensures DaysBeforeMonth(y, d.month) + d.day - 1 == DaysBeforeMonth(y, m) + n
    decreases 12 - m
  {
    if n < DaysInMonth(y, m) then Date(y, m, n + 1)
    else DateInYear(y, m + 1, n - DaysInMonth(y, m))
  }

  /** Number of days from 1 January of year y to 1 January of year z. */
  function DaysBetween(y: int, z: int): nat
    decreases z - y
  {
    if z <= y then 0 else DaysInYear(y) + DaysBetween(y + 1, z)
  }

  /** 1 January of year y plus n days. */
  function AddDays(y: int, n: nat): (d: Date)
    ensures ValidDate(d) && y <= d.year
    decreases n
  {
    if n < DaysInYear(y) then
      assert n < DaysFromMonth(y, 1) by { MonthsSplitYear(y, 1); }
      DateInYear(y, 1, n)
    else AddDays(y + 1, n - DaysInYear(y))
  }

  /** Days elapsed from 1 January of year y to date d. */
  function DaysSince(y: int, d: Date): int
    requires ValidDate(d)
  {
    DaysBetween(y, d.year) + DaysBeforeMonth(d.year, d.month) + d.day - 1
  }

  /** Adding n days and counting the days back gives n: the day arithmetic
      neither skips nor repeats a date. */
  lemma {:induction false} AddDaysRoundTrip(y: int, n: nat)
    ensures DaysSince(y, AddDays(y, n)) == n
    decreases n
  {
    if n < DaysInYear(y) {
      MonthsSplitYear(y, 1);
    } else {
      AddDaysRoundTrip(y + 1, n - DaysInYear(y));
      var d := AddDays(y + 1, n - DaysInYear(y));
      assert DaysBetween(y, d.year) == DaysInYear(y) + DaysBetween(y + 1, d.year);
    }
  }

  /** A day count shorter than the years y .. z-1 lands before year z. */
  lemma {:induction false} AddDaysYearBound(y: int, z: int, n: nat)
    requires n < DaysBetween(y, z)
    ensures AddDays(y, n).year < z
    decreases n
  {
    if n >= DaysInYear(y) {
      AddDaysYearBound(y + 1, z, n - DaysInYear(y));
    }
  }
}
