/** The proleptic Gregorian UTC calendar that JavaScript `Date` uses:
    time values are integer milliseconds since 1970-01-01T00:00:00Z. */
module Calendar {

  const MsPerDay: int := 86400000

  /** The range of a valid JavaScript time value (plus or minus 8.64e15 ms). */
  type JsTime = t: int | -8640000000000000 <= t <= 8640000000000000

  datatype Date = Date(year: int, month: int, day: int)

  predicate IsLeapYear(y: int) {
    y % 4 == 0 && (y % 100 != 0 || y % 400 == 0)
  }

  function DaysInYear(y: int): int {
    if IsLeapYear(y) then 366 else 365
  }

  function DaysInMonth(y: int, m: int): int
    requires 1 <= m <= 12
  {
    if m == 2 then (if IsLeapYear(y) then 29 else 28)
    else if m == 4 || m == 6 || m == 9 || m == 11 then 30
    else 31
  }

  /** Days of year `y` that come before the first of month `m`. */
  function DaysBeforeMonth(y: int, m: int): int
    requires 1 <= m <= 12
  {
    var base := [0, 31, 59, 90, 120, 151, 181, 212, 243, 273, 304, 334][m - 1];
    if m > 2 && IsLeapYear(y) then base + 1 else base
  }

  predicate ValidDate(d: Date) {
    1 <= d.month <= 12 && 1 <= d.day <= DaysInMonth(d.year, d.month)
  }

  lemma MonthStep(y: int, m: int)
    requires 1 <= m <= 12
    ensures m < 12 ==> DaysBeforeMonth(y, m + 1) == DaysBeforeMonth(y, m) + DaysInMonth(y, m)
    ensures m == 12 ==> DaysBeforeMonth(y, m) + DaysInMonth(y, m) == DaysInYear(y)
  {
  }

  /** Months are laid out back to back: an earlier month ends before a later one starts. */
  lemma {:induction false} MonthsOrdered(y: int, a: int, b: int)
    requires 1 <= a < b <= 12
    ensures DaysBeforeMonth(y, a) + DaysInMonth(y, a) <= DaysBeforeMonth(y, b)
    decreases b - a
  {
    MonthStep(y, a);
    if a + 1 < b {
      MonthsOrdered(y, a + 1, b);
      MonthStep(y, a + 1);
    }
  }

  /** Days from 1970-01-01 to the first of January of year `y` (negative before 1970). */
  function YearStart(y: int): int
    decreases if y < 1970 then 1970 - y else y - 1970
  {
    if y == 1970 then 0
    else if y > 1970 then YearStart(y - 1) + DaysInYear(y - 1)
    else YearStart(y + 1) - DaysInYear(y)
  }

  lemma YearStartStep(y: int)
    ensures YearStart(y + 1) == YearStart(y) + DaysInYear(y)
  {
  }

  /** An earlier year ends no later than a later year starts. */
  lemma {:induction false} YearsOrdered(a: int, b: int)
    requires a < b
    ensures YearStart(a) + DaysInYear(a) <= YearStart(b)
    decreases b - a
  {
    YearStartStep(a);
    if a + 1 < b {
      YearsOrdered(a + 1, b);
      YearStartStep(a + 1);
    }
  }

  /** Leap days among the years 1 .. x (counting backwards for x < 0). */
  function LeapCount(x: int): int {
    x / 4 - x / 100 + x / 400
  }

  lemma DivSteps(y: int)
    ensures y / 4 - (y - 1) / 4 == if y % 4 == 0 then 1 else 0
    ensures y / 100 - (y - 1) / 100 == if y % 100 == 0 then 1 else 0
    ensures y / 400 - (y - 1) / 400 == if y % 400 == 0 then 1 else 0
  {
  }

  lemma Divisibility(y: int)
    ensures y % 400 == 0 ==> y % 100 == 0
    ensures y % 100 == 0 ==> y % 4 == 0
  {
  }

  lemma LeapCountStep(y: int)
    ensures LeapCount(y) - LeapCount(y - 1) == if IsLeapYear(y) then 1 else 0
  {
    DivSteps(y);
    Divisibility(y);
  }

  /** Closed form of YearStart: 365 days a year plus the leap days in between. */
  lemma {:induction false} YearStartClosedForm(y: int)
    ensures YearStart(y) == 365 * (y - 1970) + LeapCount(y - 1) - LeapCount(1969)
    decreases if y < 1970 then 1970 - y else y - 1970
  {
    if y > 1970 {
      YearStartClosedForm(y - 1);
      LeapCountStep(y - 1);
    } else if y < 1970 {
      YearStartClosedForm(y + 1);
      LeapCountStep(y);
    }
  }

  /** The year holding the day `off` days after the start of year `y`, and that day's index in its year. */
  function YearFrom(y: int, off: int): (r: (int, int))
    ensures 0 <= r.1 < DaysInYear(r.0)
    ensures YearStart(r.0) + r.1 == YearStart(y) + off
    decreases if off < 0 then 366 - off else off
  {
    if off < 0 then
      YearStartStep(y - 1);
      YearFrom(y - 1, off + DaysInYear(y - 1))
    else if off >= DaysInYear(y) then
      YearStartStep(y);
      YearFrom(y + 1, off - DaysInYear(y))
    else
      (y, off)
  }

  /** The month, searching down from month `m`, on which day `doy` of year `y` falls. */
  function MonthFrom(y: int, doy: int, m: int): (r: int)
    requires 1 <= m <= 12
    requires 0 <= doy < DaysBeforeMonth(y, m) + DaysInMonth(y, m)
    ensures 1 <= r <= m
    ensures DaysBeforeMonth(y, r) <= doy < DaysBeforeMonth(y, r) + DaysInMonth(y, r)
    decreases m
  {
    if DaysBeforeMonth(y, m) <= doy then m
    else
      MonthStep(y, m - 1);
      MonthFrom(y, doy, m - 1)
  }

  /** Days since 1970-01-01 of a calendar date. */
  function DaysFromCivil(d: Date): int
    requires 1 <= d.month <= 12
  {
    YearStart(d.year) + DaysBeforeMonth(d.year, d.month) + d.day - 1
  }

  /** The calendar date of the day `z` days after 1970-01-01. */
  function CivilFromDays(z: int): (d: Date)
    ensures ValidDate(d)
    ensures DaysFromCivil(d) == z
  {
    var (y, doy) := YearFrom(1970, z);
    MonthStep(y, 12);
    var m := MonthFrom(y, doy, 12);
    Date(y, m, doy - DaysBeforeMonth(y, m) + 1)
  }

  /** Distinct valid dates are distinct days. */
  lemma DaysFromCivilInjective(a: Date, b: Date)
    requires ValidDate(a) && ValidDate(b)
    requires DaysFromCivil(a) == DaysFromCivil(b)
    ensures a == b
  {
    MonthStep(a.year, a.month);
    MonthStep(b.year, b.month);
    MonthStep(a.year, 12);
    MonthStep(b.year, 12);
    if a.month < 12 { MonthsOrdered(a.year, a.month, 12); }
    if b.month < 12 { MonthsOrdered(b.year, b.month, 12); }
    if a.year < b.year {
      YearsOrdered(a.year, b.year);
    } else if b.year < a.year {
      YearsOrdered(b.year, a.year);
    }
    assert a.year == b.year;
    if a.month < b.month {
      MonthsOrdered(a.year, a.month, b.month);
    } else if b.month < a.month {
      MonthsOrdered(a.year, b.month, a.month);
    }
  }

  /** CivilFromDays and DaysFromCivil are inverse bijections between days and valid dates. */
  lemma CivilRoundTrip(d: Date)
    requires ValidDate(d)
    ensures CivilFromDays(DaysFromCivil(d)) == d
  {
    DaysFromCivilInjective(CivilFromDays(DaysFromCivil(d)), d);
  }

  /** The UTC calendar date of a time value: day number floor(t / MsPerDay)
      (Dafny's `/` rounds down for a positive divisor, as `Day(t)` does). */
  function UtcDate(t: int): (d: Date)
    ensures ValidDate(d)
  {
    CivilFromDays(t / MsPerDay)
  }

  /** Two instants have the same UTC date exactly when they fall on the same UTC day. */
  lemma SameUtcDateIffSameDay(t1: int, t2: int)
    ensures UtcDate(t1) == UtcDate(t2) <==> t1 / MsPerDay == t2 / MsPerDay
  {
    if UtcDate(t1) == UtcDate(t2) {
      assert DaysFromCivil(UtcDate(t1)) == DaysFromCivil(UtcDate(t2));
    }
  }

  /** 2025-11-29T23:30:00Z, as milliseconds, falls on 29 November 2025. */
  lemma UtcDateExample()
    ensures UtcDate(1764459000000) == Date(2025, 11, 29)
  {
    YearStartClosedForm(2025);
    assert DaysFromCivil(Date(2025, 11, 29)) == 20421;
    CivilRoundTrip(Date(2025, 11, 29));
  }

  lemma EpochIsFirstOfJanuary1970()
    ensures UtcDate(0) == Date(1970, 1, 1)
  {
    CivilRoundTrip(Date(1970, 1, 1));
  }
}
