/**
  The proleptic Gregorian calendar as Python's `datetime.date` sees it:
  years 1 through 9999, day numbers ("ordinals") counted from 0001-01-01 = 1,
  and subtraction of a whole number of days, which Python defines as
  `fromordinal(toordinal() - n)` and rejects with OverflowError when the
  ordinal would fall below 1.
 */
module Calendar {
  import opened Wrappers

  const MinYear := 1
  const MaxYear := 9999

  datatype Date = Date(year: int, month: int, day: int)

  predicate IsLeapYear(y: int) {
    y % 4 == 0 && (y % 100 != 0 || y % 400 == 0)
  }

  function DaysInMonth(y: int, m: int): (n: int)
    requires 1 <= m <= 12
    ensures 28 <= n <= 31
    ensures n == 29 <==> m == 2 && IsLeapYear(y)
  {
    if m == 2 then (if IsLeapYear(y) then 29 else 28)
    else if m == 4 || m == 6 || m == 9 || m == 11 then 30
    else 31
  }

  function DaysInYear(y: int): int {
    if IsLeapYear(y) then 366 else 365
  }

  /** A date the `datetime.date` constructor accepts. */
  predicate Valid(d: Date) {
    && MinYear <= d.year <= MaxYear
    && 1 <= d.month <= 12
    && 1 <= d.day <= DaysInMonth(d.year, d.month)
  }

  /** Number of days in the years 1 .. y-1. */
  function DaysBeforeYear(y: int): int
    requires y >= 1
  {
    var p := y - 1;
    365 * p + p / 4 - p / 100 + p / 400
  }

  /** Number of days in the months 1 .. m-1 of year y (m == 13 gives the whole year). */
  function DaysBeforeMonth(y: int, m: int): int
    requires 1 <= m <= 13
  {
    if m == 1 then 0 else DaysBeforeMonth(y, m - 1) + DaysInMonth(y, m - 1)
  }

  /**
    Python's `date.toordinal()`: 0001-01-01 is day 1, and each year's days
    follow on from those of all earlier years.
   */
  function Ordinal(d: Date): (o: int)
    requires Valid(d)
    ensures 1 <= o - DaysBeforeYear(d.year) <= DaysInYear(d.year)
  {
    DaysBeforeMonthIncreasing(d.year, 1, d.month);
    DaysBeforeMonthIncreasing(d.year, d.month + 1, 13);
    WholeYear(d.year);
    DaysBeforeYear(d.year) + DaysBeforeMonth(d.year, d.month) + d.day
  }

  /** Strict lexicographic order on (year, month, day). */
  predicate Before(a: Date, b: Date) {
    || a.year < b.year
    || (a.year == b.year && a.month < b.month)
    || (a.year == b.year && a.month == b.month && a.day < b.day)
  }

  // ---------------------------------------------------------------------
  // Arithmetic facts behind the year and month lengths
  // ---------------------------------------------------------------------

  /** Going from y-1 to y, the count of multiples of 4, 100 and 400 grows exactly when y is one. */
  lemma DivStep(y: int)
    requires y >= 1
    ensures y / 4 - (y - 1) / 4 == (if y % 4 == 0 then 1 else 0)
    ensures y / 100 - (y - 1) / 100 == (if y % 100 == 0 then 1 else 0)
    ensures y / 400 - (y - 1) / 400 == (if y % 400 == 0 then 1 else 0)
  {
  }

  lemma DivisibleChain(y: int)
    ensures y % 400 == 0 ==> y % 100 == 0
    ensures y % 100 == 0 ==> y % 4 == 0
  {
    if y % 400 == 0 {
      Multiple400(y);
    }
    if y % 100 == 0 {
      Multiple100(y);
    }
  }

  lemma Multiple400(y: int)
    requires y % 400 == 0
    ensures y % 100 == 0
  {
    var m := y / 400;
    assert y == 100 * (4 * m);
  }

  lemma Multiple100(y: int)
    requires y % 100 == 0
    ensures y % 4 == 0
  {
    var m := y / 100;
    assert y == 4 * (25 * m);
  }

  /** Consecutive years are separated by exactly the length of the earlier one. */
  lemma {:induction false} DaysBeforeNextYear(y: int)
    requires y >= 1
    ensures DaysBeforeYear(y + 1) == DaysBeforeYear(y) + DaysInYear(y)
  {
    DivStep(y);
    DivisibleChain(y);
  }

  lemma {:induction false} DaysBeforeYearIncreasing(a: int, b: int)
    requires 1 <= a < b
    ensures DaysBeforeYear(a + 1) <= DaysBeforeYear(b)
    decreases b - a
  {
    DaysBeforeNextYear(a);
    if a + 1 < b {
      DaysBeforeYearIncreasing(a + 1, b);
      DaysBeforeNextYear(a + 1);
    }
  }

  lemma {:induction false} DaysBeforeMonthIncreasing(y: int, a: int, b: int)
    requires 1 <= a <= b <= 13
    ensures DaysBeforeMonth(y, a) <= DaysBeforeMonth(y, b)
    decreases b - a
  {
    if a < b {
      DaysBeforeMonthIncreasing(y, a, b - 1);
    }
  }

  /** The twelve months add up to the length of the year. */
  lemma WholeYear(y: int)
    ensures DaysBeforeMonth(y, 13) == DaysInYear(y)
  {
    var feb := DaysInMonth(y, 2);
    assert DaysBeforeMonth(y, 2) == 31;
    assert DaysBeforeMonth(y, 3) == 31 + feb;
    assert DaysBeforeMonth(y, 4) == 62 + feb;
    assert DaysBeforeMonth(y, 5) == 92 + feb;
    assert DaysBeforeMonth(y, 6) == 123 + feb;
    assert DaysBeforeMonth(y, 7) == 153 + feb;
    assert DaysBeforeMonth(y, 8) == 184 + feb;
    assert DaysBeforeMonth(y, 9) == 215 + feb;
    assert DaysBeforeMonth(y, 10) == 245 + feb;
    assert DaysBeforeMonth(y, 11) == 276 + feb;
    assert DaysBeforeMonth(y, 12) == 306 + feb;
    assert DaysBeforeMonth(y, 13) == 337 + feb;
  }

  /** Ordinals respect calendar order: `toordinal` is strictly increasing. */
  lemma {:induction false} OrdinalMonotone(a: Date, b: Date)
    requires Valid(a) && Valid(b) && Before(a, b)
    ensures Ordinal(a) < Ordinal(b)
  {
    if a.year < b.year {
      DaysBeforeNextYear(a.year);
      DaysBeforeYearIncreasing(a.year, b.year);
    } else if a.month < b.month {
      DaysBeforeMonthIncreasing(a.year, a.month + 1, b.month);
    }
  }

  /** Distinct valid dates have distinct ordinals. */
  lemma OrdinalInjective(a: Date, b: Date)
    requires Valid(a) && Valid(b) && Ordinal(a) == Ordinal(b)
    ensures a == b
  {
    if Before(a, b) {
      OrdinalMonotone(a, b);
    } else if Before(b, a) {
      OrdinalMonotone(b, a);
    }
  }

  /** Conversely, a lower ordinal means an earlier date. */
  lemma OrdinalOrder(a: Date, b: Date)
    requires Valid(a) && Valid(b) && Ordinal(a) < Ordinal(b)
    ensures Before(a, b)
  {
    if !Before(a, b) {
      if a == b {
      } else {
        assert Before(b, a);
        OrdinalMonotone(b, a);
      }
    }
  }

  // ---------------------------------------------------------------------
  // Stepping backwards
  // ---------------------------------------------------------------------

  /** The first day Python can represent. */
  predicate IsFirstDay(d: Date) {
    d.year == MinYear && d.month == 1 && d.day == 1
  }

  lemma FirstDayOrdinal(d: Date)
    requires Valid(d)
    ensures Ordinal(d) >= 1
    ensures IsFirstDay(d) <==> Ordinal(d) == 1
  {
    if !IsFirstDay(d) {
      OrdinalMonotone(Date(1, 1, 1), d);
    }
  }

  /** The calendar day immediately before `d`. */
  function PrevDay(d: Date): (r: Date)
    requires Valid(d) && !IsFirstDay(d)
    ensures Valid(r)
    ensures Ordinal(r) == Ordinal(d) - 1
  {
    if d.day > 1 then
      Date(d.year, d.month, d.day - 1)
    else if d.month > 1 then
      MonthEnd(d.year, d.month - 1);
      Date(d.year, d.month - 1, DaysInMonth(d.year, d.month - 1))
    else
      YearEnd(d.year - 1);
      Date(d.year - 1, 12, 31)
  }

  /** The last day of month m comes just before the first day of month m + 1. */
  lemma MonthEnd(y: int, m: int)
    requires MinYear <= y <= MaxYear && 1 <= m < 12
    ensures Valid(Date(y, m, DaysInMonth(y, m)))
    ensures Ordinal(Date(y, m, DaysInMonth(y, m))) == Ordinal(Date(y, m + 1, 1)) - 1
  {
  }

  /** The last day of year y comes just before the first day of year y + 1. */
  lemma YearEnd(y: int)
    requires MinYear <= y < MaxYear
    ensures Valid(Date(y, 12, 31))
    ensures Ordinal(Date(y, 12, 31)) == Ordinal(Date(y + 1, 1, 1)) - 1
  {
    WholeYear(y);
    DaysBeforeNextYear(y);
  }

  /** `n` days before `d`, one day at a time. */
  function StepBack(d: Date, n: nat): (r: Date)
    requires Valid(d) && n < Ordinal(d)
    ensures Valid(r)
    ensures Ordinal(r) == Ordinal(d) - n
    decreases n
  {
    if n == 0 then d
    else
      FirstDayOrdinal(d);
      StepBack(PrevDay(d), n - 1)
  }

  /**
    Python's `d - timedelta(days=n)`: the date whose ordinal is `n` lower, or
    None where Python raises OverflowError ("date value out of range").
   */
  function SubtractDays(d: Date, n: nat): (r: Option<Date>)
    requires Valid(d)
    ensures r.Some? <==> n < Ordinal(d)
    ensures r.Some? ==> Valid(r.value) && Ordinal(r.value) == Ordinal(d) - n
  {
    if n < Ordinal(d) then Some(StepBack(d, n)) else None
  }

  /** The result of SubtractDays is the only valid date with that ordinal. */
  lemma SubtractDaysUnique(d: Date, n: nat, e: Date)
    requires Valid(d) && Valid(e) && Ordinal(e) == Ordinal(d) - n
    ensures SubtractDays(d, n) == Some(e)
  {
    FirstDayOrdinal(e);
    OrdinalInjective(SubtractDays(d, n).value, e);
  }
}
