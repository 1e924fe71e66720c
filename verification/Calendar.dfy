/** Proleptic Gregorian dates as Python's datetime.date orders and counts them. */
module Calendar {

  datatype Date = Date(year: int, month: int, day: int)

  predicate IsLeap(y: int) {
    y % 4 == 0 && (y % 100 != 0 || y % 400 == 0)
  }

  function DaysInMonth(y: int, m: int): int {
    if m == 2 then (if IsLeap(y) then 29 else 28)
    else if m == 4 || m == 6 || m == 9 || m == 11 then 30
    else 31
  }

  predicate ValidDate(d: Date) {
    d.year >= 1 && 1 <= d.month <= 12 && 1 <= d.day <= DaysInMonth(d.year, d.month)
  }

  function DaysBeforeYear(y: int): int {
    365 * (y - 1) + (y - 1) / 4 - (y - 1) / 100 + (y - 1) / 400
  }

  function DaysBeforeMonth(y: int, m: int): int
    requires 1 <= m <= 12
    decreases m
  {
    if m == 1 then 0 else DaysBeforeMonth(y, m - 1) + DaysInMonth(y, m - 1)
  }

  /** date.toordinal: January 1 of year 1 is day 1. */
  function Ordinal(d: Date): int
    requires ValidDate(d)
  {
    DaysBeforeYear(d.year) + DaysBeforeMonth(d.year, d.month) + d.day
  }

  /** Months counted through the years. */
  function MonthIndex(d: Date): int {
    d.year * 12 + d.month - 1
  }

  function FirstOf(m: int): (d: Date)
    requires m >= 12
    ensures ValidDate(d) && MonthIndex(d) == m
  {
    Date(m / 12, m % 12 + 1, 1)
  }

  function LastOf(m: int): (d: Date)
    requires m >= 12
    ensures ValidDate(d) && MonthIndex(d) == m
  {
    Date(m / 12, m % 12 + 1, DaysInMonth(m / 12, m % 12 + 1))
  }

  predicate IsMonthEnd(d: Date) {
    d.day == DaysInMonth(d.year, d.month)
  }

  /** date + timedelta(days=1). */
  function NextDay(d: Date): (n: Date)
    requires ValidDate(d)
    ensures ValidDate(n)
  {
    if !IsMonthEnd(d) then d.(day := d.day + 1) else FirstOf(MonthIndex(d) + 1)
  }

  lemma {:induction false} YearLength(y: int)
    requires y >= 1
    ensures DaysBeforeYear(y + 1) == DaysBeforeYear(y) + 365 + (if IsLeap(y) then 1 else 0)
  {
    assert y / 4 == (y - 1) / 4 + (if y % 4 == 0 then 1 else 0);
    assert y / 100 == (y - 1) / 100 + (if y % 100 == 0 then 1 else 0);
    assert y / 400 == (y - 1) / 400 + (if y % 400 == 0 then 1 else 0);
  }

  lemma {:induction false} DecemberStart(y: int)
    ensures DaysBeforeMonth(y, 12) == 334 + (if IsLeap(y) then 1 else 0)
  {
    assert DaysBeforeMonth(y, 3) == DaysBeforeMonth(y, 2) + DaysInMonth(y, 2);
    assert DaysBeforeMonth(y, 5) == DaysBeforeMonth(y, 4) + 30 == DaysBeforeMonth(y, 3) + 61;
    assert DaysBeforeMonth(y, 7) == DaysBeforeMonth(y, 6) + 30 == DaysBeforeMonth(y, 5) + 61;
    assert DaysBeforeMonth(y, 9) == DaysBeforeMonth(y, 8) + 31 == DaysBeforeMonth(y, 7) + 62;
    assert DaysBeforeMonth(y, 11) == DaysBeforeMonth(y, 10) + 31 == DaysBeforeMonth(y, 9) + 61;
  }

  /** The day after the last of a month is the first of the next, also across years. */
  lemma {:induction false} MonthsAdjoin(m: int)
    requires m >= 12
    ensures Ordinal(LastOf(m)) + 1 == Ordinal(FirstOf(m + 1))
    ensures Ordinal(FirstOf(m)) <= Ordinal(LastOf(m))
  {
    var y, k := m / 12, m % 12 + 1;
    if k < 12 {
      assert (m + 1) / 12 == y && (m + 1) % 12 == k;
    } else {
      assert (m + 1) / 12 == y + 1 && (m + 1) % 12 == 0;
      YearLength(y);
      DecemberStart(y);
    }
  }

  lemma {:induction false} NextDayFollows(d: Date)
    requires ValidDate(d)
    ensures Ordinal(NextDay(d)) == Ordinal(d) + 1
  {
    hide DaysBeforeYear, DaysBeforeMonth, DaysInMonth, IsMonthEnd, MonthIndex, FirstOf, LastOf, ValidDate;
    if IsMonthEnd(d) {
      MonthEndIsLast(d);
      MonthsAdjoin(MonthIndex(d));
    }
  }

  lemma {:induction false} MonthEndIsLast(d: Date)
    requires ValidDate(d) && IsMonthEnd(d)
    ensures MonthIndex(d) >= 12 && LastOf(MonthIndex(d)) == d
  {
    var m := MonthIndex(d);
    assert m / 12 == d.year && m % 12 + 1 == d.month;
  }

  lemma {:induction false} MonthStartsGrow(a: int, b: int)
    requires 12 <= a < b
    ensures Ordinal(FirstOf(a)) < Ordinal(FirstOf(b))
    decreases b
  {
    hide Ordinal, FirstOf, LastOf;
    MonthsAdjoin(b - 1);
    if a < b - 1 {
      MonthStartsGrow(a, b - 1);
    }
  }

  /** A month's first day names the month. */
  lemma {:induction false} MonthStartUnique(a: int, b: int)
    requires a >= 12 && b >= 12 && Ordinal(FirstOf(a)) == Ordinal(FirstOf(b))
    ensures a == b
  {
    hide Ordinal, FirstOf;
    if a < b {
      MonthStartsGrow(a, b);
    } else if b < a {
      MonthStartsGrow(b, a);
    }
  }
}
