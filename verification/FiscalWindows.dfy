/**
 How long the windows are that a reviewed fiscal calendar admits (packages/core/periods.py with
 packages/core/fiscal.py): twelve months in a month calendar, and 52, 53 or 54 weeks in a week calendar.
 */
module FiscalWindows {
  import opened Common
  import opened Calendar
  import opened Periods
  import opened Comparisons

  function Length(start: Date, end: Date): int
    requires ValidDate(start) && ValidDate(end)
  {
    Ordinal(end) - Ordinal(start) + 1
  }

  // ----- quarters in their years

  /** A labelled quarter has the length its reviewed year gives it. */
  lemma {:induction false} QuarterLength(years: seq<FiscalYear>, s: Source, y: nat, q: nat)
    requires ValidYears(years) && ValidSource(s) && Labels(years, s, false, y, q) && Supported(years[y])
    ensures s.start.Some?
    ensures years[y].kind.Weeks? ==> Length(s.start.value, s.end) == QuarterDays(years[y], q) && QuarterDays(years[y], q) in {91, 98}
    ensures years[y].kind.Months? ==> MonthSpan(s) == Some(3)
  {
    PeriodInYear(years[y], q, false);
    hide Ordinal, NextDay;
  }

  /** The quarters of a year add up to it. */
  lemma {:induction false} QuartersAddUp(y: FiscalYear, q: nat)
    requires ValidYear(y) && q < 4
    ensures Length(y.start, y.ends[q]) == QuarterDays(y, 0) + (if q > 0 then QuarterDays(y, 1) else 0)
            + (if q > 1 then QuarterDays(y, 2) else 0) + (if q > 2 then QuarterDays(y, 3) else 0)
  {
    NextDayFollows(y.ends[0]);
    NextDayFollows(y.ends[1]);
    NextDayFollows(y.ends[2]);
    hide Ordinal, NextDay;
  }

  /** A supported week year has at most one quarter of fourteen weeks. */
  lemma {:induction false} OneLongQuarter(y: FiscalYear, q: nat, r: nat)
    requires ValidYear(y) && Supported(y) && y.kind.Weeks? && q < r < 4
    ensures QuarterDays(y, q) == 91 || QuarterDays(y, r) == 91
  {
    hide Ordinal, NextDay, QuarterDays;
    assert QuarterDays(y, 0) in {91, 98} && QuarterDays(y, 1) in {91, 98} && QuarterDays(y, 2) in {91, 98} && QuarterDays(y, 3) in {91, 98};
  }

  /** The labelled quarter that adjoins another is the next one of its year, or the first of a later year. */
  lemma {:induction false} NextLabel(years: seq<FiscalYear>, s: Source, y: nat, q: nat, t: Source, z: nat, r: nat)
    requires ValidYears(years) && ValidSource(s) && ValidSource(t) && Adjoins(s, t)
    requires Labels(years, s, false, y, q) && Labels(years, t, false, z, r)
    ensures if y == z then r == q + 1 else q == 3 && r == 0
  {
    assert ValidYear(years[y]) && ValidYear(years[z]);
    LabelOrdered(years, s, false, y, q);
    LabelOrdered(years, t, false, z, r);
    if r > 0 {
      NextDayFollows(years[z].ends[r - 1]);
    }
    YearBounds(years[y], q);
    YearBounds(years[z], r);
    if r > 0 {
      YearBounds(years[z], r - 1);
    }
    if q < 3 {
      NextDayFollows(years[y].ends[q]);
      YearBounds(years[y], q + 1);
    }
    hide Ordinal, NextDay;
    if y == z {
      SameYearNext(years[y], q, r);
    } else {
      LaterYear(years, y, z);
    }
  }

  lemma {:induction false} SameYearNext(y: FiscalYear, q: nat, r: nat)
    requires ValidYear(y) && q < 4 && r < 4
    requires Ordinal(y.ends[q]) + 1 == Ordinal(QuarterStart(y, r, false))
    ensures r == q + 1
  {
    if r > 0 {
      NextDayFollows(y.ends[r - 1]);
    }
    hide Ordinal, NextDay;
  }

  lemma {:induction false} LaterYear(years: seq<FiscalYear>, y: nat, z: nat)
    requires ValidYears(years) && y < |years| && z < |years| && y != z
    ensures if y < z then Ordinal(years[y].ends[3]) < Ordinal(years[z].start) else Ordinal(years[z].ends[3]) < Ordinal(years[y].start)
  {
    hide Ordinal;
  }

  // ----- four quarters

  /** Four adjoining labelled quarters of one supported calendar. */
  ghost predicate FourQuarters(years: seq<FiscalYear>, sources: seq<Source>)
    requires ValidYears(years) && ValidSources(sources)
  {
    && OneSupportedKind(years) && |sources| == 4
    && (forall i :: 0 <= i < 4 ==> QuarterSupported(Some(years), sources[i]))
    && (forall i :: 0 < i < 4 ==> Adjoins(sources[i - 1], sources[i]))
  }

  /** One for a quarter of fourteen weeks. */
  ghost function IsLong(s: Source): int
    requires ValidSource(s)
  {
    if s.start.Some? && Length(s.start.value, s.end) == 98 then 1 else 0
  }

  ghost function LongQuarters(sources: seq<Source>): int
    requires ValidSources(sources) && |sources| == 4
  {
    IsLong(sources[0]) + IsLong(sources[1]) + IsLong(sources[2]) + IsLong(sources[3])
  }

  lemma {:induction false} LabelOf(years: seq<FiscalYear>, s: Source) returns (y: nat, q: nat)
    requires ValidYears(years) && ValidSource(s) && QuarterSupported(Some(years), s)
    ensures Labels(years, s, false, y, q)
  {
    y, q :| Labels(years, s, false, y, q);
  }

  /** In a month calendar four such quarters are exactly twelve months. */
  lemma {:induction false} FourQuartersAreTwelveMonths(years: seq<FiscalYear>, sources: seq<Source>)
    requires ValidYears(years) && ValidSources(sources) && FourQuarters(years, sources) && years[0].kind.Months?
    ensures sources[0].start.Some? && sources[0].start.value.day == 1 && IsMonthEnd(sources[3].end)
    ensures MonthIndex(sources[3].end) - MonthIndex(sources[0].start.value) + 1 == 12
  {
    hide Ordinal, Supported, NextDay, Labels, QuarterSupported, MonthIndex, IsMonthEnd;
    forall i | 0 <= i < 4
      ensures sources[i].start.Some? && MonthSpan(sources[i]) == Some(3)
    {
      var y, q := LabelOf(years, sources[i]);
      LabelledKind(years, sources[i], y, q);
      QuarterLength(years, sources[i], y, q);
    }
    forall i | 0 < i < 4
      ensures MonthIndex(sources[i].start.value) == MonthIndex(sources[i - 1].end) + 1
    {
      AdjacentMonths(sources[i - 1], sources[i]);
    }
    assert MonthSpan(sources[0]) == Some(3) && MonthSpan(sources[1]) == Some(3) && MonthSpan(sources[2]) == Some(3) && MonthSpan(sources[3]) == Some(3);
  }

  lemma {:induction false} LabelledKind(years: seq<FiscalYear>, s: Source, y: nat, q: nat)
    requires ValidYears(years) && OneSupportedKind(years) && Labels(years, s, false, y, q)
    ensures y < |years| && Supported(years[y]) && years[y].kind == years[0].kind
  {
    hide Supported, Ordinal;
  }

  /** In a week calendar they are 52 weeks and one more for each of at most two long quarters: 54 weeks
      exactly when one year's long quarter and the next one's both fall inside. */
  lemma {:induction false} FourQuartersInWeeks(years: seq<FiscalYear>, sources: seq<Source>)
    requires ValidYears(years) && ValidSources(sources) && FourQuarters(years, sources) && years[0].kind.Weeks?
    ensures sources[0].start.Some? && LongQuarters(sources) <= 2
    ensures Length(sources[0].start.value, sources[3].end) == 52 * 7 + 7 * LongQuarters(sources)
  {
    hide Ordinal, Supported, NextDay, Labels, QuarterSupported, QuarterDays;
    var y0, q0 := LabelOf(years, sources[0]);
    var y1, q1 := LabelOf(years, sources[1]);
    var y2, q2 := LabelOf(years, sources[2]);
    var y3, q3 := LabelOf(years, sources[3]);
    WeekQuarter(years, sources[0], y0, q0);
    WeekQuarter(years, sources[1], y1, q1);
    WeekQuarter(years, sources[2], y2, q2);
    WeekQuarter(years, sources[3], y3, q3);
    NextLabel(years, sources[0], y0, q0, sources[1], y1, q1);
    NextLabel(years, sources[1], y1, q1, sources[2], y2, q2);
    NextLabel(years, sources[2], y2, q2, sources[3], y3, q3);
    NotBothLong(years, y0, q0, y1, q1);
    NotBothLong(years, y0, q0, y2, q2);
    NotBothLong(years, y0, q0, y3, q3);
    NotBothLong(years, y1, q1, y2, q2);
    NotBothLong(years, y1, q1, y3, q3);
    NotBothLong(years, y2, q2, y3, q3);
    assert Adjoins(sources[0], sources[1]) && Adjoins(sources[1], sources[2]) && Adjoins(sources[2], sources[3]);
  }

  lemma {:induction false} WeekQuarter(years: seq<FiscalYear>, s: Source, y: nat, q: nat)
    requires ValidYears(years) && ValidSource(s) && OneSupportedKind(years) && years[0].kind.Weeks? && Labels(years, s, false, y, q)
    ensures s.start.Some? && y < |years| && q < 4 && ValidYear(years[y]) && Supported(years[y]) && years[y].kind.Weeks?
    ensures Length(s.start.value, s.end) == QuarterDays(years[y], q) && QuarterDays(years[y], q) in {91, 98}
  {
    hide Ordinal, Supported, QuarterDays;
    LabelledKind(years, s, y, q);
    QuarterLength(years, s, y, q);
  }

  lemma {:induction false} NotBothLong(years: seq<FiscalYear>, y: nat, q: nat, z: nat, r: nat)
    requires ValidYears(years) && y < |years| && z < |years| && q < 4 && r < 4
    requires ValidYear(years[y]) && ValidYear(years[z]) && Supported(years[y]) && years[y].kind.Weeks?
    ensures y == z && q < r ==> QuarterDays(years[y], q) == 91 || QuarterDays(years[z], r) == 91
  {
    hide Ordinal, Supported, QuarterDays;
    if y == z && q < r {
      OneLongQuarter(years[y], q, r);
    }
  }

  // ----- differences of cumulative periods

  /** A cumulative period of a week year is thirteen weeks a quarter, and one week more at most. */
  lemma {:induction false} YtdInWeeks(years: seq<FiscalYear>, s: Source, y: nat, q: nat)
    requires ValidYears(years) && ValidSource(s) && OneSupportedKind(years) && years[0].kind.Weeks? && Labels(years, s, true, y, q)
    ensures s.start.Some? && q < 4 && Length(s.start.value, s.end) in {91 * (q + 1), 91 * (q + 1) + 7}
  {
    hide Ordinal, NextDay, QuarterDays;
    var year := years[y];
    assert ValidYear(year) && Supported(year) && year.kind.Weeks?;
    QuartersAddUp(year, q);
    assert QuarterDays(year, 0) in {91, 98} && QuarterDays(year, 1) in {91, 98} && QuarterDays(year, 2) in {91, 98} && QuarterDays(year, 3) in {91, 98};
  }

  /** The quarter that two cumulative periods leave is three months, or thirteen or fourteen weeks. */
  lemma {:induction false} YtdQuarterLength(years: seq<FiscalYear>, current: Source, prior: Source)
    requires ValidYears(years) && ValidSource(current) && ValidSource(prior) && OneSupportedKind(years)
    requires ConsecutiveYtd(Some(years), current, prior)
    ensures years[0].kind.Weeks? ==> Length(NextDay(prior.end), current.end) in {91, 98}
    ensures years[0].kind.Months? ==>
              NextDay(prior.end).day == 1 && IsMonthEnd(current.end) && MonthIndex(current.end) - MonthIndex(NextDay(prior.end)) + 1 == 3
  {
    var y: nat, q: nat :| Labels(years, prior, true, y, q) && Labels(years, current, true, y, q + 1);
    var year := years[y];
    assert ValidYear(year) && Supported(year) && year.kind == years[0].kind;
    assert QuarterStart(year, q + 1, false) == NextDay(prior.end);
    PeriodOfQuarter(year, q + 1);
  }

  lemma {:induction false} PeriodOfQuarter(y: FiscalYear, q: nat)
    requires ValidYear(y) && Supported(y) && q < 4
    ensures y.kind.Weeks? ==> Length(QuarterStart(y, q, false), y.ends[q]) in {91, 98}
    ensures y.kind.Months? ==> QuarterStart(y, q, false).day == 1 && IsMonthEnd(y.ends[q])
                               && MonthIndex(y.ends[q]) - MonthIndex(QuarterStart(y, q, false)) + 1 == 3
  {
    hide Ordinal, NextDay;
    assert y.kind.Weeks? ==> QuarterDays(y, q) in {91, 98};
  }

  /** A year, plus the next year's opening, less its own, is 52, 53 or 54 weeks in a week calendar. */
  lemma {:induction false} AnnualBridgeInWeeks(years: seq<FiscalYear>, annual: Source, current: Source, prior: Source)
    requires ValidYears(years) && ValidSource(annual) && ValidSource(current) && ValidSource(prior) && OneSupportedKind(years)
    requires AnnualBridge(Some(years), annual, current, prior) && years[0].kind.Weeks?
    ensures Length(NextDay(prior.end), current.end) in {52 * 7, 53 * 7, 54 * 7}
  {
    hide Ordinal, NextDay, Labels, Supported;
    var y: nat, q: nat :| q < 3 && Labels(years, annual, true, y, 3) && Labels(years, prior, true, y, q) && Labels(years, current, true, y + 1, q);
    YtdInWeeks(years, annual, y, 3);
    YtdInWeeks(years, prior, y, q);
    YtdInWeeks(years, current, y + 1, q);
    NextDayFollows(prior.end);
    LabelStart(years, annual, y, 3);
    LabelStart(years, prior, y, q);
    YtdWithinYear(years, annual, prior, y, q);
  }

  lemma {:induction false} LabelStart(years: seq<FiscalYear>, s: Source, y: nat, q: nat)
    requires ValidYears(years) && Labels(years, s, true, y, q)
    ensures y < |years| && s.start == Some(years[y].start)
  {
    hide Ordinal;
  }

  /** What is left of a week year after its opening is whole quarters too, with the same spare week. */
  lemma {:induction false} YtdWithinYear(years: seq<FiscalYear>, annual: Source, prior: Source, y: nat, q: nat)
    requires ValidYears(years) && ValidSource(annual) && ValidSource(prior) && OneSupportedKind(years) && years[0].kind.Weeks?
    requires Labels(years, annual, true, y, 3) && Labels(years, prior, true, y, q) && q < 3
    ensures annual.start.Some? && prior.start.Some?
    ensures Length(annual.start.value, annual.end) - Length(prior.start.value, prior.end) in {91 * (3 - q), 91 * (3 - q) + 7}
  {
    hide Ordinal, NextDay, QuarterDays;
    var year := years[y];
    assert ValidYear(year) && Supported(year) && year.kind.Weeks?;
    QuartersAddUp(year, q);
    QuartersAddUp(year, 3);
    assert QuarterDays(year, 0) in {91, 98} && QuarterDays(year, 1) in {91, 98} && QuarterDays(year, 2) in {91, 98} && QuarterDays(year, 3) in {91, 98};
  }

  /** In a month calendar it is twelve months. */
  lemma {:induction false} AnnualBridgeInMonths(years: seq<FiscalYear>, annual: Source, current: Source, prior: Source)
    requires ValidYears(years) && ValidSource(annual) && ValidSource(current) && ValidSource(prior) && OneSupportedKind(years)
    requires AnnualBridge(Some(years), annual, current, prior) && years[0].kind.Months?
    ensures IsMonthEnd(prior.end) && IsMonthEnd(current.end) && MonthIndex(current.end) - MonthIndex(prior.end) == 12
  {
    hide Ordinal, NextDay, Labels, Supported, IsMonthEnd, MonthIndex;
    var y: nat, q: nat :| q < 3 && Labels(years, annual, true, y, 3) && Labels(years, prior, true, y, q) && Labels(years, current, true, y + 1, q);
    YtdInMonths(years, annual, y, 3);
    YtdInMonths(years, prior, y, q);
    YtdInMonths(years, current, y + 1, q);
    LabelStart(years, annual, y, 3);
    LabelStart(years, prior, y, q);
    AdjacentMonths(annual, current);
    SpanIs(annual);
    SpanIs(prior);
    SpanIs(current);
  }

  lemma {:induction false} SpanIs(s: Source)
    requires ValidSource(s) && MonthSpan(s).Some?
    ensures s.start.Some? && IsMonthEnd(s.end) && MonthSpan(s).value == MonthIndex(s.end) - MonthIndex(s.start.value) + 1
  {
  }

  lemma {:induction false} YtdInMonths(years: seq<FiscalYear>, s: Source, y: nat, q: nat)
    requires ValidYears(years) && ValidSource(s) && OneSupportedKind(years) && years[0].kind.Months? && Labels(years, s, true, y, q)
    ensures MonthSpan(s) == Some(3 * (q + 1))
  {
    var year := years[y];
    assert ValidYear(year) && Supported(year) && year.kind.Months?;
    YearBounds(year, q);
    MonthsThrough(year, q);
    hide Ordinal;
  }

  lemma {:induction false} MonthsThrough(y: FiscalYear, q: nat)
    requires ValidYear(y) && Supported(y) && y.kind.Months? && q < 4
    ensures y.start.day == 1 && IsMonthEnd(y.ends[q]) && MonthIndex(y.ends[q]) - MonthIndex(y.start) + 1 == 3 * (q + 1)
  {
    assert QuarterStart(y, 0, false) == y.start;
    hide Ordinal, NextDay, MonthIndex, IsMonthEnd, DaysInMonth;
    if q > 0 {
      MonthsThrough(y, q - 1);
      NextMonthStart(y.ends[q - 1]);
      assert QuarterStart(y, q, false) == NextDay(y.ends[q - 1]);
    }
  }
}
