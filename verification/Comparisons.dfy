/**
 Year-on-year comparability under a reviewed fiscal calendar (packages/core/fiscal.py comparable): the
 same quarter, or the whole year, of two adjoining years.
 */
module Comparisons {
  import opened Common
  import opened Calendar
  import opened Periods

  function Days(s: Source): int
    requires ValidDate(s.end) && s.start.Some? && ValidDate(s.start.value)
  {
    Ordinal(s.end) - Ordinal(s.start.value)
  }

  /** Quarter q of years y - 1 and y, or for cumulative periods both whole years. */
  ghost predicate ComparableAs(years: seq<FiscalYear>, current: Source, prior: Source, cumulative: bool, y: nat, q: nat)
    requires ValidYears(years) && ValidSource(current) && ValidSource(prior)
  {
    && 0 < y && Labels(years, current, cumulative, y, q) && Labels(years, prior, cumulative, y - 1, q)
    && (cumulative ==> q == 3)
    && Ordinal(years[y - 1].ends[3]) + 1 == Ordinal(years[y].start)
    && years[y - 1].kind == years[y].kind
    && (years[y].kind.Weeks? ==> Days(current) == Days(prior))
  }

  method Comparable(years: seq<FiscalYear>, current: Source, prior: Source) returns (ok: bool)
    requires ValidYears(years) && ValidSource(current) && ValidSource(prior)
    ensures ok <==> exists cumulative: bool, y: nat, q: nat :: ComparableAs(years, current, prior, cumulative, y, q)
  {
    hide Labels, Ordinal, ValidSource;
    var quarterly := ComparableWith(years, current, prior, false);
    if quarterly {
      return true;
    }
    ok := ComparableWith(years, current, prior, true);
  }

  /** One turn of the loop over (False, True). */
  method ComparableWith(years: seq<FiscalYear>, current: Source, prior: Source, cumulative: bool) returns (ok: bool)
    requires ValidYears(years) && ValidSource(current) && ValidSource(prior)
    ensures ok <==> exists y: nat, q: nat :: ComparableAs(years, current, prior, cumulative, y, q)
  {
    hide Labels, Ordinal, QuarterStart, ValidDate;
    var c := Match(years, current, cumulative);
    var p := Match(years, prior, cumulative);
    if c.None? || p.None? || c.value.0 != p.value.0 + 1 || c.value.1 != p.value.1 {
      NotAsLabelled(years, current, prior, cumulative, c, p);
      return false;
    }
    var y, q := c.value.0, c.value.1 - 1;
    OnlyAs(years, current, prior, cumulative, y, q);
    if cumulative && c.value.1 != 4 {
      return false;
    }
    LabelledYears(years, current, prior, cumulative, y, q);
    if Ordinal(years[y - 1].ends[3]) + 1 != Ordinal(years[y].start) {
      return false;
    }
    if years[y - 1].kind != years[y].kind {
      return false;
    }
    if years[y].kind.Weeks? && Days(current) != Days(prior) {
      return false;
    }
    assert ComparableAs(years, current, prior, cumulative, y, q);
    return true;
  }

  lemma {:induction false} LabelledYears(years: seq<FiscalYear>, current: Source, prior: Source, cumulative: bool, y: nat, q: nat)
    requires ValidYears(years) && 0 < y && Labels(years, current, cumulative, y, q) && Labels(years, prior, cumulative, y - 1, q)
    ensures y < |years| && ValidYear(years[y]) && ValidYear(years[y - 1]) && current.start.Some? && prior.start.Some?
  {
    hide Ordinal;
  }

  lemma {:induction false} OnlyAs(years: seq<FiscalYear>, current: Source, prior: Source, cumulative: bool, y: nat, q: nat)
    requires ValidYears(years) && ValidSource(current) && ValidSource(prior)
    requires Labels(years, current, cumulative, y, q)
    ensures forall z: nat, r: nat :: ComparableAs(years, current, prior, cumulative, z, r) ==> z == y && r == q
  {
    hide Labels;
    forall z: nat, r: nat | ComparableAs(years, current, prior, cumulative, z, r)
      ensures z == y && r == q
    {
      LabelUnique(years, current, cumulative, y, q, cumulative, z, r);
    }
  }

  lemma {:induction false} NotAsLabelled(years: seq<FiscalYear>, current: Source, prior: Source, cumulative: bool, c: Option<(nat, nat)>, p: Option<(nat, nat)>)
    requires ValidYears(years) && ValidSource(current) && ValidSource(prior)
    requires if c.Some? then 1 <= c.value.1 <= 4 && Labels(years, current, cumulative, c.value.0, c.value.1 - 1)
             else forall y: nat, q: nat :: !Labels(years, current, cumulative, y, q)
    requires if p.Some? then 1 <= p.value.1 <= 4 && Labels(years, prior, cumulative, p.value.0, p.value.1 - 1)
             else forall y: nat, q: nat :: !Labels(years, prior, cumulative, y, q)
    requires c.None? || p.None? || c.value.0 != p.value.0 + 1 || c.value.1 != p.value.1
    ensures forall y: nat, q: nat :: !ComparableAs(years, current, prior, cumulative, y, q)
  {
    hide Labels;
    if c.Some? && p.Some? {
      forall y: nat, q: nat | ComparableAs(years, current, prior, cumulative, y, q)
        ensures false
      {
        LabelUnique(years, current, cumulative, c.value.0, c.value.1 - 1, cumulative, y, q);
        LabelUnique(years, prior, cumulative, p.value.0, p.value.1 - 1, cumulative, y - 1, q);
      }
    }
  }

  /** Comparable periods are disjoint and equally long: the same number of days in a week calendar, three
      or twelve months in a month calendar. A 13-week quarter is never compared with a 14-week one. */
  lemma {:induction false} ComparableIsLikeForLike(years: seq<FiscalYear>, current: Source, prior: Source, cumulative: bool, y: nat, q: nat)
    requires ValidYears(years) && ValidSource(current) && ValidSource(prior) && ComparableAs(years, current, prior, cumulative, y, q)
    requires Supported(years[y]) && Supported(years[y - 1])
    ensures current.start.Some? && prior.start.Some? && Ordinal(prior.end) < Ordinal(current.start.value)
    ensures years[y].kind.Weeks? ==> Days(current) == Days(prior)
    ensures years[y].kind.Months? ==>
      var n := if cumulative then 12 else 3; MonthSpan(current) == Some(n) && MonthSpan(prior) == Some(n)
  {
    hide Ordinal, Supported, QuarterStart, MonthIndex, IsMonthEnd, ValidDate;
    PeriodInYear(years[y], q, cumulative);
    PeriodInYear(years[y - 1], q, cumulative);
  }

  lemma {:induction false} PeriodInYear(y: FiscalYear, q: nat, cumulative: bool)
    requires ValidYear(y) && q < 4 && (cumulative ==> q == 3)
    ensures Ordinal(y.start) <= Ordinal(QuarterStart(y, q, cumulative)) <= Ordinal(y.ends[q]) <= Ordinal(y.ends[3])
    ensures Supported(y) && y.kind.Months? ==>
      && QuarterStart(y, q, cumulative).day == 1 && IsMonthEnd(y.ends[q])
      && MonthIndex(y.ends[q]) - MonthIndex(QuarterStart(y, q, cumulative)) + 1 == (if cumulative then 12 else 3)
  {
    YearBounds(y, q);
    if Supported(y) {
      SupportedYearLength(y);
    }
    if q > 0 && !cumulative {
      NextDayFollows(y.ends[q - 1]);
      YearBounds(y, q - 1);
    }
    hide Ordinal, DaysInMonth, NextDay;
  }
}
