/**
 Period amounts assembled from reported flows (packages/core/periods.py and the reviewed fiscal
 calendars of packages/core/fiscal.py): four quarters, a year-to-date difference, and a year plus
 one year-to-date less another.
 */
module Periods {
  import opened Common
  import opened Calendar
  import D = Decimals
  import T = Powers

  datatype PeriodKind = Duration | Instant

  /** A selected flow; `error` is the absolute error of its precision evidence. */
  datatype Source = Source(
    kind: PeriodKind,
    start: Option<Date>,
    end: Date,
    value: Option<D.Decimal>,
    error: Option<D.Decimal>,
    capex: bool,
    editions: set<nat>)

  ghost predicate ValidSource(s: Source) {
    ValidDate(s.end) && (s.start.Some? ==> ValidDate(s.start.value)) && (s.error.Some? ==> s.error.value.coefficient >= 0)
  }

  ghost predicate ValidSources(sources: seq<Source>) {
    forall i :: 0 <= i < |sources| ==> ValidSource(sources[i])
  }

  /** The checks that decide whether an amount is formed; Policy stands for the remaining ones. */
  datatype Problem =
    | SourceUnavailable
    | FlowPeriodRequired
    | NegativeCapex
    | FourQuartersRequired
    | UnsupportedQuarter
    | NoncontiguousQuarters
    | IncompatibleYtd
    | IncompatibleEditions
    | IncompatibleAnnualYtd
    | UnsupportedRange
    | UnsupportedCalendar
    | Policy(code: nat)

  datatype Amount = Amount(value: Option<D.Decimal>, start: Option<Date>, end: Date, error: Option<D.Decimal>, problems: set<Problem>)

  /** A whole number of calendar months, first day to last day. */
  function MonthSpan(s: Source): Option<int>
    requires ValidDate(s.end) && (s.start.Some? ==> ValidDate(s.start.value))
  {
    if !s.kind.Duration? || s.start.None? || Ordinal(s.start.value) > Ordinal(s.end) || s.start.value.day != 1 || !IsMonthEnd(s.end)
    then None
    else Some(MonthIndex(s.end) - MonthIndex(s.start.value) + 1)
  }

  /** The part of _problems that the amounts rest on, added to the caller's policy findings. */
  function BaseProblems(sources: seq<Source>, policy: set<Problem>): set<Problem> {
    policy
    + (if exists i :: 0 <= i < |sources| && sources[i].value.None? then {SourceUnavailable} else {})
    + (if exists i :: 0 <= i < |sources| && (!sources[i].kind.Duration? || sources[i].start.None?) then {FlowPeriodRequired} else {})
    + (if exists i :: 0 <= i < |sources| && sources[i].capex && sources[i].value.Some? && sources[i].value.value.coefficient < 0
       then {NegativeCapex} else {})
  }

  // ----- reviewed fiscal calendars

  datatype YearKind = Months | Weeks | Transition

  datatype FiscalYear = FiscalYear(start: Date, ends: seq<Date>, kind: YearKind)

  /** Four ordered quarter ends, none before the start. */
  ghost predicate ValidYear(y: FiscalYear) {
    && ValidDate(y.start) && |y.ends| == 4
    && (forall q :: 0 <= q < 4 ==> ValidDate(y.ends[q]))
    && Ordinal(y.start) <= Ordinal(y.ends[0])
    && (forall q, r :: 0 <= q < r < 4 ==> Ordinal(y.ends[q]) < Ordinal(y.ends[r]))
  }

  /** Years in order, each ending before the next begins. */
  ghost predicate ValidYears(years: seq<FiscalYear>) {
    && (forall i :: 0 <= i < |years| ==> ValidYear(years[i]))
    && (forall i, j :: 0 <= i < j < |years| ==> Ordinal(years[i].ends[3]) < Ordinal(years[j].start))
  }

  function QuarterStart(y: FiscalYear, q: nat, cumulative: bool): Date
    requires q < |y.ends| && (q > 0 ==> ValidDate(y.ends[q - 1]))
  {
    if cumulative || q == 0 then y.start else NextDay(y.ends[q - 1])
  }

  /** The source covers quarter q of year y, or the year to that quarter's end. */
  ghost predicate Labels(years: seq<FiscalYear>, s: Source, cumulative: bool, y: nat, q: nat)
    requires ValidYears(years)
  {
    && s.kind.Duration? && y < |years| && q < 4
    && s.start == Some(QuarterStart(years[y], q, cumulative)) && s.end == years[y].ends[q]
  }

  /** The search of FiscalCalendarEvidence.match, with quarters counted from one as there. */
  method Match(years: seq<FiscalYear>, s: Source, cumulative: bool) returns (m: Option<(nat, nat)>)
    requires ValidYears(years)
    ensures m.Some? ==> 1 <= m.value.1 <= 4 && Labels(years, s, cumulative, m.value.0, m.value.1 - 1)
    ensures m.None? ==> forall y: nat, q: nat :: !Labels(years, s, cumulative, y, q)
  {
    hide Ordinal, NextDay;
    if !s.kind.Duration? {
      return None;
    }
    for y := 0 to |years|
      invariant forall i: nat, q: nat :: i < y ==> !Labels(years, s, cumulative, i, q)
    {
      for q := 0 to 4
        invariant forall k: nat :: k < q ==> !Labels(years, s, cumulative, y, k)
      {
        if s.start == Some(QuarterStart(years[y], q, cumulative)) && s.end == years[y].ends[q] {
          return Some((y, q + 1));
        }
      }
    }
    return None;
  }

  /** A reviewed label is unique: the end of a period names its year and quarter. */
  lemma {:induction false} LabelUnique(years: seq<FiscalYear>, s: Source, c: bool, y: nat, q: nat, d: bool, z: nat, r: nat)
    requires ValidYears(years) && Labels(years, s, c, y, q) && Labels(years, s, d, z, r)
    ensures y == z && q == r
  {
    assert ValidYear(years[y]) && ValidYear(years[z]);
    YearBounds(years[y], q);
    YearBounds(years[z], r);
  }

  lemma {:induction false} YearBounds(y: FiscalYear, q: nat)
    requires ValidYear(y) && q < 4
    ensures Ordinal(y.start) <= Ordinal(y.ends[q]) <= Ordinal(y.ends[3])
  {
  }

  /** FiscalYear.supported: whole quarters of three months, or of 13 weeks with at most one of 14. */
  predicate Supported(y: FiscalYear)
    requires |y.ends| == 4 && ValidDate(y.start) && forall q :: 0 <= q < 4 ==> ValidDate(y.ends[q])
  {
    match y.kind
    case Transition => false
    case Weeks =>
      && (forall q :: 0 <= q < 4 ==> QuarterDays(y, q) in {91, 98})
      && QuarterDays(y, 0) + QuarterDays(y, 1) + QuarterDays(y, 2) + QuarterDays(y, 3) in {364, 371}
    case Months =>
      forall q :: 0 <= q < 4 ==>
        var start := QuarterStart(y, q, false);
        start.day == 1 && IsMonthEnd(y.ends[q]) && MonthIndex(y.ends[q]) - MonthIndex(start) + 1 == 3
  }

  /** The reviewed years are all supported and all of one kind. */
  predicate OneSupportedKind(years: seq<FiscalYear>)
    requires ValidYears(years)
  {
    years != [] && forall i :: 0 <= i < |years| ==> Supported(years[i]) && years[i].kind == years[0].kind
  }

  /** What the reviewed calendar itself adds to the problems. */
  function CalendarProblems(evidence: Option<seq<FiscalYear>>): set<Problem>
    requires evidence.Some? ==> ValidYears(evidence.value)
  {
    if evidence.Some? && !OneSupportedKind(evidence.value) then {UnsupportedCalendar} else {}
  }

  function QuarterDays(y: FiscalYear, q: nat): int
    requires |y.ends| == 4 && q < 4 && ValidDate(y.start) && forall i :: 0 <= i < 4 ==> ValidDate(y.ends[i])
  {
    Ordinal(y.ends[q]) - Ordinal(QuarterStart(y, q, false)) + 1
  }

  /** A supported year is exactly twelve calendar months, or 52 or 53 whole weeks. */
  lemma {:induction false} SupportedYearLength(y: FiscalYear)
    requires ValidYear(y) && Supported(y)
    ensures y.kind.Months? ==> y.start.day == 1 && IsMonthEnd(y.ends[3]) && MonthIndex(y.ends[3]) - MonthIndex(y.start) + 1 == 12
    ensures y.kind.Weeks? ==> var days := Ordinal(y.ends[3]) - Ordinal(y.start) + 1; days == 52 * 7 || days == 53 * 7
  {
    hide Ordinal, FirstOf, LastOf, DaysInMonth;
    forall q | 1 <= q < 4
      ensures Ordinal(QuarterStart(y, q, false)) == Ordinal(y.ends[q - 1]) + 1
      ensures y.kind.Months? ==> MonthIndex(QuarterStart(y, q, false)) == MonthIndex(y.ends[q - 1]) + 1
    {
      NextDayFollows(y.ends[q - 1]);
    }
    if y.kind.Months? {
      assert MonthIndex(y.ends[0]) - MonthIndex(QuarterStart(y, 0, false)) + 1 == 3;
      assert MonthIndex(y.ends[1]) - MonthIndex(QuarterStart(y, 1, false)) + 1 == 3;
      assert MonthIndex(y.ends[2]) - MonthIndex(QuarterStart(y, 2, false)) + 1 == 3;
      assert MonthIndex(y.ends[3]) - MonthIndex(QuarterStart(y, 3, false)) + 1 == 3;
      assert QuarterStart(y, 0, false).day == 1;
    }
  }

  // ----- sums

  function ValuesOf(sources: seq<Source>): (v: seq<D.Decimal>)
    requires forall i :: 0 <= i < |sources| ==> sources[i].value.Some?
    ensures |v| == |sources| && forall i :: 0 <= i < |v| ==> v[i] == sources[i].value.value
  {
    seq(|sources|, i requires 0 <= i < |sources| => sources[i].value.value)
  }

  function ErrorsOf(sources: seq<Source>): (v: seq<D.Decimal>)
    requires forall i :: 0 <= i < |sources| ==> sources[i].error.Some?
    ensures |v| == |sources| && forall i :: 0 <= i < |v| ==> v[i] == sources[i].error.value
  {
    seq(|sources|, i requires 0 <= i < |sources| => sources[i].error.value)
  }

  function SignedValues(sources: seq<Source>, coefficients: seq<int>): real
    requires |sources| == |coefficients| && forall i :: 0 <= i < |sources| ==> sources[i].value.Some?
  {
    T.SignedSum(ValuesOf(sources), coefficients)
  }

  function Errors(sources: seq<Source>): real
    requires forall i :: 0 <= i < |sources| ==> sources[i].error.Some?
  {
    T.SignedSum(ErrorsOf(sources), Ones(|sources|))
  }

  predicate AllErrorsKnown(sources: seq<Source>) {
    forall i :: 0 <= i < |sources| ==> sources[i].error.Some?
  }

  /** Every operand of the two exact sums is within the digit and exponent limits. */
  predicate OperandsInRange(sources: seq<Source>) {
    && (forall i :: 0 <= i < |sources| && sources[i].value.Some? ==> D.InRange(sources[i].value.value))
    && (AllErrorsKnown(sources) ==> forall i :: 0 <= i < |sources| ==> D.InRange(sources[i].error.value))
  }

  /** Capital expenditure must not come out negative. */
  predicate SignAllowed(sources: seq<Source>, coefficients: seq<int>)
    requires |sources| == |coefficients| && sources != [] && forall i :: 0 <= i < |sources| ==> sources[i].value.Some?
  {
    sources[0].capex ==> SignedValues(sources, coefficients) >= 0.0
  }

  /** The last condition for an amount: operands in range, and no negative capital expenditure. */
  ghost predicate Summable(sources: seq<Source>, coefficients: seq<int>)
    requires |sources| == |coefficients| && sources != []
  {
    (forall i :: 0 <= i < |sources| ==> sources[i].value.Some?) && OperandsInRange(sources) && SignAllowed(sources, coefficients)
  }

  /** The amount carries the exact signed sum and, when every error is known, the exact sum of errors. */
  ghost predicate Sums(sources: seq<Source>, coefficients: seq<int>, a: Amount)
    requires |sources| == |coefficients|
  {
    && a.value.Some? && (forall i :: 0 <= i < |sources| ==> sources[i].value.Some?)
    && T.Value(a.value.value) == SignedValues(sources, coefficients)
    && (if AllErrorsKnown(sources) then a.error.Some? && T.Value(a.error.value) == Errors(sources) else a.error.None?)
  }

  /** The common tail: no amount while a problem remains; otherwise the signed sum and summed error, exactly,
      or none when an operand is out of range or capital expenditure comes out negative. */
  method Assemble(sources: seq<Source>, coefficients: seq<int>, start: Option<Date>, end: Date, problems: set<Problem>)
    returns (a: Amount)
    requires |sources| == |coefficients| && sources != []
    requires problems == {} ==> |sources| <= 1000 && forall i :: 0 <= i < |sources| ==> sources[i].value.Some?
    ensures problems <= a.problems && (a.value.Some? ==> a.problems == {})
    ensures a.start == start && a.end == end
    ensures a.value.Some? ==> Sums(sources, coefficients, a)
    ensures a.value.Some? <==> problems == {} && OperandsInRange(sources) && SignAllowed(sources, coefficients)
  {
    hide D.InRange, D.SumUnits, D.MinExponent, T.Value, T.SignedSum;
    a := Amount(None, start, end, None, problems);
    if problems != {} {
      return;
    }
    var values := ValuesOf(sources);
    var total := D.ExactSum(values, coefficients);
    var error := None;
    if AllErrorsKnown(sources) {
      error := D.ExactSum(ErrorsOf(sources), Ones(|sources|));
    }
    if total.None? || (AllErrorsKnown(sources) && error.None?) {
      return a.(problems := {UnsupportedRange});
    }
    SumValue(values, coefficients, total.value);
    if error.Some? {
      SumValue(ErrorsOf(sources), Ones(|sources|), error.value);
    }
    SignOfValue(total.value);
    if sources[0].capex && total.value.coefficient < 0 {
      return a.(error := error, problems := {NegativeCapex});
    }
    a := a.(value := total, error := error);
  }

  /** The exact sum has the value of the sum. */
  lemma {:induction false} SumValue(values: seq<D.Decimal>, coefficients: seq<int>, sum: D.Decimal)
    requires |values| == |coefficients| && values != []
    requires sum == D.Decimal(D.SumUnits(values, coefficients, D.MinExponent(values)), D.MinExponent(values))
    ensures T.Value(sum) == T.SignedSum(values, coefficients)
  {
    hide D.SumUnits, D.MinExponent, T.SignedSum;
    T.UnitsAddUp(values, coefficients, D.MinExponent(values));
  }

  lemma {:induction false} SignOfValue(d: D.Decimal)
    ensures d.coefficient >= 0 <==> T.Value(d) >= 0.0
  {
    hide T.Ten;
    var t, c := T.Ten(d.exponent), d.coefficient as real;
    if d.coefficient >= 0 {
      TimesMonotone(0.0, c, t);
    } else {
      TimesStrict(c, 0.0, t);
    }
    assert Times(0.0, t) == 0.0;
  }

  // ----- the meaning of an amount

  /** What a daily flow accumulates from day a to day b. */
  ghost function Flow(f: int -> real, a: int, b: int): real
    decreases b - a + 1
  {
    if b < a then 0.0 else Flow(f, a, b - 1) + f(b)
  }

  lemma {:induction false} FlowSplits(f: int -> real, a: int, b: int, c: int)
    requires a <= b + 1 && b <= c
    ensures Flow(f, a, c) == Flow(f, a, b) + Flow(f, b + 1, c)
    decreases c - b
  {
    if b < c {
      FlowSplits(f, a, b, c - 1);
    }
  }

  ghost function Reported(f: int -> real, s: Source): real
    requires ValidSource(s) && s.start.Some?
  {
    Flow(f, Ordinal(s.start.value), Ordinal(s.end))
  }

  /** The source is within its stated error of the flow over its own period. */
  ghost predicate Faithful(f: int -> real, s: Source)
    requires ValidSource(s)
  {
    s.value.Some? && s.error.Some? && s.start.Some? && Abs(T.Value(s.value.value) - Reported(f, s)) <= T.Value(s.error.value)
  }

  ghost predicate AllFaithful(f: int -> real, sources: seq<Source>)
    requires ValidSources(sources)
  {
    forall i :: 0 <= i < |sources| ==> Faithful(f, sources[i])
  }

  /** The amount is within its stated error of the flow over its reported window. */
  ghost predicate Describes(f: int -> real, a: Amount) {
    && a.value.Some? && a.error.Some? && a.start.Some? && ValidDate(a.start.value) && ValidDate(a.end)
    && Abs(T.Value(a.value.value) - Flow(f, Ordinal(a.start.value), Ordinal(a.end))) <= T.Value(a.error.value)
  }

  /** Every formed amount describes every flow that its sources report faithfully. */
  ghost predicate Telescopes(sources: seq<Source>, a: Amount)
    requires ValidSources(sources)
  {
    a.value.Some? ==> forall f: int -> real :: AllFaithful(f, sources) ==> Describes(f, a)
  }

  ghost function SignedFlows(f: int -> real, sources: seq<Source>, coefficients: seq<int>): real
    requires |sources| == |coefficients| && ValidSources(sources)
    requires forall i :: 0 <= i < |sources| ==> sources[i].start.Some?
  {
    if sources == [] then 0.0 else
      var n := |sources| - 1;
      SignedFlows(f, sources[..n], coefficients[..n]) + (if coefficients[n] == 1 then Reported(f, sources[n]) else -Reported(f, sources[n]))
  }

  /** Signs do not matter to the error: absolute errors add. */
  lemma {:induction false} ErrorsAdd(f: int -> real, sources: seq<Source>, coefficients: seq<int>)
    requires |sources| == |coefficients| && ValidSources(sources) && AllFaithful(f, sources)
    ensures forall i :: 0 <= i < |sources| ==> sources[i].start.Some? && sources[i].value.Some? && sources[i].error.Some?
    ensures Abs(SignedValues(sources, coefficients) - SignedFlows(f, sources, coefficients)) <= Errors(sources)
  {
    hide Reported, T.Value;
    if sources != [] {
      var n := |sources| - 1;
      var front := sources[..n];
      assert forall i :: 0 <= i < n ==> front[i] == sources[i];
      assert Faithful(f, sources[n]);
      ErrorsAdd(f, front, coefficients[..n]);
      assert ValuesOf(sources)[..n] == ValuesOf(front) && ErrorsOf(sources)[..n] == ErrorsOf(front);
      OnesFront(n);
    }
  }

  /** Joins the two: an assembled amount whose signed flows make up the window describes it. */
  lemma {:induction false} WindowDescribed(f: int -> real, sources: seq<Source>, coefficients: seq<int>, a: Amount)
    requires |sources| == |coefficients| && ValidSources(sources) && AllFaithful(f, sources)
    requires forall i :: 0 <= i < |sources| ==> sources[i].start.Some? && sources[i].value.Some?
    requires Sums(sources, coefficients, a)
    requires a.start.Some? && ValidDate(a.start.value) && ValidDate(a.end)
    requires SignedFlows(f, sources, coefficients) == Flow(f, Ordinal(a.start.value), Ordinal(a.end))
    ensures Describes(f, a)
  {
    hide Flow, Reported, SignedFlows, SignedValues, Errors, T.Value;
    ErrorsAdd(f, sources, coefficients);
  }

  // ----- four quarters

  /** The second source starts the day after the first one ends. */
  predicate Adjoins(s: Source, t: Source)
    requires ValidDate(s.end) && (t.start.Some? ==> ValidDate(t.start.value))
  {
    t.start.Some? && Ordinal(s.end) + 1 == Ordinal(t.start.value)
  }

  ghost predicate Forward(s: Source)
    requires ValidSource(s)
  {
    s.start.Some? && Ordinal(s.start.value) <= Ordinal(s.end)
  }

  ghost predicate Contiguous(sources: seq<Source>)
    requires ValidSources(sources)
  {
    && (forall i :: 0 <= i < |sources| ==> Forward(sources[i]))
    && (forall i :: 0 < i < |sources| ==> Adjoins(sources[i - 1], sources[i]))
  }

  function Ones(n: nat): (s: seq<int>)
    ensures |s| == n && forall i :: 0 <= i < n ==> s[i] == 1
  {
    seq(n, _ => 1)
  }

  /** Adjacent periods add up to the period they span, however many there are. */
  lemma {:induction false} ContiguousFlows(f: int -> real, sources: seq<Source>)
    requires sources != [] && ValidSources(sources) && Contiguous(sources)
    ensures Ordinal(sources[0].start.value) <= Ordinal(sources[|sources| - 1].end)
    ensures SignedFlows(f, sources, Ones(|sources|)) == Flow(f, Ordinal(sources[0].start.value), Ordinal(sources[|sources| - 1].end))
  {
    hide Ordinal, Flow, Forward, Adjoins;
    var n := |sources| - 1;
    var front, last := sources[..n], sources[n];
    assert forall i :: 0 <= i < n ==> front[i] == sources[i];
    OnesFront(n);
    ForwardStarts(sources);
    if n == 0 {
      assert SignedFlows(f, front, Ones(0)) == 0.0;
    } else {
      ContiguousFlows(f, front);
      assert front[|front| - 1] == sources[n - 1];
      SpanGrows(f, sources[0], sources[n - 1], last);
    }
  }

  lemma {:induction false} OnesFront(n: nat)
    ensures Ones(n + 1)[..n] == Ones(n)
  {
  }

  lemma {:induction false} ForwardStarts(sources: seq<Source>)
    requires ValidSources(sources) && Contiguous(sources)
    ensures forall i :: 0 <= i < |sources| ==> sources[i].start.Some? && Ordinal(sources[i].start.value) <= Ordinal(sources[i].end)
  {
    hide Ordinal;
    forall i | 0 <= i < |sources|
      ensures sources[i].start.Some? && Ordinal(sources[i].start.value) <= Ordinal(sources[i].end)
    {
      assert Forward(sources[i]);
    }
  }

  lemma {:induction false} SpanGrows(f: int -> real, first: Source, s: Source, t: Source)
    requires ValidSource(first) && ValidSource(s) && ValidSource(t) && Adjoins(s, t) && Forward(t)
    requires first.start.Some? && Ordinal(first.start.value) <= Ordinal(s.end)
    ensures Ordinal(first.start.value) <= Ordinal(t.end)
    ensures Flow(f, Ordinal(first.start.value), Ordinal(s.end)) + Reported(f, t) == Flow(f, Ordinal(first.start.value), Ordinal(t.end))
  {
    hide Ordinal, Flow;
    FlowSplits(f, Ordinal(first.start.value), Ordinal(s.end), Ordinal(t.end));
  }

  /** The window runs from the first day of a month to the last day of the n-th month. */
  ghost predicate WholeMonths(a: Amount, n: int) {
    a.start.Some? && a.start.value.day == 1 && IsMonthEnd(a.end) && MonthIndex(a.end) - MonthIndex(a.start.value) + 1 == n
  }

  predicate QuarterMonth(s: Source) {
    s.start.Some? && s.start.value.month in {1, 4, 7, 10}
  }

  method TtmFromQuarters(sources: seq<Source>, policy: set<Problem>, evidence: Option<seq<FiscalYear>>) returns (a: Amount)
    requires sources != [] && ValidSources(sources) && (evidence.Some? ==> ValidYears(evidence.value))
    ensures a.start == sources[0].start && a.end == sources[|sources| - 1].end
    ensures Telescopes(sources, a) && (a.value.Some? ==> Sums(sources, Ones(|sources|), a))
    ensures a.value.Some? <==>
              && BaseProblems(sources, policy) == {} && CalendarProblems(evidence) == {} && |sources| == 4
              && (forall i :: 0 <= i < 4 ==> QuarterSupported(evidence, sources[i]))
              && (forall i :: 0 < i < 4 ==> Adjoins(sources[i - 1], sources[i]))
              && Summable(sources, Ones(4))
    ensures a.value.Some? ==>
              && CalendarProblems(evidence) == {} && |sources| == 4
              && (forall i :: 0 <= i < 4 ==> QuarterSupported(evidence, sources[i]))
              && (forall i :: 0 < i < 4 ==> Adjoins(sources[i - 1], sources[i]))
    ensures a.value.Some? && evidence.None? ==> WholeMonths(a, 12)
  {
    hide Ordinal, NextDay, Describes, DaysInMonth, SignedFlows, SignedValues, Errors, Flow, OperandsInRange, Sums, QuarterSupported, MonthSpan, Adjoins, Forward,
      AllFaithful, CalendarProblems;
    var problems := BaseProblems(sources, policy) + CalendarProblems(evidence);
    if |sources| != 4 {
      problems := problems + {FourQuartersRequired};
    }
    var supported := AllSupported(sources, evidence);
    if !supported {
      problems := problems + {UnsupportedQuarter};
    }
    if problems == {} {
      var contiguous := AllAdjoin(sources);
      if !contiguous {
        problems := problems + {NoncontiguousQuarters};
      }
    }
    a := Assemble(sources, Ones(|sources|), sources[0].start, sources[|sources| - 1].end, problems);
    if a.value.Some? {
      forall i | 0 <= i < |sources|
        ensures Forward(sources[i])
      {
        SupportedQuarterOrdered(evidence, sources[i]);
      }
      ForwardStarts(sources);
      forall f: int -> real | AllFaithful(f, sources)
        ensures Describes(f, a)
      {
        ContiguousFlows(f, sources);
        WindowDescribed(f, sources, Ones(|sources|), a);
      }
      if evidence.None? {
        FourMonthQuarters(sources, a);
      }
    }
  }

  method AllSupported(sources: seq<Source>, evidence: Option<seq<FiscalYear>>) returns (ok: bool)
    requires ValidSources(sources) && (evidence.Some? ==> ValidYears(evidence.value))
    ensures ok <==> forall i :: 0 <= i < |sources| ==> QuarterSupported(evidence, sources[i])
  {
    hide Ordinal, NextDay, MonthSpan;
    ok := true;
    for i := 0 to |sources|
      invariant ok <==> forall j :: 0 <= j < i ==> QuarterSupported(evidence, sources[j])
    {
      if evidence.Some? {
        var m := Match(evidence.value, sources[i], false);
        ok := ok && m.Some?;
      } else {
        ok := ok && MonthSpan(sources[i]) == Some(3) && QuarterMonth(sources[i]);
      }
    }
  }

  method AllAdjoin(sources: seq<Source>) returns (ok: bool)
    requires ValidSources(sources)
    ensures ok <==> forall i :: 0 < i < |sources| ==> Adjoins(sources[i - 1], sources[i])
  {
    hide Adjoins;
    ok := true;
    var i := 1;
    while i < |sources|
      invariant 1 <= i && (ok <==> forall j :: 0 < j < i && j < |sources| ==> Adjoins(sources[j - 1], sources[j]))
    {
      ok := ok && Adjoins(sources[i - 1], sources[i]);
      i := i + 1;
    }
  }

  lemma {:induction false} FourMonthQuarters(sources: seq<Source>, a: Amount)
    requires |sources| == 4 && ValidSources(sources) && Contiguous(sources)
    requires forall i :: 0 <= i < 4 ==> QuarterSupported(None, sources[i])
    requires a.start == sources[0].start && a.end == sources[3].end
    ensures WholeMonths(a, 12)
  {
    hide Ordinal;
    assert Adjoins(sources[0], sources[1]) && Adjoins(sources[1], sources[2]) && Adjoins(sources[2], sources[3]);
    assert QuarterSupported(None, sources[0]) && QuarterSupported(None, sources[1]);
    assert QuarterSupported(None, sources[2]) && QuarterSupported(None, sources[3]);
    AdjacentMonths(sources[0], sources[1]);
    AdjacentMonths(sources[1], sources[2]);
    AdjacentMonths(sources[2], sources[3]);
  }

  ghost predicate QuarterSupported(evidence: Option<seq<FiscalYear>>, s: Source)
    requires ValidSource(s) && (evidence.Some? ==> ValidYears(evidence.value))
  {
    if evidence.Some? then exists y: nat, q: nat :: Labels(evidence.value, s, false, y, q)
    else MonthSpan(s) == Some(3) && QuarterMonth(s)
  }

  lemma {:induction false} SupportedQuarterOrdered(evidence: Option<seq<FiscalYear>>, s: Source)
    requires ValidSource(s) && (evidence.Some? ==> ValidYears(evidence.value)) && QuarterSupported(evidence, s)
    ensures Forward(s)
  {
    hide Ordinal, NextDay;
    if evidence.Some? {
      var y: nat, q: nat :| Labels(evidence.value, s, false, y, q);
      LabelOrdered(evidence.value, s, false, y, q);
    }
  }

  lemma {:induction false} LabelOrdered(years: seq<FiscalYear>, s: Source, cumulative: bool, y: nat, q: nat)
    requires ValidYears(years) && Labels(years, s, cumulative, y, q)
    ensures Ordinal(s.start.value) <= Ordinal(s.end)
  {
    hide Ordinal, NextDay;
    var year := years[y];
    assert ValidYear(year);
    if q > 0 {
      NextDayFollows(year.ends[q - 1]);
      assert Ordinal(year.ends[q - 1]) < Ordinal(year.ends[q]);
      YearBounds(year, q);
    }
  }

  /** A month end followed by the next day's start is followed by the next month. */
  lemma {:induction false} AdjacentMonths(s: Source, t: Source)
    requires ValidSource(s) && ValidSource(t) && MonthSpan(s).Some? && MonthSpan(t).Some?
    requires Ordinal(s.end) + 1 == Ordinal(t.start.value)
    ensures MonthIndex(t.start.value) == MonthIndex(s.end) + 1
  {
    hide Ordinal, FirstOf, LastOf, DaysInMonth;
    MonthEndIsLast(s.end);
    MonthStartIsFirst(t.start.value);
    MonthsAdjoin(MonthIndex(s.end));
    MonthStartUnique(MonthIndex(s.end) + 1, MonthIndex(t.start.value));
  }

  lemma {:induction false} MonthStartIsFirst(d: Date)
    requires ValidDate(d) && d.day == 1
    ensures MonthIndex(d) >= 12 && d == FirstOf(MonthIndex(d))
  {
    var m := MonthIndex(d);
    assert m / 12 == d.year && m % 12 + 1 == d.month;
  }

  lemma {:induction false} MonthEndsGrow(a: int, b: int)
    requires 12 <= a < b
    ensures Ordinal(LastOf(a)) < Ordinal(LastOf(b))
  {
    hide Ordinal, FirstOf, LastOf;
    MonthsAdjoin(a);
    MonthsAdjoin(b);
    MonthStartsGrow(a + 1, b + 1);
  }

  lemma {:induction false} LaterMonthEnd(d: Date, e: Date)
    requires ValidDate(d) && ValidDate(e) && IsMonthEnd(d) && IsMonthEnd(e) && MonthIndex(d) < MonthIndex(e)
    ensures Ordinal(d) < Ordinal(e)
  {
    hide Ordinal, FirstOf, LastOf;
    MonthEndIsLast(d);
    MonthEndIsLast(e);
    MonthEndsGrow(MonthIndex(d), MonthIndex(e));
  }

  // ----- one quarter from two year-to-date amounts

  /** Same start, and the prior period ends before the current one. */
  ghost predicate Extends(current: Source, prior: Source)
    requires ValidSource(current) && ValidSource(prior)
  {
    && current.start.Some? && current.start == prior.start
    && Ordinal(prior.start.value) <= Ordinal(prior.end) < Ordinal(current.end)
  }

  lemma {:induction false} MonthsExtend(current: Source, prior: Source, months: int)
    requires ValidSource(current) && ValidSource(prior) && current.start == prior.start
    requires MonthSpan(current).Some? && MonthSpan(prior).Some?
    requires MonthSpan(current).value == MonthSpan(prior).value + months && months > 0
    ensures Extends(current, prior)
  {
    hide Ordinal;
    LaterMonthEnd(prior.end, current.end);
  }

  lemma {:induction false} LabelsExtend(years: seq<FiscalYear>, current: Source, prior: Source, y: nat, q: nat, r: nat)
    requires ValidYears(years) && ValidSource(current) && ValidSource(prior)
    requires Labels(years, current, true, y, q) && Labels(years, prior, true, y, r) && r < q
    ensures Extends(current, prior)
  {
    hide Ordinal, NextDay;
    assert ValidYear(years[y]);
    LabelOrdered(years, prior, true, y, r);
  }

  /** Consecutive year-to-date periods of one year, under either gate. */
  ghost predicate ConsecutiveYtd(evidence: Option<seq<FiscalYear>>, current: Source, prior: Source)
    requires ValidSource(current) && ValidSource(prior) && (evidence.Some? ==> ValidYears(evidence.value))
  {
    if evidence.Some? then
      exists y: nat, q: nat :: Labels(evidence.value, prior, true, y, q) && Labels(evidence.value, current, true, y, q + 1)
    else
      var c, p := MonthSpan(current), MonthSpan(prior);
      c.Some? && p.Some? && c.value in {6, 9, 12} && p.value in {3, 6, 9} && c.value - p.value == 3 && current.start == prior.start
  }

  method YtdFits(evidence: Option<seq<FiscalYear>>, current: Source, prior: Source) returns (valid: bool)
    requires ValidSource(current) && ValidSource(prior) && (evidence.Some? ==> ValidYears(evidence.value))
    ensures valid <==> ConsecutiveYtd(evidence, current, prior)
  {
    hide Ordinal, NextDay, Labels, MonthSpan;
    if evidence.Some? {
      var c := Match(evidence.value, current, true);
      var p := Match(evidence.value, prior, true);
      valid := c.Some? && p.Some? && c.value.0 == p.value.0 && c.value.1 == p.value.1 + 1;
      if valid {
        assert Labels(evidence.value, current, true, p.value.0, (p.value.1 - 1) + 1);
      } else if c.Some? && p.Some? {
        forall y: nat, q: nat | Labels(evidence.value, prior, true, y, q)
          ensures !Labels(evidence.value, current, true, y, q + 1)
        {
          LabelUnique(evidence.value, prior, true, y, q, true, p.value.0, p.value.1 - 1);
          if Labels(evidence.value, current, true, y, q + 1) {
            LabelUnique(evidence.value, current, true, y, q + 1, true, c.value.0, c.value.1 - 1);
          }
        }
      }
    } else {
      var c, p := MonthSpan(current), MonthSpan(prior);
      valid := c.Some? && p.Some? && c.value in {6, 9, 12} && p.value in {3, 6, 9} && c.value - p.value == 3 && current.start == prior.start;
    }
  }

  lemma {:induction false} ConsecutiveExtends(evidence: Option<seq<FiscalYear>>, current: Source, prior: Source)
    requires ValidSource(current) && ValidSource(prior) && (evidence.Some? ==> ValidYears(evidence.value))
    requires ConsecutiveYtd(evidence, current, prior)
    ensures Extends(current, prior)
  {
    hide Ordinal, NextDay;
    if evidence.Some? {
      var y: nat, q: nat :| Labels(evidence.value, prior, true, y, q) && Labels(evidence.value, current, true, y, q + 1);
      LabelsExtend(evidence.value, current, prior, y, q + 1, q);
    } else {
      MonthsExtend(current, prior, 3);
    }
  }

  method QuarterFromYtd(current: Source, prior: Source, policy: set<Problem>, evidence: Option<seq<FiscalYear>>)
    returns (a: Amount)
    requires ValidSource(current) && ValidSource(prior) && (evidence.Some? ==> ValidYears(evidence.value))
    ensures a.end == current.end
    ensures Telescopes([current, prior], a) && (a.value.Some? ==> Sums([current, prior], [1, -1], a))
    ensures a.value.Some? <==>
              && BaseProblems([current, prior], policy) == {} && CalendarProblems(evidence) == {}
              && current.editions == prior.editions && ConsecutiveYtd(evidence, current, prior) && Summable([current, prior], [1, -1])
    ensures a.value.Some? ==> current.editions == prior.editions && a.start == Some(NextDay(prior.end))
    ensures a.value.Some? ==> CalendarProblems(evidence) == {} && ConsecutiveYtd(evidence, current, prior)
    ensures a.value.Some? && evidence.None? ==> WholeMonths(a, 3)
  {
    hide Ordinal, NextDay, Describes, DaysInMonth, SignedFlows, SignedValues, Errors, Flow, OperandsInRange, Sums, CalendarProblems;
    var sources := [current, prior];
    var problems := BaseProblems(sources, policy) + CalendarProblems(evidence);
    var valid := YtdFits(evidence, current, prior);
    if valid {
      ConsecutiveExtends(evidence, current, prior);
    }
    if !valid {
      problems := problems + {IncompatibleYtd};
    }
    if current.editions != prior.editions {
      problems := problems + {IncompatibleEditions};
    }
    var start := if valid then Some(NextDay(prior.end)) else None;
    a := Assemble(sources, [1, -1], start, current.end, problems);
    if a.value.Some? {
      forall f: int -> real | AllFaithful(f, sources)
        ensures Describes(f, a)
      {
        DifferenceFlows(f, current, prior);
        WindowDescribed(f, sources, [1, -1], a);
      }
      if evidence.None? {
        NextMonthStart(prior.end);
      }
    }
  }

  lemma {:induction false} NextMonthStart(d: Date)
    requires ValidDate(d) && IsMonthEnd(d)
    ensures NextDay(d).day == 1 && MonthIndex(NextDay(d)) == MonthIndex(d) + 1
  {
    MonthEndIsLast(d);
  }

  lemma {:induction false} DifferenceFlows(f: int -> real, current: Source, prior: Source)
    requires ValidSource(current) && ValidSource(prior) && ValidSources([current, prior]) && Extends(current, prior)
    ensures SignedFlows(f, [current, prior], [1, -1]) == Flow(f, Ordinal(NextDay(prior.end)), Ordinal(current.end))
  {
    hide Ordinal, NextDay, Flow;
    NextDayFollows(prior.end);
    FlowSplits(f, Ordinal(prior.start.value), Ordinal(prior.end), Ordinal(current.end));
    assert [current, prior][..1] == [current] && [1, -1][..1] == [1] && [current][..0] == [] && [1][..0] == [];
    assert SignedFlows(f, [current], [1]) == Reported(f, current);
  }

  // ----- a year, plus the current year to date, less the prior one

  /** The prior year-to-date opens the annual period and the current one follows it. */
  ghost predicate Bridges(annual: Source, current: Source, prior: Source)
    requires ValidSource(annual) && ValidSource(current) && ValidSource(prior)
  {
    && Extends(annual, prior)
    && current.start.Some? && Ordinal(annual.end) + 1 == Ordinal(current.start.value) <= Ordinal(current.end)
  }

  /** A year, its own opening year-to-date and the next year's matching one, under either gate. */
  ghost predicate AnnualBridge(evidence: Option<seq<FiscalYear>>, annual: Source, current: Source, prior: Source)
    requires ValidSource(annual) && ValidSource(current) && ValidSource(prior) && (evidence.Some? ==> ValidYears(evidence.value))
  {
    if evidence.Some? then
      && Adjoins(annual, current)
      && exists y: nat, q: nat :: q < 3 && Labels(evidence.value, annual, true, y, 3) && Labels(evidence.value, prior, true, y, q)
                                   && Labels(evidence.value, current, true, y + 1, q)
    else
      var c := MonthSpan(current);
      MonthSpan(annual) == Some(12) && c.Some? && c.value in {3, 6, 9} && MonthSpan(prior) == c && prior.start == annual.start && Adjoins(annual, current)
  }

  method AnnualFits(evidence: Option<seq<FiscalYear>>, annual: Source, current: Source, prior: Source) returns (valid: bool)
    requires ValidSource(annual) && ValidSource(current) && ValidSource(prior) && (evidence.Some? ==> ValidYears(evidence.value))
    ensures valid <==> AnnualBridge(evidence, annual, current, prior)
  {
    hide Ordinal, NextDay, Labels, MonthSpan, Adjoins;
    if evidence.Some? {
      var a := Match(evidence.value, annual, true);
      var c := Match(evidence.value, current, true);
      var p := Match(evidence.value, prior, true);
      valid := a.Some? && c.Some? && p.Some? && a.value.1 == 4 && a.value.0 == p.value.0 && c.value.0 == a.value.0 + 1
        && c.value.1 == p.value.1 && c.value.1 in {1, 2, 3} && Adjoins(annual, current);
      if !valid && a.Some? && c.Some? && p.Some? && Adjoins(annual, current) {
        forall y: nat, q: nat | q < 3 && Labels(evidence.value, annual, true, y, 3) && Labels(evidence.value, prior, true, y, q)
          ensures !Labels(evidence.value, current, true, y + 1, q)
        {
          LabelUnique(evidence.value, annual, true, y, 3, true, a.value.0, a.value.1 - 1);
          LabelUnique(evidence.value, prior, true, y, q, true, p.value.0, p.value.1 - 1);
          if Labels(evidence.value, current, true, y + 1, q) {
            LabelUnique(evidence.value, current, true, y + 1, q, true, c.value.0, c.value.1 - 1);
          }
        }
      }
    } else {
      var c := MonthSpan(current);
      valid := MonthSpan(annual) == Some(12) && c.Some? && c.value in {3, 6, 9} && MonthSpan(prior) == c && prior.start == annual.start
        && Adjoins(annual, current);
    }
  }

  lemma {:induction false} AnnualBridges(evidence: Option<seq<FiscalYear>>, annual: Source, current: Source, prior: Source)
    requires ValidSource(annual) && ValidSource(current) && ValidSource(prior) && (evidence.Some? ==> ValidYears(evidence.value))
    requires AnnualBridge(evidence, annual, current, prior)
    ensures Bridges(annual, current, prior)
    ensures evidence.None? ==> IsMonthEnd(prior.end) && MonthIndex(current.end) - MonthIndex(prior.end) == 12
  {
    hide Ordinal, NextDay, DaysInMonth;
    if evidence.Some? {
      var y: nat, q: nat :| q < 3 && Labels(evidence.value, annual, true, y, 3) && Labels(evidence.value, prior, true, y, q)
                             && Labels(evidence.value, current, true, y + 1, q);
      LabelsExtend(evidence.value, annual, prior, y, 3, q);
      LabelOrdered(evidence.value, current, true, y + 1, q);
    } else {
      MonthsExtend(annual, prior, 12 - MonthSpan(current).value);
      AdjacentMonths(annual, current);
    }
  }

  method TtmFromAnnualYtd(annual: Source, current: Source, prior: Source, policy: set<Problem>, evidence: Option<seq<FiscalYear>>)
    returns (a: Amount)
    requires ValidSource(annual) && ValidSource(current) && ValidSource(prior) && (evidence.Some? ==> ValidYears(evidence.value))
    ensures a.end == current.end
    ensures Telescopes([annual, current, prior], a) && (a.value.Some? ==> Sums([annual, current, prior], [1, 1, -1], a))
    ensures a.value.Some? <==>
              && BaseProblems([annual, current, prior], policy) == {} && CalendarProblems(evidence) == {}
              && AnnualBridge(evidence, annual, current, prior) && Summable([annual, current, prior], [1, 1, -1])
    ensures a.value.Some? ==> a.start == Some(NextDay(prior.end))
    ensures a.value.Some? ==> CalendarProblems(evidence) == {} && AnnualBridge(evidence, annual, current, prior)
    ensures a.value.Some? && evidence.None? ==> WholeMonths(a, 12)
  {
    hide Ordinal, NextDay, Describes, DaysInMonth, SignedFlows, SignedValues, Errors, Flow, OperandsInRange, Sums, Labels, CalendarProblems;
    var sources := [annual, current, prior];
    var problems := BaseProblems(sources, policy) + CalendarProblems(evidence);
    var valid := AnnualFits(evidence, annual, current, prior);
    if valid {
      AnnualBridges(evidence, annual, current, prior);
      if evidence.None? {
        NextMonthStart(prior.end);
      }
    }
    if !valid {
      problems := problems + {IncompatibleAnnualYtd};
    }
    var start := if valid then Some(NextDay(prior.end)) else None;
    a := Assemble(sources, [1, 1, -1], start, current.end, problems);
    if a.value.Some? {
      forall f: int -> real | AllFaithful(f, sources)
        ensures Describes(f, a)
      {
        BridgeFlows(f, annual, current, prior);
        WindowDescribed(f, sources, [1, 1, -1], a);
      }
    }
  }

  lemma {:induction false} BridgeFlows(f: int -> real, annual: Source, current: Source, prior: Source)
    requires ValidSources([annual, current, prior])
    requires ValidSource(annual) && ValidSource(current) && ValidSource(prior) && Bridges(annual, current, prior)
    ensures SignedFlows(f, [annual, current, prior], [1, 1, -1]) == Flow(f, Ordinal(NextDay(prior.end)), Ordinal(current.end))
  {
    hide Ordinal, NextDay, Flow;
    NextDayFollows(prior.end);
    FlowSplits(f, Ordinal(annual.start.value), Ordinal(prior.end), Ordinal(annual.end));
    FlowSplits(f, Ordinal(prior.end) + 1, Ordinal(annual.end), Ordinal(current.end));
    assert [annual, current, prior][..2] == [annual, current] && [1, 1, -1][..2] == [1, 1];
    assert [annual, current][..1] == [annual] && [1, 1][..1] == [1] && [annual][..0] == [] && [1][..0] == [];
    assert SignedFlows(f, [annual], [1]) == Reported(f, annual);
    assert SignedFlows(f, [annual, current], [1, 1]) == Reported(f, annual) + Reported(f, current);
  }

  // ----- periods of whole calendar months are always accepted

  /** The flow reported for n whole months from month m on, counted through the years. */
  function MonthsFlow(m: int, n: int, value: D.Decimal): (s: Source)
    requires m >= 12 && n >= 1
    ensures ValidSource(s)
  {
    Source(Duration, Some(FirstOf(m)), LastOf(m + n - 1), Some(value), None, false, {})
  }

  lemma {:induction false} SpanOfMonths(m: int, n: int, value: D.Decimal)
    requires m >= 12 && n >= 1
    ensures MonthSpan(MonthsFlow(m, n, value)) == Some(n)
  {
    hide Ordinal, DaysInMonth, FirstOf, LastOf, IsMonthEnd, ValidDate;
    FirstMonth(m);
    LastMonth(m + n - 1);
    MonthsAdjoin(m);
    if n > 1 {
      MonthEndsGrow(m, m + n - 1);
    }
  }

  lemma {:induction false} FirstMonth(m: int)
    requires m >= 12
    ensures FirstOf(m) == Date(m / 12, m % 12 + 1, 1) && (m % 3 == 0 ==> FirstOf(m).month in {1, 4, 7, 10})
  {
    assert m % 3 == 0 ==> (m % 12) % 3 == 0;
  }

  lemma {:induction false} LastMonth(m: int)
    requires m >= 12
    ensures IsMonthEnd(LastOf(m)) && LastOf(m).year == m / 12 && LastOf(m).month == m % 12 + 1
  {
  }

  /** Month periods that meet adjoin, and quarters that open in January, April, July or October are supported. */
  lemma {:induction false} MonthsMeet(m: int, n: int, k: int, v: D.Decimal, w: D.Decimal)
    requires m >= 12 && n >= 1 && k >= 1
    ensures Adjoins(MonthsFlow(m, n, v), MonthsFlow(m + n, k, w))
    ensures m % 3 == 0 ==> QuarterSupported(None, MonthsFlow(m, 3, v))
  {
    hide Ordinal, DaysInMonth, MonthSpan, FirstOf, LastOf, ValidDate;
    MonthsAdjoin(m + n - 1);
    SpanOfMonths(m, 3, v);
    FirstMonth(m);
    assert Adjoins(MonthsFlow(m, n, v), MonthsFlow(m + n, k, w));
    assert m % 3 == 0 ==> QuarterMonth(MonthsFlow(m, 3, v));
  }

  /** Four calendar quarters in a row, from any quarter on, always make up an amount of twelve months. */
  method TrailingYear(m: int, values: seq<D.Decimal>) returns (a: Amount)
    requires m >= 12 && m % 3 == 0 && |values| == 4 && forall i :: 0 <= i < 4 ==> D.InRange(values[i])
    ensures a.value.Some? && T.Value(a.value.value) == T.Value(values[0]) + T.Value(values[1]) + T.Value(values[2]) + T.Value(values[3])
    ensures a.start == Some(Date(m / 12, m % 12 + 1, 1)) && WholeMonths(a, 12)
  {
    hide Ordinal, DaysInMonth, MonthSpan, D.InRange, T.Value, FirstOf, LastOf, QuarterSupported, Adjoins, Telescopes, MonthsFlow, SignedValues,
      ValidDate;
    var sources := Quarters(m, values);
    QuartersFit(m, values);
    FourValues(sources, values);
    FirstMonth(m);
    assert BaseProblems(sources, {}) == {} && OperandsInRange(sources);
    a := TtmFromQuarters(sources, {}, None);
  }

  function Quarters(m: int, values: seq<D.Decimal>): (s: seq<Source>)
    requires m >= 12 && |values| == 4
    ensures |s| == 4 && ValidSources(s)
  {
    [MonthsFlow(m, 3, values[0]), MonthsFlow(m + 3, 3, values[1]), MonthsFlow(m + 6, 3, values[2]), MonthsFlow(m + 9, 3, values[3])]
  }

  lemma {:induction false} QuartersFit(m: int, values: seq<D.Decimal>)
    requires m >= 12 && m % 3 == 0 && |values| == 4
    ensures var s := Quarters(m, values);
            && (forall i :: 0 <= i < 4 ==> QuarterSupported(None, s[i]) && s[i].value == Some(values[i]))
            && (forall i :: 0 < i < 4 ==> Adjoins(s[i - 1], s[i]))
            && (forall i :: 0 <= i < 4 ==> s[i].kind.Duration? && s[i].start.Some? && s[i].error.None? && !s[i].capex)
            && s[0].start == Some(FirstOf(m))
  {
    hide Ordinal, DaysInMonth, MonthSpan, FirstOf, LastOf, QuarterSupported, Adjoins, ValidDate;
    MonthsMeet(m, 3, 3, values[0], values[1]);
    MonthsMeet(m + 3, 3, 3, values[1], values[2]);
    MonthsMeet(m + 6, 3, 3, values[2], values[3]);
    MonthsMeet(m + 9, 3, 3, values[3], values[3]);
  }

  lemma {:induction false} PartialSum(values: seq<D.Decimal>, n: nat)
    requires 0 < n <= |values|
    ensures T.SignedSum(values[..n], Ones(n)) == T.SignedSum(values[..n - 1], Ones(n - 1)) + T.Value(values[n - 1])
  {
    hide T.Value;
    OnesFront(n - 1);
    assert values[..n][..n - 1] == values[..n - 1];
  }

  lemma {:induction false} FourValues(sources: seq<Source>, values: seq<D.Decimal>)
    requires |sources| == 4 == |values| && forall i :: 0 <= i < 4 ==> sources[i].value == Some(values[i])
    ensures SignedValues(sources, Ones(4)) == T.Value(values[0]) + T.Value(values[1]) + T.Value(values[2]) + T.Value(values[3])
  {
    hide T.Value;
    assert ValuesOf(sources) == values;
    PartialSum(values, 1);
    PartialSum(values, 2);
    PartialSum(values, 3);
    PartialSum(values, 4);
    assert values[..4] == values && values[..0] == [];
  }

  /** Two cumulative periods of one year, a quarter apart, and a year with the opening months of it and of the next,
      satisfy the gates of the other two derivations. */
  lemma {:induction false} MonthsBridge(m: int, n: int, v: D.Decimal, w: D.Decimal, u: D.Decimal)
    requires m >= 12 && n in {3, 6, 9}
    ensures ConsecutiveYtd(None, MonthsFlow(m, n + 3, v), MonthsFlow(m, n, w))
    ensures AnnualBridge(None, MonthsFlow(m, 12, v), MonthsFlow(m + 12, n, w), MonthsFlow(m, n, u))
  {
    hide Ordinal, DaysInMonth, MonthSpan, Adjoins;
    SpanOfMonths(m, n + 3, v);
    SpanOfMonths(m, n, w);
    SpanOfMonths(m, 12, v);
    SpanOfMonths(m + 12, n, w);
    SpanOfMonths(m, n, u);
    MonthsMeet(m, 12, n, v, w);
  }

  /** The quarters of a calendar year, by their dates. */
  lemma {:induction false} CalendarQuarters(y: int, v: D.Decimal)
    requires y >= 1
    ensures MonthsFlow(12 * y, 3, v).start == Some(Date(y, 1, 1)) && MonthsFlow(12 * y, 3, v).end == Date(y, 3, 31)
    ensures MonthsFlow(12 * y + 3, 3, v).start == Some(Date(y, 4, 1)) && MonthsFlow(12 * y + 3, 3, v).end == Date(y, 6, 30)
    ensures MonthsFlow(12 * y + 6, 3, v).start == Some(Date(y, 7, 1)) && MonthsFlow(12 * y + 6, 3, v).end == Date(y, 9, 30)
    ensures MonthsFlow(12 * y + 9, 3, v).start == Some(Date(y, 10, 1)) && MonthsFlow(12 * y + 9, 3, v).end == Date(y, 12, 31)
  {
    hide Ordinal, FirstOf, LastOf, ValidDate, IsLeap, ValidSource;
    MonthOf(y, 1);
    MonthOf(y, 3);
    MonthOf(y, 4);
    MonthOf(y, 6);
    MonthOf(y, 7);
    MonthOf(y, 9);
    MonthOf(y, 10);
    MonthOf(y, 12);
  }

  lemma {:induction false} MonthOf(y: int, k: int)
    requires y >= 1 && 1 <= k <= 12
    ensures FirstOf(12 * y + (k - 1)) == Date(y, k, 1) && LastOf(12 * y + (k - 1)) == Date(y, k, DaysInMonth(y, k))
  {
    assert (12 * y + (k - 1)) / 12 == y && (12 * y + (k - 1)) % 12 == k - 1;
  }
}
