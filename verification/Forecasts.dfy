/**
 The free-cash-flow forecast, its exact value, and the parameter that a reverse solve varies
 (packages/core/valuation.py evaluate, packages/core/valuation_types.py,
 packages/core/valuation_payload.py resolved). Values are exact reals.
 */
module Forecasts {
  import opened Common

  datatype Forecast = Forecast(
    anchor: real,
    growth: seq<real>,
    margins: seq<real>,
    taxes: seq<real>,
    reinvestment: seq<real>,
    wacc: real,
    riskFree: real,
    terminalGrowth: real,
    terminalMargin: real,
    terminalTax: real,
    terminalRoic: real)

  /** Forecast.domains; the cap of ten forecast years is not needed by any result. */
  predicate ValidForecast(f: Forecast) {
    var n := |f.growth|;
    && n >= 1 && |f.margins| == n && |f.taxes| == n && |f.reinvestment| == n
    && f.anchor > 0.0 && f.wacc > 0.0 && f.terminalRoic > 0.0
    && 0.0 <= f.terminalGrowth < f.riskFree && f.terminalGrowth < f.wacc && f.terminalGrowth < f.terminalRoic
    && 0.0 < f.terminalMargin <= 1.0 && 0.0 <= f.terminalTax < 1.0
    && (forall i :: 0 <= i < n ==> f.growth[i] > -1.0)
    && (forall i :: 0 <= i < n ==> f.reinvestment[i] >= 0.0)
    && (forall i :: 0 <= i < n ==> 0.0 <= f.taxes[i] <= 1.0)
  }

  datatype Variable = RevenueCagr | TerminalOperatingMargin | ReinvestmentToRevenue

  datatype SolveSpec = SolveSpec(
    variable: Variable,
    lower: real,
    upper: real,
    absoluteTolerance: real,
    relativeTolerance: real,
    widthTolerance: real,
    maxIterations: nat,
    maxSubdivisions: nat,
    maxEvaluations: nat,
    marginWeights: seq<real>,
    anchorMargin: Option<real>)

  /** SolveSpec.domain together with the budget ranges of the fields. */
  predicate ValidSpec(s: SolveSpec) {
    && s.lower < s.upper
    && s.absoluteTolerance > 0.0 && s.relativeTolerance >= 0.0 && s.widthTolerance > 0.0
    && 1 <= s.maxIterations <= 256 && 1 <= s.maxSubdivisions <= 4096 && 1 <= s.maxEvaluations <= 10000
    && (if s.variable.TerminalOperatingMargin? then
          && 0.0 < s.lower && s.upper <= 1.0
          && s.anchorMargin.Some?
          && |s.marginWeights| > 0 && s.marginWeights[|s.marginWeights| - 1] == 1.0
          && (forall i :: 0 <= i < |s.marginWeights| ==> 0.0 <= s.marginWeights[i] <= 1.0)
          && (forall i, j :: 0 <= i < j < |s.marginWeights| ==> s.marginWeights[i] <= s.marginWeights[j])
        else s.marginWeights == [] && s.anchorMargin.None?)
    && (s.variable.RevenueCagr? ==> s.lower > -1.0)
    && (s.variable.ReinvestmentToRevenue? ==> s.lower >= 0.0)
  }

  /** solve() accepts the pair: both valid, and a margin fade covers every forecast year. */
  predicate Solvable(f: Forecast, s: SolveSpec) {
    && ValidForecast(f) && ValidSpec(s)
    && (s.variable.TerminalOperatingMargin? ==> |s.marginWeights| == |f.growth|)
  }

  // ----- exact value

  /** What the arithmetic itself needs: matching vectors and nonzero denominators. */
  predicate Evaluable(f: Forecast) {
    && |f.margins| == |f.growth| && |f.taxes| == |f.growth| && |f.reinvestment| == |f.growth|
    && f.wacc > 0.0 && f.terminalRoic > 0.0 && f.terminalGrowth < f.wacc
  }

  /** Revenue after i years. */
  function Revenue(f: Forecast, i: nat): real
    requires i <= |f.growth|
  {
    if i == 0 then f.anchor else Times(Revenue(f, i - 1), 1.0 + f.growth[i - 1])
  }

  /** Operating profit after cash tax; losses are not taxed. */
  function AfterTax(ebit: real, tax: real): real {
    ebit - Times(Max(ebit, 0.0), tax)
  }

  /** Free cash flow of year i, counted from zero. */
  function Fcff(f: Forecast, i: nat): real
    requires Evaluable(f) && i < |f.growth|
  {
    AfterTax(Times(Revenue(f, i + 1), f.margins[i]), f.taxes[i]) - Times(Revenue(f, i + 1), f.reinvestment[i])
  }

  function Discount(f: Forecast, i: nat): real {
    Pow(1.0 + f.wacc, i)
  }

  /** Present value of the first i years. */
  function Explicit(f: Forecast, i: nat): real
    requires Evaluable(f) && i <= |f.growth|
  {
    if i == 0 then 0.0 else
      DiscountPositive(f, i);
      Explicit(f, i - 1) + Over(Fcff(f, i - 1), Discount(f, i))
  }

  function TerminalNopat(f: Forecast): real
  {
    Times(Times(Times(Revenue(f, |f.growth|), 1.0 + f.terminalGrowth), f.terminalMargin), 1.0 - f.terminalTax)
  }

  /** Value at the horizon of growing profit net of the reinvestment that growth needs. */
  function TerminalValue(f: Forecast): real
    requires Evaluable(f)
  {
    var tn := TerminalNopat(f);
    Over(tn - Over(Times(tn, f.terminalGrowth), f.terminalRoic), f.wacc - f.terminalGrowth)
  }

  function OperatingValue(f: Forecast): real
    requires Evaluable(f)
  {
    DiscountPositive(f, |f.growth|);
    Explicit(f, |f.growth|) + Over(TerminalValue(f), Discount(f, |f.growth|))
  }

  lemma {:induction false} DiscountPositive(f: Forecast, i: nat)
    requires f.wacc > 0.0
    ensures Discount(f, i) > 0.0
  {
    PowPositive(1.0 + f.wacc, i);
  }

  lemma {:induction false} RevenuePositive(f: Forecast, i: nat)
    requires ValidForecast(f) && i <= |f.growth|
    ensures Revenue(f, i) > 0.0
  {
    if i > 0 {
      RevenuePositive(f, i - 1);
      TimesPositive(Revenue(f, i - 1), 1.0 + f.growth[i - 1]);
    }
  }

  // ----- the evaluation with its rows

  datatype Row = Row(year: nat, revenue: real, ebit: real, cashTax: real, nopat: real, reinvestment: real, fcff: real, pv: real)

  datatype Evaluation = Evaluation(
    rows: seq<Row>,
    terminalValue: real,
    pvTerminal: real,
    pvExplicit: real,
    operatingEv: real,
    terminalContribution: Option<real>,
    terminalDominant: Option<bool>)

  function PvSum(rows: seq<Row>): real {
    if rows == [] then 0.0 else PvSum(rows[..|rows| - 1]) + rows[|rows| - 1].pv
  }

  /** A row carries year i of the forecast: its cash flow discounted once per elapsed year. */
  ghost predicate RowOf(f: Forecast, i: nat, row: Row)
    requires Evaluable(f) && i < |f.growth|
  {
    DiscountPositive(f, i + 1);
    && row.year == i + 1
    && row.revenue == Revenue(f, i + 1)
    && row.cashTax >= 0.0 && row.nopat == row.ebit - row.cashTax && row.fcff == row.nopat - row.reinvestment
    && row.fcff == Fcff(f, i)
    && row.pv == Over(Fcff(f, i), Discount(f, i + 1))
  }

  method Evaluate(f: Forecast) returns (e: Evaluation)
    requires ValidForecast(f)
    ensures |e.rows| == |f.growth|
    ensures forall i :: 0 <= i < |e.rows| ==> RowOf(f, i, e.rows[i])
    ensures e.pvExplicit == PvSum(e.rows) == Explicit(f, |f.growth|)
    ensures e.operatingEv == e.pvExplicit + e.pvTerminal == OperatingValue(f)
    ensures e.terminalContribution.Some? <==> e.operatingEv > 0.0
    ensures e.terminalContribution.Some? ==> e.pvTerminal == Times(e.terminalContribution.value, e.operatingEv)
    ensures e.terminalDominant == if e.operatingEv > 0.0 then Some(e.pvTerminal > 0.75 * e.operatingEv) else None
  {
    hide Times, Over;
    var revenue := f.anchor;
    var rows: seq<Row> := [];
    for i := 0 to |f.growth|
      invariant |rows| == i && revenue == Revenue(f, i)
      invariant forall j :: 0 <= j < i ==> RowOf(f, j, rows[j])
      invariant PvSum(rows) == Explicit(f, i)
    {
      revenue := Times(revenue, 1.0 + f.growth[i]);
      var ebit := Times(revenue, f.margins[i]);
      var cashTax := Times(Max(ebit, 0.0), f.taxes[i]);
      TimesNonnegative(Max(ebit, 0.0), f.taxes[i]);
      var nopat := ebit - cashTax;
      var reinvestment := Times(revenue, f.reinvestment[i]);
      var fcff := nopat - reinvestment;
      DiscountPositive(f, i + 1);
      var pv := Over(fcff, Pow(1.0 + f.wacc, i + 1));
      var row := Row(i + 1, revenue, ebit, cashTax, nopat, reinvestment, fcff, pv);
      assert RowOf(f, i, row);
      assert (rows + [row])[..i] == rows;
      rows := rows + [row];
    }
    var tn := Times(Times(Times(revenue, 1.0 + f.terminalGrowth), f.terminalMargin), 1.0 - f.terminalTax);
    var ti := Over(Times(tn, f.terminalGrowth), f.terminalRoic);
    var tv := Over(tn - ti, f.wacc - f.terminalGrowth);
    DiscountPositive(f, |f.growth|);
    var pv := Over(tv, Pow(1.0 + f.wacc, |rows|));
    var explicit := PvSum(rows);
    var ev := explicit + pv;
    var ratio := if ev > 0.0 then Some(Over(pv, ev)) else None;
    if ev > 0.0 {
      RatioOf(pv, ev);
    }
    e := Evaluation(rows, tv, pv, explicit, ev, ratio, if ratio.Some? then Some(ratio.value > 0.75) else None);
  }

  lemma {:induction false} TimesNonnegative(x: real, y: real)
    requires x >= 0.0 && y >= 0.0
    ensures Times(x, y) >= 0.0
  {
  }

  lemma {:induction false} TimesPositive(x: real, y: real)
    requires x > 0.0 && y > 0.0
    ensures Times(x, y) > 0.0
  {
  }

  lemma {:induction false} RatioOf(pv: real, ev: real)
    requires ev > 0.0
    ensures pv == Times(Over(pv, ev), ev)
    ensures Over(pv, ev) > 0.75 <==> pv > 0.75 * ev
  {
    var q := pv / ev;
    assert pv == q * ev;
    assert (q - 0.75) * ev == pv - 0.75 * ev;
  }

  // ----- the varied parameter

  /** The fade of the margin from its anchor toward the solved terminal margin. */
  function FadedMargin(weight: real, anchor: real, x: real): real {
    Times(1.0 - weight, anchor) + Times(weight, x)
  }

  function FadedMargins(weights: seq<real>, anchor: real, x: real): (margins: seq<real>)
    ensures |margins| == |weights|
    ensures forall i :: 0 <= i < |weights| ==> margins[i] == FadedMargin(weights[i], anchor, x)
  {
    if weights == [] then [] else [FadedMargin(weights[0], anchor, x)] + FadedMargins(weights[1..], anchor, x)
  }

  function Repeated(x: real, n: nat): (s: seq<real>)
    ensures |s| == n && forall i :: 0 <= i < n ==> s[i] == x
  {
    seq(n, _ => x)
  }

  /** The forecast in which the solved variable takes the value x. */
  function Resolve(f: Forecast, s: SolveSpec, x: real): Forecast
    requires Solvable(f, s)
  {
    match s.variable
    case RevenueCagr => f.(growth := Repeated(x, |f.growth|))
    case ReinvestmentToRevenue => f.(reinvestment := Repeated(x, |f.growth|))
    case TerminalOperatingMargin =>
      f.(margins := FadedMargins(s.marginWeights, s.anchorMargin.value, x), terminalMargin := x)
  }

  /** Every parameter of the declared domain gives a forecast that the model accepts. */
  lemma {:induction false} ResolveValid(f: Forecast, s: SolveSpec, x: real)
    requires Solvable(f, s) && s.lower <= x <= s.upper
    ensures ValidForecast(Resolve(f, s, x))
  {
  }

  /** Resolving again replaces the earlier choice. */
  lemma {:induction false} ResolveTwice(f: Forecast, s: SolveSpec, x: real, y: real)
    requires Solvable(f, s) && s.lower <= x <= s.upper
    ensures ValidForecast(Resolve(f, s, x)) && Resolve(Resolve(f, s, x), s, y) == Resolve(f, s, y)
  {
  }

  /** What the solver looks for a zero of. */
  function Residual(f: Forecast, s: SolveSpec, target: real, x: real): real
    requires Solvable(f, s)
  {
    OperatingValue(Resolve(f, s, x)) - target
  }

  // ----- hand-computed values

  /** Losses are not taxed and profits are, each year's reinvestment is paid on its revenue. */
  lemma {:induction false} YearCash(f: Forecast, i: nat)
    requires Evaluable(f) && i < |f.growth|
    ensures var revenue := Revenue(f, i + 1);
            && (revenue * f.margins[i] <= 0.0 ==> Fcff(f, i) == revenue * (f.margins[i] - f.reinvestment[i]))
            && (revenue * f.margins[i] > 0.0 ==> Fcff(f, i) == revenue * (f.margins[i] * (1.0 - f.taxes[i]) - f.reinvestment[i]))
  {
    var revenue, margin, tax, k := Revenue(f, i + 1), f.margins[i], f.taxes[i], f.reinvestment[i];
    assert Fcff(f, i) == AfterTax(revenue * margin, tax) - revenue * k;
    assert revenue * (margin - k) == revenue * margin - revenue * k;
    assert revenue * (margin * (1.0 - tax) - k) == revenue * margin - revenue * margin * tax - revenue * k;
  }

  /** Revenue 100 growing by a tenth, a fifth of it profit taxed at a quarter, a twentieth reinvested, discounted at a tenth. */
  function TextbookForecast(years: nat): Forecast {
    Forecast(100.0, Repeated(0.1, years), Repeated(0.2, years), Repeated(0.25, years), Repeated(0.05, years), 0.1, 0.04, 0.02, 0.2, 0.25, 0.08)
  }

  /** Its years are worth 10 each and its terminal value 143.4375 today: 173.4375 over three years, 193.4375 over five. */
  lemma {:induction false} TextbookValues()
    ensures OperatingValue(TextbookForecast(3)) == 173.4375 && OperatingValue(TextbookForecast(5)) == 193.4375
  {
    TextbookYear(3, 3);
    TextbookYear(5, 5);
    TextbookTerminal(3);
    TextbookTerminal(5);
  }

  lemma {:induction false} TextbookYear(years: nat, i: nat)
    requires i <= years
    ensures Discount(TextbookForecast(years), i) > 0.0 && Revenue(TextbookForecast(years), i) == 100.0 * Discount(TextbookForecast(years), i)
    ensures Explicit(TextbookForecast(years), i) == 10.0 * i as real
  {
    hide Fcff;
    var f := TextbookForecast(years);
    DiscountPositive(f, i);
    if i > 0 {
      TextbookYear(years, i - 1);
      YearCash(f, i - 1);
      TenPerYear(f.growth[i - 1], Revenue(f, i - 1), Discount(f, i - 1), Discount(f, i), Fcff(f, i - 1));
    }
  }

  lemma {:induction false} TenPerYear(growth: real, revenue: real, before: real, after: real, cash: real)
    requires growth == 0.1 && before > 0.0 && revenue == 100.0 * before && after == Times(before, 1.1)
    requires var r := Times(revenue, 1.1); r * 0.2 > 0.0 ==> cash == r * (0.2 * (1.0 - 0.25) - 0.05)
    ensures after > 0.0 && Times(revenue, 1.1) == 100.0 * after && Over(cash, after) == 10.0
  {
    assert cash == 10.0 * after;
    assert 10.0 * after / after == 10.0;
  }

  lemma {:induction false} TextbookTerminal(years: nat)
    ensures Discount(TextbookForecast(years), years) > 0.0
    ensures Over(TerminalValue(TextbookForecast(years)), Discount(TextbookForecast(years), years)) == 143.4375
  {
    hide Revenue, Explicit, Discount, Repeated;
    var f := TextbookForecast(years);
    TextbookYear(years, years);
    var d := Discount(f, years);
    TerminalNumbers(100.0 * d, d);
    assert TerminalNopat(f) == Times(Times(Times(100.0 * d, 1.02), 0.2), 0.75);
  }

  lemma {:induction false} TerminalNumbers(revenue: real, d: real)
    requires d > 0.0 && revenue == 100.0 * d
    ensures var tn := Times(Times(Times(revenue, 1.02), 0.2), 0.75); Over(Over(tn - Over(Times(tn, 0.02), 0.08), 0.08), d) == 143.4375
  {
    var tn := revenue * 1.02 * 0.2 * 0.75;
    assert tn == 15.3 * d;
    assert (tn - tn * 0.02 / 0.08) / 0.08 == 143.4375 * d;
    assert 143.4375 * d / d == 143.4375;
  }

  /** Solving it for any of the three variables is to find growth 0.1, reinvestment 0.05 or terminal margin 0.2. */
  lemma {:induction false} TextbookZero(s: SolveSpec)
    requires Solvable(TextbookForecast(5), s) && (s.variable.TerminalOperatingMargin? ==> s.anchorMargin == Some(0.2))
    ensures var x := match s.variable case RevenueCagr => 0.1 case ReinvestmentToRevenue => 0.05 case TerminalOperatingMargin => 0.2;
            Residual(TextbookForecast(5), s, 193.4375, x) == 0.0
  {
    hide OperatingValue, Repeated, Evaluable, FadedMargin;
    TextbookValues();
    if s.variable.TerminalOperatingMargin? {
      TextbookFade(s.marginWeights);
    }
  }

  lemma {:induction false} TextbookFade(weights: seq<real>)
    ensures FadedMargins(weights, 0.2, 0.2) == Repeated(0.2, |weights|)
  {
    forall i | 0 <= i < |weights|
      ensures FadedMargin(weights[i], 0.2, 0.2) == 0.2
    {
      FadeOfEqual(weights[i], 0.2);
    }
  }

  lemma {:induction false} FadeOfEqual(weight: real, x: real)
    ensures FadedMargin(weight, x, x) == x
  {
  }
}
