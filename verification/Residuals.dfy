/**
 The residual over a whole parameter interval (packages/core/valuation.py _residual), and
 the proof that it encloses both the exact residual and its mean slopes.
 */
module Residuals {
  import opened Common
  import opened Intervals
  import opened Forecasts

  datatype Years = Years(revenue: Dual, total: Dual, discount: Dual)

  function Parameter(domain: Bounds): Dual {
    Dual(domain, Point(1.0))
  }

  function GrowthOver(f: Forecast, s: SolveSpec, domain: Bounds, i: nat): Dual
    requires i < |f.growth|
  {
    if s.variable.RevenueCagr? then Parameter(domain) else Constant(f.growth[i])
  }

  function ReinvestmentOver(f: Forecast, s: SolveSpec, domain: Bounds, i: nat): Dual
    requires i < |f.reinvestment|
  {
    if s.variable.ReinvestmentToRevenue? then Parameter(domain) else Constant(f.reinvestment[i])
  }

  function MarginOver(r: Rounding, f: Forecast, s: SolveSpec, domain: Bounds, i: nat): Dual
    requires Solvable(f, s) && i < |f.growth|
  {
    if s.variable.TerminalOperatingMargin? then
      var weight := Constant(s.marginWeights[i]);
      DualAdd(r, DualMul(r, DualSub(r, Constant(1.0), weight), Constant(s.anchorMargin.value)),
                 DualMul(r, weight, Parameter(domain)))
    else Constant(f.margins[i])
  }

  /** One forecast year: grow revenue, tax the margin on it, discount what is left. */
  function Year(r: Rounding, f: Forecast, s: SolveSpec, domain: Bounds, i: nat, y: Years): Option<Years>
    requires Solvable(f, s) && i < |f.growth|
  {
    var revenue := DualMul(r, y.revenue, DualAdd(r, Constant(1.0), GrowthOver(f, s, domain, i)));
    var ebit := DualMul(r, revenue, MarginOver(r, f, s, domain, i));
    var nopat := DualSub(r, ebit, DualMul(r, ebit.Positive(), Constant(f.taxes[i])));
    var discount := DualMul(r, y.discount, DualAdd(r, Constant(1.0), Constant(f.wacc)));
    var pv :- DualDiv(r, DualSub(r, nopat, DualMul(r, revenue, ReinvestmentOver(f, s, domain, i))), discount);
    Some(Years(revenue, DualAdd(r, y.total, pv), discount))
  }

  function FirstYears(r: Rounding, f: Forecast, s: SolveSpec, domain: Bounds, i: nat): Option<Years>
    requires Solvable(f, s) && i <= |f.growth|
  {
    if i == 0 then Some(Years(Constant(f.anchor), Constant(0.0), Constant(1.0)))
    else
      var y :- FirstYears(r, f, s, domain, i - 1);
      Year(r, f, s, domain, i - 1, y)
  }

  function TerminalNopatOver(r: Rounding, f: Forecast, s: SolveSpec, domain: Bounds, revenue: Dual): Dual {
    var margin := if s.variable.TerminalOperatingMargin? then Parameter(domain) else Constant(f.terminalMargin);
    DualMul(r, DualMul(r, DualMul(r, revenue, DualAdd(r, Constant(1.0), Constant(f.terminalGrowth))), margin),
            DualSub(r, Constant(1.0), Constant(f.terminalTax)))
  }

  /** Growing profit less the reinvestment that growth needs, valued at the horizon. */
  function CapitalizedOver(r: Rounding, f: Forecast, tn: Dual): Option<Dual> {
    var ti :- DualDiv(r, DualMul(r, tn, Constant(f.terminalGrowth)), Constant(f.terminalRoic));
    DualDiv(r, DualSub(r, tn, ti), DualSub(r, Constant(f.wacc), Constant(f.terminalGrowth)))
  }

  function TerminalOver(r: Rounding, f: Forecast, s: SolveSpec, domain: Bounds, y: Years): Option<Dual> {
    var tv :- CapitalizedOver(r, f, TerminalNopatOver(r, f, s, domain, y.revenue));
    DualDiv(r, tv, y.discount)
  }

  /** None is the source's ArithmeticError from a denominator whose interval reaches zero. */
  function ResidualOver(r: Rounding, f: Forecast, s: SolveSpec, domain: Bounds, target: real): Option<Dual>
    requires Solvable(f, s)
  {
    var y :- FirstYears(r, f, s, domain, |f.growth|);
    var terminal :- TerminalOver(r, f, s, domain, y);
    Some(DualSub(r, DualAdd(r, y.total, terminal), Constant(target)))
  }

  /** The source's loop over the forecast years. */
  method ComputeResidual(r: Rounding, f: Forecast, s: SolveSpec, domain: Bounds, target: real) returns (d: Option<Dual>)
    requires Solvable(f, s) && Outward(r)
    ensures d == ResidualOver(r, f, s, domain, target)
    ensures d.Some? ==> Encloses(d.value, f, s, target, domain)
  {
    hide Year, TerminalOver, DualSub, DualAdd;
    var y := Years(Constant(f.anchor), Constant(0.0), Constant(1.0));
    var i := 0;
    while i < |f.growth|
      invariant i <= |f.growth| && FirstYears(r, f, s, domain, i) == Some(y)
    {
      var next := Year(r, f, s, domain, i, y);
      if next.None? {
        FirstYearsStaysNone(r, f, s, domain, i + 1, |f.growth|);
        return None;
      }
      y, i := next.value, i + 1;
    }
    d := None;
    var terminal := TerminalOver(r, f, s, domain, y);
    if terminal.Some? {
      d := Some(DualSub(r, DualAdd(r, y.total, terminal.value), Constant(target)));
      Enclosure(r, f, s, domain, target);
    }
  }

  lemma {:induction false} FirstYearsStaysNone(r: Rounding, f: Forecast, s: SolveSpec, domain: Bounds, i: nat, n: nat)
    requires Solvable(f, s) && i <= n <= |f.growth| && FirstYears(r, f, s, domain, i).None?
    ensures FirstYears(r, f, s, domain, n).None?
  {
    hide Year;
    if i < n {
      FirstYearsStaysNone(r, f, s, domain, i, n - 1);
    }
  }

  // ----- enclosure

  /** The pair bounds the exact residual on the domain and its mean slope between any two points. */
  ghost predicate Encloses(d: Dual, f: Forecast, s: SolveSpec, target: real, domain: Bounds)
    requires Solvable(f, s)
  {
    forall x, y :: domain.lo <= x <= y <= domain.hi ==>
      Tracks(d, Residual(f, s, target, x), Residual(f, s, target, y), y - x)
  }

  lemma {:induction false} ParameterTracks(domain: Bounds, x: real, y: real)
    requires domain.lo <= x <= y <= domain.hi
    ensures Tracks(Parameter(domain), x, y, y - x)
  {
  }

  lemma {:induction false} MarginTracks(r: Rounding, f: Forecast, s: SolveSpec, domain: Bounds, i: nat, x: real, y: real)
    requires Outward(r) && Solvable(f, s) && i < |f.growth| && domain.lo <= x <= y <= domain.hi
    ensures Tracks(MarginOver(r, f, s, domain, i), Resolve(f, s, x).margins[i], Resolve(f, s, y).margins[i], y - x)
  {
    hide Times, DualAdd, DualMul, DualSub, Tracks;
    var h := y - x;
    if s.variable.TerminalOperatingMargin? {
      var w, m := s.marginWeights[i], s.anchorMargin.value;
      ConstantTracks(1.0, h);
      ConstantTracks(w, h);
      ConstantTracks(m, h);
      ParameterTracks(domain, x, y);
      var rest := DualSub(r, Constant(1.0), Constant(w));
      SubTracks(r, Constant(1.0), 1.0, 1.0, Constant(w), w, w, h);
      MulTracks(r, rest, 1.0 - w, 1.0 - w, Constant(m), m, m, h);
      MulTracks(r, Constant(w), w, w, Parameter(domain), x, y, h);
      AddTracks(r, DualMul(r, rest, Constant(m)), Times(1.0 - w, m), Times(1.0 - w, m),
                DualMul(r, Constant(w), Parameter(domain)), Times(w, x), Times(w, y), h);
    } else {
      ConstantTracks(f.margins[i], h);
    }
  }

  ghost predicate YearsTrack(y: Years, i: nat, fx: Forecast, fy: Forecast, h: real)
    requires Evaluable(fx) && Evaluable(fy) && i <= |fx.growth| && i <= |fy.growth|
  {
    && Tracks(y.revenue, Revenue(fx, i), Revenue(fy, i), h)
    && Tracks(y.total, Explicit(fx, i), Explicit(fy, i), h)
    && Tracks(y.discount, Discount(fx, i), Discount(fy, i), h)
  }

  /** Taxed profit: the kink in the tax is where Positive() does its work. */
  lemma {:induction false} AfterTaxTracks(r: Rounding, ebit: Dual, u: real, v: real, tax: real, h: real)
    requires Outward(r) && Tracks(ebit, u, v, h)
    ensures Tracks(DualSub(r, ebit, DualMul(r, ebit.Positive(), Constant(tax))), AfterTax(u, tax), AfterTax(v, tax), h)
  {
    hide Times, DualAdd, DualMul, DualSub, Tracks, Max, Dual.Positive;
    assert h >= 0.0 by { TracksDistance(ebit, u, v, h); }
    ConstantTracks(tax, h);
    PositiveTracks(ebit, u, v, h);
    MulTracks(r, ebit.Positive(), Max(u, 0.0), Max(v, 0.0), Constant(tax), tax, tax, h);
    SubTracks(r, ebit, u, v, DualMul(r, ebit.Positive(), Constant(tax)), Times(Max(u, 0.0), tax), Times(Max(v, 0.0), tax), h);
  }

  lemma {:induction false} TracksDistance(d: Dual, u: real, v: real, h: real)
    requires Tracks(d, u, v, h)
    ensures h >= 0.0
  {
  }

  lemma {:induction false} YearTracks(r: Rounding, f: Forecast, s: SolveSpec, domain: Bounds, i: nat, years: Years, x: real, y: real)
    requires Outward(r) && Solvable(f, s) && i < |f.growth| && domain.lo <= x <= y <= domain.hi
    requires YearsTrack(years, i, Resolve(f, s, x), Resolve(f, s, y), y - x)
    requires Year(r, f, s, domain, i, years).Some?
    ensures YearsTrack(Year(r, f, s, domain, i, years).value, i + 1, Resolve(f, s, x), Resolve(f, s, y), y - x)
  {
    hide Times, Over, DualAdd, DualMul, DualSub, DualDiv, Tracks, Max, Dual.Positive, MarginOver, AfterTax;
    var fx, fy, h := Resolve(f, s, x), Resolve(f, s, y), y - x;
    var gx, gy, kx, ky := fx.growth[i], fy.growth[i], fx.reinvestment[i], fy.reinvestment[i];
    var g, k, m := GrowthOver(f, s, domain, i), ReinvestmentOver(f, s, domain, i), MarginOver(r, f, s, domain, i);
    ConstantTracks(1.0, h);
    ConstantTracks(f.wacc, h);
    ConstantTracks(f.growth[i], h);
    ConstantTracks(f.reinvestment[i], h);
    ParameterTracks(domain, x, y);
    MarginTracks(r, f, s, domain, i, x, y);
    AddTracks(r, Constant(1.0), 1.0, 1.0, g, gx, gy, h);
    MulTracks(r, years.revenue, Revenue(fx, i), Revenue(fy, i), DualAdd(r, Constant(1.0), g), 1.0 + gx, 1.0 + gy, h);
    var revenue := DualMul(r, years.revenue, DualAdd(r, Constant(1.0), g));
    var rx, ry := Revenue(fx, i + 1), Revenue(fy, i + 1);
    assert Tracks(revenue, rx, ry, h);
    MulTracks(r, revenue, rx, ry, m, fx.margins[i], fy.margins[i], h);
    var ebit := DualMul(r, revenue, m);
    var ex, ey := Times(rx, fx.margins[i]), Times(ry, fy.margins[i]);
    AfterTaxTracks(r, ebit, ex, ey, f.taxes[i], h);
    var nopat := DualSub(r, ebit, DualMul(r, ebit.Positive(), Constant(f.taxes[i])));
    MulTracks(r, revenue, rx, ry, k, kx, ky, h);
    SubTracks(r, nopat, AfterTax(ex, f.taxes[i]), AfterTax(ey, f.taxes[i]), DualMul(r, revenue, k), Times(rx, kx), Times(ry, ky), h);
    var cash := DualSub(r, nopat, DualMul(r, revenue, k));
    assert Tracks(cash, Fcff(fx, i), Fcff(fy, i), h);
    AddTracks(r, Constant(1.0), 1.0, 1.0, Constant(f.wacc), f.wacc, f.wacc, h);
    var rate := DualAdd(r, Constant(1.0), Constant(f.wacc));
    MulTracks(r, years.discount, Discount(fx, i), Discount(fy, i), rate, 1.0 + f.wacc, 1.0 + f.wacc, h);
    var discount := DualMul(r, years.discount, rate);
    var dx, dy := Discount(fx, i + 1), Discount(fy, i + 1);
    assert Tracks(discount, dx, dy, h);
    DivTracks(r, cash, Fcff(fx, i), Fcff(fy, i), discount, dx, dy, h);
    AddTracks(r, years.total, Explicit(fx, i), Explicit(fy, i), DualDiv(r, cash, discount).value,
              Over(Fcff(fx, i), dx), Over(Fcff(fy, i), dy), h);
  }

  lemma {:induction false} FirstYearsTrack(r: Rounding, f: Forecast, s: SolveSpec, domain: Bounds, i: nat, x: real, y: real)
    requires Outward(r) && Solvable(f, s) && i <= |f.growth| && domain.lo <= x <= y <= domain.hi
    requires FirstYears(r, f, s, domain, i).Some?
    ensures YearsTrack(FirstYears(r, f, s, domain, i).value, i, Resolve(f, s, x), Resolve(f, s, y), y - x)
  {
    hide Times, Over, Tracks, Year, Fcff;
    if i == 0 {
      ConstantTracks(f.anchor, y - x);
      ConstantTracks(0.0, y - x);
      ConstantTracks(1.0, y - x);
    } else {
      FirstYearsTrack(r, f, s, domain, i - 1, x, y);
      YearTracks(r, f, s, domain, i - 1, FirstYears(r, f, s, domain, i - 1).value, x, y);
    }
  }

  lemma {:induction false} TerminalTracks(r: Rounding, f: Forecast, s: SolveSpec, domain: Bounds, years: Years, x: real, y: real)
    requires Outward(r) && Solvable(f, s) && domain.lo <= x <= y <= domain.hi
    requires YearsTrack(years, |f.growth|, Resolve(f, s, x), Resolve(f, s, y), y - x)
    requires TerminalOver(r, f, s, domain, years).Some?
    ensures Discount(Resolve(f, s, x), |f.growth|) > 0.0 && Discount(Resolve(f, s, y), |f.growth|) > 0.0
    ensures Tracks(TerminalOver(r, f, s, domain, years).value,
                   Over(TerminalValue(Resolve(f, s, x)), Discount(Resolve(f, s, x), |f.growth|)),
                   Over(TerminalValue(Resolve(f, s, y)), Discount(Resolve(f, s, y), |f.growth|)), y - x)
  {
    hide Times, Over, DualAdd, DualMul, DualSub, DualDiv, Tracks, Revenue, Explicit, Discount;
    var fx, fy, h, n := Resolve(f, s, x), Resolve(f, s, y), y - x, |f.growth|;
    DiscountPositive(fx, n);
    DiscountPositive(fy, n);
    var margin := if s.variable.TerminalOperatingMargin? then Parameter(domain) else Constant(f.terminalMargin);
    var tg, tt := f.terminalGrowth, f.terminalTax;
    ConstantTracks(1.0, h);
    ConstantTracks(tg, h);
    ConstantTracks(tt, h);
    ConstantTracks(f.wacc, h);
    ConstantTracks(f.terminalRoic, h);
    ConstantTracks(f.terminalMargin, h);
    ParameterTracks(domain, x, y);
    var grow := DualAdd(r, Constant(1.0), Constant(tg));
    AddTracks(r, Constant(1.0), 1.0, 1.0, Constant(tg), tg, tg, h);
    MulTracks(r, years.revenue, Revenue(fx, n), Revenue(fy, n), grow, 1.0 + tg, 1.0 + tg, h);
    var tr := DualMul(r, years.revenue, grow);
    var trx, trY := Times(Revenue(fx, n), 1.0 + tg), Times(Revenue(fy, n), 1.0 + tg);
    MulTracks(r, tr, trx, trY, margin, fx.terminalMargin, fy.terminalMargin, h);
    var keep := DualSub(r, Constant(1.0), Constant(tt));
    SubTracks(r, Constant(1.0), 1.0, 1.0, Constant(tt), tt, tt, h);
    MulTracks(r, DualMul(r, tr, margin), Times(trx, fx.terminalMargin), Times(trY, fy.terminalMargin), keep, 1.0 - tt, 1.0 - tt, h);
    var tn := DualMul(r, DualMul(r, tr, margin), keep);
    var nx, ny := TerminalNopat(fx), TerminalNopat(fy);
    assert Tracks(tn, nx, ny, h);
    MulTracks(r, tn, nx, ny, Constant(tg), tg, tg, h);
    DivTracks(r, DualMul(r, tn, Constant(tg)), Times(nx, tg), Times(ny, tg), Constant(f.terminalRoic), f.terminalRoic, f.terminalRoic, h);
    var ti := DualDiv(r, DualMul(r, tn, Constant(tg)), Constant(f.terminalRoic)).value;
    var ix, iy := Over(Times(nx, tg), f.terminalRoic), Over(Times(ny, tg), f.terminalRoic);
    SubTracks(r, tn, nx, ny, ti, ix, iy, h);
    var spread := DualSub(r, Constant(f.wacc), Constant(tg));
    SubTracks(r, Constant(f.wacc), f.wacc, f.wacc, Constant(tg), tg, tg, h);
    DivTracks(r, DualSub(r, tn, ti), nx - ix, ny - iy, spread, f.wacc - tg, f.wacc - tg, h);
    var tv := DualDiv(r, DualSub(r, tn, ti), spread).value;
    DivTracks(r, tv, TerminalValue(fx), TerminalValue(fy), years.discount, Discount(fx, n), Discount(fy, n), h);
  }

  /** For any outward rounding, the computed pair encloses the exact residual and its mean slopes. */
  lemma {:induction false} Enclosure(r: Rounding, f: Forecast, s: SolveSpec, domain: Bounds, target: real)
    requires Outward(r) && Solvable(f, s) && ResidualOver(r, f, s, domain, target).Some?
    ensures Encloses(ResidualOver(r, f, s, domain, target).value, f, s, target, domain)
  {
    hide Times, Over, DualAdd, DualSub, Tracks, FirstYears, TerminalOver, Revenue, Explicit, Discount, TerminalValue;
    var years, n := FirstYears(r, f, s, domain, |f.growth|).value, |f.growth|;
    var terminal := TerminalOver(r, f, s, domain, years).value;
    var d := ResidualOver(r, f, s, domain, target).value;
    forall x, y | domain.lo <= x <= y <= domain.hi
      ensures Tracks(d, Residual(f, s, target, x), Residual(f, s, target, y), y - x)
    {
      var fx, fy, h := Resolve(f, s, x), Resolve(f, s, y), y - x;
      FirstYearsTrack(r, f, s, domain, n, x, y);
      TerminalTracks(r, f, s, domain, years, x, y);
      var tx, ty := Over(TerminalValue(fx), Discount(fx, n)), Over(TerminalValue(fy), Discount(fy, n));
      AddTracks(r, years.total, Explicit(fx, n), Explicit(fy, n), terminal, tx, ty, h);
      ConstantTracks(target, h);
      SubTracks(r, DualAdd(r, years.total, terminal), Explicit(fx, n) + tx, Explicit(fy, n) + ty, Constant(target), target, target, h);
    }
  }
}
