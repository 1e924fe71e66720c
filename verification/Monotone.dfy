/**
 The exact residual of an accepted forecast is strictly increasing in the terminal operating margin
 and strictly decreasing in reinvestment, whatever the horizon and on the whole real line.
 */
module Monotone {
  import opened Common
  import opened Forecasts

  lemma {:induction false} RevenueDependsOnGrowth(f: Forecast, g: Forecast, i: nat)
    requires f.anchor == g.anchor && f.growth == g.growth && i <= |f.growth|
    ensures Revenue(f, i) == Revenue(g, i)
  {
    if i > 0 {
      RevenueDependsOnGrowth(f, g, i - 1);
    }
  }

  /** Earning more never leaves less after tax, also across the point where tax begins. */
  lemma {:induction false} AfterTaxMonotone(u: real, v: real, tax: real)
    requires u <= v && 0.0 <= tax <= 1.0
    ensures AfterTax(u, tax) <= AfterTax(v, tax)
  {
    hide Times;
    assert 0.0 <= Max(v, 0.0) - Max(u, 0.0) <= v - u;
    FractionOfChange(Max(u, 0.0), Max(v, 0.0), tax);
  }

  lemma {:induction false} FractionOfChange(p: real, q: real, share: real)
    requires p <= q && 0.0 <= share <= 1.0
    ensures Times(q, share) - Times(p, share) <= q - p
  {
    assert (q - p) * share <= q - p;
  }

  /** Present values are ordered when every cash flow is, and strictly if some year i is. */
  lemma {:induction false} ExplicitOrdered(f: Forecast, g: Forecast, n: nat)
    requires Evaluable(f) && Evaluable(g) && f.wacc == g.wacc && |f.growth| == |g.growth| && n <= |f.growth|
    requires forall i :: 0 <= i < n ==> Fcff(f, i) <= Fcff(g, i)
    ensures Explicit(f, n) <= Explicit(g, n)
    ensures n > 0 && Fcff(f, n - 1) < Fcff(g, n - 1) ==> Explicit(f, n) < Explicit(g, n)
  {
    hide Over, Fcff;
    if n > 0 {
      ExplicitOrdered(f, g, n - 1);
      DiscountPositive(f, n);
      OverMonotone(Fcff(f, n - 1), Fcff(g, n - 1), Discount(f, n));
    }
  }

  lemma {:induction false} FadedMarginMonotone(w: real, anchor: real, x: real, y: real)
    requires 0.0 <= w && x <= y
    ensures FadedMargin(w, anchor, x) <= FadedMargin(w, anchor, y)
  {
    hide Times;
    TimesMonotone(x, y, w);
  }

  lemma {:induction false} FcffInMargin(f: Forecast, s: SolveSpec, x: real, y: real, i: nat)
    requires Solvable(f, s) && s.variable.TerminalOperatingMargin? && x < y && i < |f.growth|
    ensures Fcff(Resolve(f, s, x), i) <= Fcff(Resolve(f, s, y), i)
  {
    hide Times, AfterTax, FadedMargin;
    var fx, fy := Resolve(f, s, x), Resolve(f, s, y);
    RevenueDependsOnGrowth(fx, fy, i + 1);
    RevenueDependsOnGrowth(f, fx, i + 1);
    RevenuePositive(f, i + 1);
    FadedMarginMonotone(s.marginWeights[i], s.anchorMargin.value, x, y);
    TimesMonotone(fx.margins[i], fy.margins[i], Revenue(fx, i + 1));
    AfterTaxMonotone(Times(Revenue(fx, i + 1), fx.margins[i]), Times(Revenue(fx, i + 1), fy.margins[i]), f.taxes[i]);
  }

  /** Net of reinvestment, terminal profit keeps the positive share 1 - growth/roic. */
  lemma {:induction false} NetOfGrowthStrict(u: real, v: real, growth: real, roic: real)
    requires u < v && 0.0 <= growth < roic
    ensures u - Over(Times(u, growth), roic) < v - Over(Times(v, growth), roic)
  {
    var d := v - u;
    assert v * growth / roic - u * growth / roic == d * growth / roic;
    assert d * growth < d * roic;
    OverMonotone(d * growth, d * roic, roic);
    assert d * roic / roic == d;
  }

  lemma {:induction false} TerminalInMargin(f: Forecast, s: SolveSpec, x: real, y: real)
    requires Solvable(f, s) && s.variable.TerminalOperatingMargin? && x < y
    ensures TerminalValue(Resolve(f, s, x)) < TerminalValue(Resolve(f, s, y))
  {
    hide Times, Over, Revenue;
    var fx, fy, n := Resolve(f, s, x), Resolve(f, s, y), |f.growth|;
    RevenueDependsOnGrowth(fx, fy, n);
    RevenueDependsOnGrowth(f, fx, n);
    RevenuePositive(f, n);
    TimesPositive(Revenue(fx, n), 1.0 + f.terminalGrowth);
    var tr := Times(Revenue(fx, n), 1.0 + f.terminalGrowth);
    TimesStrict(x, y, tr);
    TimesStrict(Times(tr, x), Times(tr, y), 1.0 - f.terminalTax);
    NetOfGrowthStrict(TerminalNopat(fx), TerminalNopat(fy), f.terminalGrowth, f.terminalRoic);
    var nx := TerminalNopat(fx) - Over(Times(TerminalNopat(fx), f.terminalGrowth), f.terminalRoic);
    var ny := TerminalNopat(fy) - Over(Times(TerminalNopat(fy), f.terminalGrowth), f.terminalRoic);
    OverMonotone(nx, ny, f.wacc - f.terminalGrowth);
  }

  lemma {:induction false} StrictInMargin(f: Forecast, s: SolveSpec, target: real, x: real, y: real)
    requires Solvable(f, s) && s.variable.TerminalOperatingMargin? && x < y
    ensures Residual(f, s, target, x) < Residual(f, s, target, y)
  {
    hide Times, Over, Fcff, Explicit, TerminalValue;
    var fx, fy, n := Resolve(f, s, x), Resolve(f, s, y), |f.growth|;
    forall i | 0 <= i < n
      ensures Fcff(fx, i) <= Fcff(fy, i)
    {
      FcffInMargin(f, s, x, y, i);
    }
    ExplicitOrdered(fx, fy, n);
    TerminalInMargin(f, s, x, y);
    DiscountPositive(fx, n);
    OverMonotone(TerminalValue(fx), TerminalValue(fy), Discount(fx, n));
  }

  lemma {:induction false} FcffInReinvestment(f: Forecast, s: SolveSpec, x: real, y: real, i: nat)
    requires Solvable(f, s) && s.variable.ReinvestmentToRevenue? && x < y && i < |f.growth|
    ensures Fcff(Resolve(f, s, y), i) < Fcff(Resolve(f, s, x), i)
  {
    hide Times, AfterTax;
    var fx, fy := Resolve(f, s, x), Resolve(f, s, y);
    RevenueDependsOnGrowth(fx, fy, i + 1);
    RevenueDependsOnGrowth(f, fx, i + 1);
    RevenuePositive(f, i + 1);
    TimesStrict(x, y, Revenue(fx, i + 1));
  }

  lemma {:induction false} StrictInReinvestment(f: Forecast, s: SolveSpec, target: real, x: real, y: real)
    requires Solvable(f, s) && s.variable.ReinvestmentToRevenue? && x < y
    ensures Residual(f, s, target, y) < Residual(f, s, target, x)
  {
    hide Times, Over, Fcff, Explicit, Revenue;
    var fx, fy, n := Resolve(f, s, x), Resolve(f, s, y), |f.growth|;
    forall i | 0 <= i < n
      ensures Fcff(fy, i) < Fcff(fx, i)
    {
      FcffInReinvestment(f, s, x, y, i);
    }
    ExplicitOrdered(fy, fx, n);
    RevenueDependsOnGrowth(fx, fy, n);
  }
}
