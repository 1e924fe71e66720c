/**
 Growth solves. The value of a forecast whose yearly cash losses, if any, come before its gains crosses a
 positive target once and upwards, so the answers of the solver are unique for it as well.
 */
module Growth {
  import opened Common
  import opened Intervals
  import opened Forecasts
  import opened Residuals
  import opened Certificates

  /** Free cash flow of year i for each unit of revenue; it does not depend on growth. */
  function UnitCash(f: Forecast, i: nat): real
    requires Evaluable(f) && i < |f.growth|
  {
    AfterTax(f.margins[i], f.taxes[i]) - f.reinvestment[i]
  }

  /** No cash gain before year m and no cash loss from year m on. */
  predicate LossesFirst(f: Forecast, m: nat)
    requires Evaluable(f)
  {
    && m <= |f.growth|
    && (forall i :: 0 <= i < m ==> UnitCash(f, i) <= 0.0)
    && (forall i :: m <= i < |f.growth| ==> UnitCash(f, i) >= 0.0)
  }

  // ----- powers

  lemma {:induction false} PowMonotone(x: real, i: nat, j: nat)
    requires x >= 1.0 && i <= j
    ensures 1.0 <= Pow(x, i) <= Pow(x, j)
    ensures x > 1.0 && j > 0 ==> Pow(x, j) > 1.0
    decreases j
  {
    if j > 0 {
      PowMonotone(x, if i < j then i else i - 1, j - 1);
      TimesMonotone(1.0, x, Pow(x, j - 1));
      assert Times(Pow(x, j - 1), 1.0) == Pow(x, j - 1);
      TimesAtLeast(Pow(x, j - 1), x);
    }
  }

  lemma {:induction false} TimesAtLeast(q: real, x: real)
    requires q >= 1.0 && x >= 1.0
    ensures Times(q, x) >= x
  {
    assert (q - 1.0) * x >= 0.0;
  }

  // ----- growing faster by a factor

  /** Each year's revenue is the slower one times the ratio once per elapsed year. */
  lemma {:induction false} RevenueScales(f: Forecast, x: real, y: real, ratio: real, i: nat)
    requires x > -1.0 && 1.0 + y == Times(ratio, 1.0 + x) && i <= |f.growth|
    ensures Revenue(f.(growth := Repeated(y, |f.growth|)), i) == Times(Revenue(f.(growth := Repeated(x, |f.growth|)), i), Pow(ratio, i))
  {
    if i > 0 {
      RevenueScales(f, x, y, ratio, i - 1);
      Regroup(Revenue(f.(growth := Repeated(x, |f.growth|)), i - 1), Pow(ratio, i - 1), ratio, 1.0 + x);
    }
  }

  lemma {:induction false} Regroup(r: real, q: real, ratio: real, g: real)
    ensures Times(Times(r, q), Times(ratio, g)) == Times(Times(r, g), Times(q, ratio))
  {
    assert (r * q) * (ratio * g) == (r * g) * (q * ratio);
  }

  /** Cash flow is revenue times unit cash: a positive factor passes through the tax. */
  lemma {:induction false} FcffIsShare(f: Forecast, i: nat)
    requires Evaluable(f) && i < |f.growth| && Revenue(f, i + 1) > 0.0
    ensures Fcff(f, i) == Times(Revenue(f, i + 1), UnitCash(f, i))
  {
    hide Revenue;
    var r, m := Revenue(f, i + 1), f.margins[i];
    FactorThroughMax(r, m);
    ShareOfRevenue(r, m, Max(m, 0.0), f.taxes[i], f.reinvestment[i]);
  }

  lemma {:induction false} FactorThroughMax(r: real, m: real)
    requires r > 0.0
    ensures Max(Times(r, m), 0.0) == Times(r, Max(m, 0.0))
  {
    if m > 0.0 {
      assert r * m > 0.0;
    } else {
      assert r * -m >= 0.0;
    }
  }

  lemma {:induction false} ShareOfRevenue(r: real, m: real, n: real, tax: real, k: real)
    ensures Times(r, m) - Times(Times(r, n), tax) - Times(r, k) == Times(r, m - Times(n, tax) - k)
  {
    assert r * (m - n * tax - k) == r * m - r * (n * tax) - r * k;
    assert r * (n * tax) == (r * n) * tax;
  }

  /** A cash flow scaled by at least (a gain) or at most (a loss) the reference power. */
  lemma {:induction false} ShareScales(r: real, c: real, p: real, q: real)
    requires r > 0.0 && (if c <= 0.0 then p <= q else p >= q)
    ensures Times(Times(r, p), c) >= Times(Times(r, c), q)
  {
    var d := p - q;
    assert r * c * d >= 0.0 by {
      if c <= 0.0 {
        assert r * -c >= 0.0;
        assert (r * -c) * -d >= 0.0;
      } else {
        assert r * c >= 0.0;
      }
    }
    assert (r * p) * c == (r * c) * p;
  }

  /** Dividing by the common discount factor keeps the comparison. */
  lemma {:induction false} DiscountedScales(u: real, v: real, q: real, d: real)
    requires d > 0.0 && v >= Times(u, q)
    ensures Over(v, d) >= Times(Over(u, d), q)
    ensures v > Times(u, q) ==> Over(v, d) > Times(Over(u, d), q)
  {
    OverMonotone(Times(u, q), v, d);
    assert u * q / d == u / d * q;
  }

  lemma {:induction false} FcffScales(f: Forecast, x: real, y: real, ratio: real, m: nat, i: nat)
    requires ValidForecast(f) && LossesFirst(f, m) && i < |f.growth|
    requires x > -1.0 && ratio >= 1.0 && 1.0 + y == Times(ratio, 1.0 + x) && y > -1.0
    ensures Fcff(f.(growth := Repeated(y, |f.growth|)), i) >= Times(Fcff(f.(growth := Repeated(x, |f.growth|)), i), Pow(ratio, m))
  {
    hide Times, Fcff, AfterTax, Pow;
    var fx, fy := f.(growth := Repeated(x, |f.growth|)), f.(growth := Repeated(y, |f.growth|));
    RevenuePositive(fx, i + 1);
    RevenuePositive(fy, i + 1);
    RevenueScales(f, x, y, ratio, i + 1);
    FcffIsShare(fx, i);
    FcffIsShare(fy, i);
    assert UnitCash(fx, i) == UnitCash(fy, i) == UnitCash(f, i);
    if i < m {
      PowMonotone(ratio, i + 1, m);
    } else {
      PowMonotone(ratio, m, i + 1);
      if UnitCash(f, i) == 0.0 {
        ZeroShare(Times(Revenue(fx, i + 1), Pow(ratio, i + 1)), Revenue(fx, i + 1), Pow(ratio, m));
        return;
      }
    }
    ShareScales(Revenue(fx, i + 1), UnitCash(f, i), Pow(ratio, i + 1), Pow(ratio, m));
  }

  lemma {:induction false} ZeroShare(s: real, r: real, q: real)
    ensures Times(s, 0.0) >= Times(Times(r, 0.0), q)
  {
    assert r * 0.0 == 0.0;
  }

  lemma {:induction false} ExplicitScales(f: Forecast, x: real, y: real, ratio: real, m: nat, n: nat)
    requires ValidForecast(f) && LossesFirst(f, m) && n <= |f.growth|
    requires x > -1.0 && ratio >= 1.0 && 1.0 + y == Times(ratio, 1.0 + x) && y > -1.0
    ensures Explicit(f.(growth := Repeated(y, |f.growth|)), n) >= Times(Explicit(f.(growth := Repeated(x, |f.growth|)), n), Pow(ratio, m))
  {
    hide Over, Fcff, LossesFirst, Pow;
    if n > 0 {
      var fx, fy := f.(growth := Repeated(x, |f.growth|)), f.(growth := Repeated(y, |f.growth|));
      ExplicitScales(f, x, y, ratio, m, n - 1);
      FcffScales(f, x, y, ratio, m, n - 1);
      DiscountPositive(f, n);
      DiscountedScales(Fcff(fx, n - 1), Fcff(fy, n - 1), Pow(ratio, m), Discount(f, n));
      TimesDistributes(Explicit(fx, n - 1), Over(Fcff(fx, n - 1), Discount(f, n)), Pow(ratio, m));
    }
  }

  // ----- terminal value

  /** Terminal value is revenue at the horizon times a positive constant. */
  ghost function TerminalUnit(f: Forecast): real
    requires Evaluable(f)
  {
    var share := Times(Times(1.0 + f.terminalGrowth, f.terminalMargin), 1.0 - f.terminalTax);
    Over(share - Over(Times(share, f.terminalGrowth), f.terminalRoic), f.wacc - f.terminalGrowth)
  }

  lemma {:induction false} TerminalIsShare(f: Forecast)
    requires Evaluable(f)
    ensures TerminalValue(f) == Times(Revenue(f, |f.growth|), TerminalUnit(f))
  {
    hide Revenue, Times, Over;
    var r, share := Revenue(f, |f.growth|), Times(Times(1.0 + f.terminalGrowth, f.terminalMargin), 1.0 - f.terminalTax);
    Factors(r, 1.0 + f.terminalGrowth, f.terminalMargin, 1.0 - f.terminalTax);
    PullOut(r, share, f.terminalGrowth, f.terminalRoic, f.wacc - f.terminalGrowth);
  }

  lemma {:induction false} Factors(r: real, a: real, b: real, c: real)
    ensures Times(Times(Times(r, a), b), c) == Times(r, Times(Times(a, b), c))
  {
    assert (r * a) * b == r * (a * b);
    var t := a * b;
    assert (r * t) * c == r * (t * c);
  }

  lemma {:induction false} PullOut(r: real, s: real, g: real, k: real, w: real)
    requires k != 0.0 && w != 0.0
    ensures Over(Times(r, s) - Over(Times(Times(r, s), g), k), w) == Times(r, Over(s - Over(Times(s, g), k), w))
  {
    hide Times, Over;
    Associates(r, s, g);
    OverTimes(r, Times(s, g), k);
    TimesDifference(r, s, Over(Times(s, g), k));
    OverTimes(r, s - Over(Times(s, g), k), w);
  }

  lemma {:induction false} Associates(r: real, s: real, g: real)
    ensures Times(Times(r, s), g) == Times(r, Times(s, g))
  {
  }

  lemma {:induction false} TimesDifference(r: real, s: real, t: real)
    ensures Times(r, s) - Times(r, t) == Times(r, s - t)
  {
  }

  lemma {:induction false} OverTimes(r: real, n: real, k: real)
    requires k != 0.0
    ensures Over(Times(r, n), k) == Times(r, Over(n, k))
  {
    var q := n / k;
    assert n == q * k;
    assert r * n == (r * q) * k;
    assert (r * q) * k / k == r * q;
  }

  lemma {:induction false} TerminalUnitPositive(f: Forecast)
    requires ValidForecast(f)
    ensures TerminalUnit(f) > 0.0
  {
    hide Times, Over;
    TimesPositive(1.0 + f.terminalGrowth, f.terminalMargin);
    var share := Times(Times(1.0 + f.terminalGrowth, f.terminalMargin), 1.0 - f.terminalTax);
    TimesPositive(Times(1.0 + f.terminalGrowth, f.terminalMargin), 1.0 - f.terminalTax);
    KeepsPart(share, f.terminalGrowth, f.terminalRoic);
    OverPositive(share - Over(Times(share, f.terminalGrowth), f.terminalRoic), f.wacc - f.terminalGrowth);
  }

  lemma {:induction false} KeepsPart(share: real, growth: real, roic: real)
    requires share > 0.0 && 0.0 <= growth < roic
    ensures share > Over(Times(share, growth), roic)
  {
    TimesStrict(growth, roic, share);
    OverMonotone(Times(share, growth), Times(share, roic), roic);
    assert share * roic / roic == share;
  }

  lemma {:induction false} OverPositive(x: real, k: real)
    requires x > 0.0 && k > 0.0
    ensures Over(x, k) > 0.0
  {
    OverMonotone(0.0, x, k);
  }

  lemma {:induction false} TerminalScales(f: Forecast, x: real, y: real, ratio: real, m: nat)
    requires ValidForecast(f) && m <= |f.growth|
    requires x > -1.0 && ratio >= 1.0 && 1.0 + y == Times(ratio, 1.0 + x) && y > -1.0
    ensures var fx, fy := f.(growth := Repeated(x, |f.growth|)), f.(growth := Repeated(y, |f.growth|));
            && TerminalValue(fy) >= Times(TerminalValue(fx), Pow(ratio, m))
            && (m == 0 && ratio > 1.0 ==> TerminalValue(fy) > Times(TerminalValue(fx), Pow(ratio, m)))
  {
    hide Times, Over, TerminalValue, Revenue;
    var fx, fy, n := f.(growth := Repeated(x, |f.growth|)), f.(growth := Repeated(y, |f.growth|)), |f.growth|;
    RevenuePositive(fx, n);
    RevenueScales(f, x, y, ratio, n);
    TerminalIsShare(fx);
    TerminalIsShare(fy);
    TerminalUnitPositive(f);
    assert TerminalUnit(fx) == TerminalUnit(fy) == TerminalUnit(f);
    PowMonotone(ratio, m, n);
    ShareScales(Revenue(fx, n), TerminalUnit(f), Pow(ratio, n), Pow(ratio, m));
    if m == 0 && ratio > 1.0 {
      ShareScalesStrictly(Revenue(fx, n), TerminalUnit(f), Pow(ratio, n));
      TimesOne(Times(Revenue(fx, n), TerminalUnit(f)));
    }
  }

  lemma {:induction false} TimesOne(x: real)
    ensures Times(x, 1.0) == x
  {
  }

  lemma {:induction false} ShareScalesStrictly(r: real, c: real, p: real)
    requires r > 0.0 && c > 0.0 && p > 1.0
    ensures Times(Times(r, p), c) > Times(r, c)
  {
    var q := r * c;
    assert q > 0.0;
    assert (r * p) * c == q * p;
    TimesStrict(1.0, p, q);
  }

  // ----- one crossing

  /** Once the value is positive, faster growth adds to it. */
  lemma {:induction false} PositiveValueGrows(f: Forecast, m: nat, x: real, y: real)
    requires ValidForecast(f) && LossesFirst(f, m) && -1.0 < x < y
    requires OperatingValue(f.(growth := Repeated(x, |f.growth|))) > 0.0
    ensures OperatingValue(f.(growth := Repeated(x, |f.growth|))) < OperatingValue(f.(growth := Repeated(y, |f.growth|)))
  {
    hide Times, Over, TerminalValue, Explicit, LossesFirst, Pow;
    var fx, fy, n := f.(growth := Repeated(x, |f.growth|)), f.(growth := Repeated(y, |f.growth|)), |f.growth|;
    var ratio := Over(1.0 + y, 1.0 + x);
    RatioAboveOne(1.0 + x, 1.0 + y);
    assert m <= n by { LossesStartInside(f, m); }
    ExplicitScales(f, x, y, ratio, m, n);
    TerminalScales(f, x, y, ratio, m);
    DiscountPositive(f, n);
    DiscountedScales(TerminalValue(fx), TerminalValue(fy), Pow(ratio, m), Discount(f, n));
    TimesDistributes(Explicit(fx, n), Over(TerminalValue(fx), Discount(f, n)), Pow(ratio, m));
    PowMonotone(ratio, 0, m);
    PowZero(ratio);
    var v := OperatingValue(fx);
    assert Discount(fx, n) == Discount(fy, n) == Discount(f, n);
    assert v == Explicit(fx, n) + Over(TerminalValue(fx), Discount(f, n));
    assert OperatingValue(fy) == Explicit(fy, n) + Over(TerminalValue(fy), Discount(f, n));
    assert OperatingValue(fy) >= Times(v, Pow(ratio, m));
    if m > 0 {
      TimesStrict(1.0, Pow(ratio, m), v);
      TimesOne(v);
    } else {
      assert Pow(ratio, m) == 1.0;
      TimesOne(v);
      assert Over(TerminalValue(fy), Discount(f, n)) > Times(Over(TerminalValue(fx), Discount(f, n)), Pow(ratio, m));
      assert OperatingValue(fy) > Times(v, Pow(ratio, m));
    }
  }

  lemma {:induction false} LossesStartInside(f: Forecast, m: nat)
    requires Evaluable(f) && LossesFirst(f, m)
    ensures m <= |f.growth|
  {
  }

  lemma {:induction false} PowZero(x: real)
    ensures Pow(x, 0) == 1.0
  {
  }

  lemma {:induction false} RatioAboveOne(a: real, b: real)
    requires 0.0 < a < b
    ensures Over(b, a) > 1.0 && b == Times(Over(b, a), a)
  {
    assert b == b / a * a;
    assert (b / a - 1.0) * a == b - a;
  }

  /** At and after its first zero the residual of such a growth solve only increases. */
  lemma {:induction false} SingleCrossing(p: Problem, m: nat, x: real, y: real)
    requires p.Valid() && p.spec.variable.RevenueCagr? && LossesFirst(p.forecast, m) && p.target > 0.0
    requires -1.0 < x < y && G(p, x) >= 0.0
    ensures G(p, y) > G(p, x)
  {
    hide OperatingValue, LossesFirst;
    PositiveValueGrows(p.forecast, m, x, y);
  }

  /** Such a growth solve can never be answered "non_unique". */
  lemma {:induction false} GrowthNeverNonUnique(p: Problem, s: SolveResult, m: nat)
    requires p.Valid() && Certificate(p, s)
    requires p.spec.variable.RevenueCagr? && LossesFirst(p.forecast, m) && p.target > 0.0
    ensures !s.state.NonUnique?
  {
    hide G, Certificate, LossesFirst, Evaluable;
    if s.state.NonUnique? {
      var i, j := NonUniqueMeansTwo(p, s);
      var a, b := s.proof[i].domain, s.proof[j].domain;
      if G(p, a.lo) > 0.0 {
        SingleCrossing(p, m, a.lo, a.hi);
      }
      if a.hi < b.lo {
        SingleCrossing(p, m, a.hi, b.lo);
      }
      SingleCrossing(p, m, b.lo, b.hi);
    }
  }

  /** ... and its converged interval holds every zero, however the midpoints were rounded. A representative
      above -1 is what the forecast evaluated at it must have. */
  lemma {:induction false} GrowthConvergedHoldsZero(p: Problem, s: SolveResult, m: nat, x: real)
    requires p.Valid() && Certificate(p, s) && s.state.Converged? && s.representative.Some? && s.representative.value > -1.0
    requires p.spec.variable.RevenueCagr? && LossesFirst(p.forecast, m) && p.target > 0.0
    requires x > -1.0 && G(p, x) == 0.0
    ensures s.interval.Some? && s.interval.value.Contains(x)
  {
    hide Encloses, G, Certificate, LossesFirst, Evaluable, Roomy, AllKept, Tolerance, Increasing, Decreasing;
    var k := RegionOfInterval(p, s);
    var d, b := s.proof[k].domain, s.interval.value;
    MidInsideInterval(p, s);
    if G(p, d.lo) > 0.0 {
      SingleCrossing(p, m, d.lo, d.hi);
    }
    assert G(p, b.lo) < 0.0 < G(p, b.hi);
    if x < b.lo {
      SingleCrossing(p, m, x, b.lo);
    } else if b.hi < x {
      SingleCrossing(p, m, b.hi, x);
    }
  }

  lemma {:induction false} MidInsideInterval(p: Problem, s: SolveResult)
    requires p.Valid() && Certificate(p, s) && s.state.Converged?
    ensures s.interval.Some? && s.representative.Some? && s.interval.value.Contains(s.representative.value)
  {
    hide G, CertifiedRegion, RegionOrdered, Chain;
  }
}
