/**
 Growth solves for any target. A forecast whose yearly cash losses come before its gains has a value that,
 once it rises with growth, keeps rising; so its residual changes sign at most twice, and a converged
 interval cannot miss the zero.
 */
module Valleys {
  import opened Common
  import opened Intervals
  import opened Forecasts
  import opened Residuals
  import opened Certificates
  import opened Growth

  // ----- powers above and below one

  lemma {:induction false} MulLe(x: real, y: real, k: real)
    requires x <= y && k >= 0.0
    ensures x * k <= y * k
  {
    assert (y - x) * k >= 0.0;
  }

  lemma {:induction false} PowShrinks(s: real, i: nat, j: nat)
    requires 0.0 < s <= 1.0 && i <= j
    ensures 0.0 < Pow(s, j) <= Pow(s, i) <= 1.0
    ensures s < 1.0 && j > 0 ==> Pow(s, j) < 1.0
    decreases j
  {
    if j > 0 {
      PowShrinks(s, if i < j then i else i - 1, j - 1);
      PowPositive(s, j);
      ShrinkStep(Pow(s, j - 1), s);
    }
  }

  lemma {:induction false} ShrinkStep(p: real, s: real)
    requires 0.0 < p <= 1.0 && 0.0 < s <= 1.0
    ensures Times(p, s) <= p && Times(p, s) <= s
  {
    TimesMonotone(s, 1.0, p);
    TimesMonotone(p, 1.0, s);
    assert Times(p, 1.0) == p && Times(1.0, s) == s;
  }

  /** u^m - 1 is at most m steps of the largest size. */
  lemma {:induction false} PowUpper(u: real, m: nat)
    requires u >= 1.0
    ensures Pow(u, m) - 1.0 <= m as real * (Pow(u, m) * (u - 1.0))
  {
    if m > 0 {
      var p, q, a := Pow(u, m - 1), Pow(u, m), u - 1.0;
      PowUpper(u, m - 1);
      PowMonotone(u, m - 1, m);
      assert q == p + p * a;
      MulLe(p, q, a);
      MulLe(p * a, q * a, (m - 1) as real);
      assert m as real * (q * a) == (m - 1) as real * (q * a) + q * a;
      assert (m - 1) as real * (p * a) <= (m - 1) as real * (q * a);
    }
  }

  /** 1 - s^m is at least m steps of the smallest size. */
  lemma {:induction false} PowLower(s: real, m: nat)
    requires 0.0 < s <= 1.0
    ensures 1.0 - Pow(s, m) >= m as real * (Pow(s, m) * (1.0 - s))
  {
    if m > 0 {
      var p, q, b := Pow(s, m - 1), Pow(s, m), 1.0 - s;
      PowLower(s, m - 1);
      PowShrinks(s, m - 1, m);
      assert q == p - p * b;
      MulLe(q, p, b);
      MulLe(q * b, p * b, (m - 1) as real);
      assert m as real * (q * b) == (m - 1) as real * (q * b) + q * b;
      assert (m - 1) as real * (q * b) <= (m - 1) as real * (p * b);
    }
  }

  /** One more factor adds relatively more above one than below. */
  lemma {:induction false} LeverStep(P: real, Q: real, S: real, R: real, a: real, b: real, M: real, A: real, B: real)
    requires P >= Q > 0.0 && S >= R > 0.0 && a >= 0.0 && b >= 0.0 && M >= 0.0
    requires B >= M * (S * b) && A <= M * (Q * a)
    ensures Times(Times(P, a), B) >= Times(A, Times(R, b))
  {
    var k := P * a;
    assert k >= 0.0;
    MulLe(M * (S * b), B, k);
    var c := R * b;
    assert c >= 0.0;
    MulLe(A, M * (Q * a), c);
    MulLe(Q, P, S);
    MulLe(R, S, Q);
    var w := (a * b) * M;
    assert w >= 0.0 by { assert a * b >= 0.0; }
    MulLe(Q * R, P * S, w);
    assert (M * (S * b)) * (P * a) == (P * S) * w;
    assert (M * (Q * a)) * (R * b) == (Q * R) * w;
  }

  /** The lever: the higher power gains more above one, for what it loses below, than the lower power. */
  lemma {:induction false} Lever(s: real, u: real, j: nat, m: nat)
    requires 0.0 < s <= 1.0 <= u && m <= j
    ensures Times(Pow(u, j) - 1.0, 1.0 - Pow(s, m)) >= Times(Pow(u, m) - 1.0, 1.0 - Pow(s, j))
    decreases j
  {
    hide Pow, Times;
    if m < j {
      var i := j - 1;
      Lever(s, u, i, m);
      var P, Q, S, R, a, b := Pow(u, i), Pow(u, m), Pow(s, m), Pow(s, i), u - 1.0, 1.0 - s;
      PowMonotone(u, m, i);
      PowShrinks(s, m, i);
      PowUpper(u, m);
      PowLower(s, m);
      LeverStep(P, Q, S, R, a, b, m as real, Q - 1.0, 1.0 - S);
      NextPower(u, i);
      NextPower(s, i);
      LeverAdds(P - 1.0, Times(P, a), 1.0 - S, Q - 1.0, 1.0 - R, Times(R, b));
    }
  }

  lemma {:induction false} NextPower(x: real, i: nat)
    ensures Pow(x, i + 1) - 1.0 == Pow(x, i) - 1.0 + Times(Pow(x, i), x - 1.0)
    ensures 1.0 - Pow(x, i + 1) == 1.0 - Pow(x, i) + Times(Pow(x, i), 1.0 - x)
  {
    var p := Pow(x, i);
    assert Pow(x, i + 1) == p * x;
  }

  lemma {:induction false} LeverAdds(x: real, y: real, k: real, l: real, v: real, w: real)
    requires Times(x, k) >= Times(l, v) && Times(y, k) >= Times(l, w)
    ensures Times(x + y, k) >= Times(l, v + w)
  {
  }

  // ----- a forecast seen from a middle growth rate

  /** The forecast with growth x in every year. */
  function At(f: Forecast, x: real): Forecast {
    f.(growth := Repeated(x, |f.growth|))
  }

  /** Year i's discounted cash flow at growth x. */
  function Year(f: Forecast, x: real, i: nat): real
    requires Evaluable(f) && i < |f.growth|
  {
    DiscountPositive(f, i + 1);
    Over(Fcff(At(f, x), i), Discount(f, i + 1))
  }

  /** Growing by the ratio multiplies year i by its power. */
  lemma {:induction false} YearScales(f: Forecast, x: real, y: real, ratio: real, i: nat)
    requires ValidForecast(f) && i < |f.growth| && x > -1.0 && y > -1.0 && 1.0 + y == Times(ratio, 1.0 + x)
    ensures Year(f, y, i) == Times(Year(f, x, i), Pow(ratio, i + 1))
  {
    hide Times, Over, Fcff, AfterTax, Pow;
    var fx, fy := At(f, x), At(f, y);
    RevenuePositive(fx, i + 1);
    RevenuePositive(fy, i + 1);
    RevenueScales(f, x, y, ratio, i + 1);
    FcffIsShare(fx, i);
    FcffIsShare(fy, i);
    assert UnitCash(fx, i) == UnitCash(fy, i);
    DiscountPositive(f, i + 1);
    ShareOver(Revenue(fx, i + 1), UnitCash(fx, i), Pow(ratio, i + 1), Discount(f, i + 1));
  }

  lemma {:induction false} ShareOver(r: real, c: real, q: real, d: real)
    requires d > 0.0
    ensures Over(Times(Times(r, q), c), d) == Times(Over(Times(r, c), d), q)
  {
    assert (r * q) * c == (r * c) * q;
    var t := (r * c) / d;
    assert r * c == t * d;
    assert (t * d) * q / d == t * q;
  }

  function Terminal(f: Forecast, x: real): real
    requires Evaluable(f)
  {
    DiscountPositive(f, |f.growth|);
    Over(TerminalValue(At(f, x)), Discount(f, |f.growth|))
  }

  lemma {:induction false} TerminalPower(f: Forecast, x: real, y: real, ratio: real)
    requires ValidForecast(f) && x > -1.0 && y > -1.0 && 1.0 + y == Times(ratio, 1.0 + x)
    ensures Terminal(f, y) == Times(Terminal(f, x), Pow(ratio, |f.growth|)) && Terminal(f, x) > 0.0
  {
    hide Times, Over, TerminalValue, Revenue, Pow;
    var fx, fy, n := At(f, x), At(f, y), |f.growth|;
    RevenuePositive(fx, n);
    RevenueScales(f, x, y, ratio, n);
    TerminalIsShare(fx);
    TerminalIsShare(fy);
    TerminalUnitPositive(f);
    assert TerminalUnit(fx) == TerminalUnit(fy) == TerminalUnit(f);
    DiscountPositive(f, n);
    ShareOver(Revenue(fx, n), TerminalUnit(f), Pow(ratio, n), Discount(f, n));
    TimesPositive(Revenue(fx, n), TerminalUnit(f));
    OverPositive(TerminalValue(fx), Discount(f, n));
  }

  // ----- rise and fall, year by year

  /** What the first n years gain when growth goes from y up by the ratio u. */
  ghost function Rise(f: Forecast, y: real, u: real, n: nat): real
    requires Evaluable(f) && n <= |f.growth|
  {
    if n == 0 then 0.0 else Rise(f, y, u, n - 1) + Times(Year(f, y, n - 1), Pow(u, n) - 1.0)
  }

  lemma {:induction false} RiseIsChange(f: Forecast, y: real, z: real, u: real, n: nat)
    requires ValidForecast(f) && n <= |f.growth| && y > -1.0 && z > -1.0 && 1.0 + z == Times(u, 1.0 + y)
    ensures Explicit(At(f, z), n) - Explicit(At(f, y), n) == Rise(f, y, u, n)
  {
    hide Fcff, Over, Pow;
    if n > 0 {
      RiseIsChange(f, y, z, u, n - 1);
      YearScales(f, y, z, u, n - 1);
    }
  }

  /** Losses before gains: the rise above outweighs the fall below, measured by the lever at m. */
  lemma {:induction false} RiseOutweighs(f: Forecast, m: nat, y: real, s: real, u: real, n: nat)
    requires ValidForecast(f) && LossesFirst(f, m) && n <= |f.growth| && y > -1.0 && 0.0 < s <= 1.0 <= u
    ensures Times(Rise(f, y, u, n), 1.0 - Pow(s, m)) >= Times(Pow(u, m) - 1.0, -Rise(f, y, s, n))
  {
    hide Pow, Year, LossesFirst, Times;
    if n > 0 {
      RiseOutweighs(f, m, y, s, u, n - 1);
      YearSign(f, m, y, n - 1);
      if n <= m {
        Lever(s, u, m, n);
      } else {
        Lever(s, u, n, m);
      }
      YearOutweighs(Year(f, y, n - 1), Pow(u, n) - 1.0, 1.0 - Pow(s, n), 1.0 - Pow(s, m), Pow(u, m) - 1.0);
      Opposite(Year(f, y, n - 1), Pow(s, n));
      LeverAdds(Rise(f, y, u, n - 1), Times(Year(f, y, n - 1), Pow(u, n) - 1.0), 1.0 - Pow(s, m), Pow(u, m) - 1.0,
                -Rise(f, y, s, n - 1), Times(Year(f, y, n - 1), 1.0 - Pow(s, n)));
    } else {
      NothingOutweighs(1.0 - Pow(s, m), Pow(u, m) - 1.0);
    }
  }

  lemma {:induction false} NothingOutweighs(k: real, l: real)
    ensures Times(0.0, k) == Times(l, 0.0) == 0.0
  {
  }

  lemma {:induction false} Opposite(c: real, p: real)
    ensures Times(c, 1.0 - p) == -Times(c, p - 1.0)
  {
  }

  /** A loss with the lever on its side, or a gain with the lever on the other. */
  lemma {:induction false} YearOutweighs(c: real, a: real, b: real, k: real, l: real)
    requires (c <= 0.0 && Times(a, k) <= Times(l, b)) || (c >= 0.0 && Times(a, k) >= Times(l, b))
    ensures Times(Times(c, a), k) >= Times(l, Times(c, b))
  {
    var d := a * k - l * b;
    assert c * d >= 0.0;
    assert (c * a) * k - l * (c * b) == c * d;
  }

  lemma {:induction false} YearSign(f: Forecast, m: nat, y: real, i: nat)
    requires ValidForecast(f) && LossesFirst(f, m) && i < |f.growth| && y > -1.0
    ensures if i < m then Year(f, y, i) <= 0.0 else Year(f, y, i) >= 0.0
  {
    hide Times, Over, Fcff, AfterTax, Pow;
    var fy := At(f, y);
    RevenuePositive(fy, i + 1);
    FcffIsShare(fy, i);
    assert UnitCash(fy, i) == UnitCash(f, i);
    DiscountPositive(f, i + 1);
    SignOver(Revenue(fy, i + 1), UnitCash(f, i), Discount(f, i + 1));
  }

  lemma {:induction false} SignOver(r: real, c: real, d: real)
    requires r > 0.0 && d > 0.0
    ensures c <= 0.0 ==> Over(Times(r, c), d) <= 0.0
    ensures c >= 0.0 ==> Over(Times(r, c), d) >= 0.0
  {
    OverMonotone(0.0, Times(r, c), d);
    OverMonotone(Times(r, c), 0.0, d);
    if c >= 0.0 {
      assert r * c >= 0.0;
    } else {
      assert r * -c >= 0.0;
    }
  }

  // ----- once it rises, it keeps rising

  /** What the terminal value gains. */
  ghost function Tail(f: Forecast, y: real, u: real): real
    requires Evaluable(f)
  {
    Times(Terminal(f, y), Pow(u, |f.growth|) - 1.0)
  }

  lemma {:induction false} TailOutweighs(f: Forecast, m: nat, y: real, s: real, u: real)
    requires ValidForecast(f) && m <= |f.growth| && y > -1.0 && 0.0 < s <= 1.0 <= u
    ensures Times(Tail(f, y, u), 1.0 - Pow(s, m)) >= Times(Pow(u, m) - 1.0, -Tail(f, y, s))
    ensures u > 1.0 ==> Tail(f, y, u) > 0.0
  {
    hide Pow, Terminal, Times;
    var n, t := |f.growth|, Terminal(f, y);
    One(1.0 + y);
    TerminalPower(f, y, y, 1.0);
    Lever(s, u, n, m);
    PowMonotone(u, 0, n);
    YearOutweighs(t, Pow(u, n) - 1.0, 1.0 - Pow(s, n), 1.0 - Pow(s, m), Pow(u, m) - 1.0);
    Opposite(t, Pow(s, n));
    if u > 1.0 {
      TimesPositive(t, Pow(u, n) - 1.0);
    }
  }

  lemma {:induction false} One(a: real)
    ensures a == Times(1.0, a)
  {
  }

  lemma {:induction false} ChangeOf(f: Forecast, y: real, z: real, u: real)
    requires ValidForecast(f) && y > -1.0 && z > -1.0 && 1.0 + z == Times(u, 1.0 + y)
    ensures OperatingValue(At(f, z)) - OperatingValue(At(f, y))
            == Rise(f, y, u, |f.growth|) + Tail(f, y, u)
  {
    hide Explicit, TerminalValue, Over, Pow, Rise;
    RiseIsChange(f, y, z, u, |f.growth|);
    TerminalPower(f, y, z, u);
    assert Discount(At(f, y), |f.growth|) == Discount(At(f, z), |f.growth|) == Discount(f, |f.growth|);
  }

  lemma {:induction false} RiseNonnegative(f: Forecast, y: real, u: real, n: nat)
    requires ValidForecast(f) && LossesFirst(f, 0) && n <= |f.growth| && y > -1.0 && u >= 1.0
    ensures Rise(f, y, u, n) >= 0.0
  {
    hide Pow, Year, LossesFirst, Times;
    if n > 0 {
      RiseNonnegative(f, y, u, n - 1);
      YearSign(f, 0, y, n - 1);
      PowMonotone(u, 0, n);
      TimesNonnegative(Year(f, y, n - 1), Pow(u, n) - 1.0);
    }
  }

  /** The value has no hill: if it rises between two growth rates, it rises from there on. */
  lemma {:induction false} OnceRising(f: Forecast, m: nat, x: real, y: real, z: real)
    requires ValidForecast(f) && LossesFirst(f, m) && -1.0 < x < y < z
    requires OperatingValue(At(f, x)) < OperatingValue(At(f, y))
    ensures OperatingValue(At(f, y)) < OperatingValue(At(f, z))
  {
    hide OperatingValue, Times, Over, Pow, LossesFirst, Rise, Tail;
    var n := |f.growth|;
    var s, u := Over(1.0 + x, 1.0 + y), Over(1.0 + z, 1.0 + y);
    RatioBelowOne(1.0 + x, 1.0 + y);
    RatioAboveOne(1.0 + y, 1.0 + z);
    ChangeOf(f, y, x, s);
    ChangeOf(f, y, z, u);
    LossesStartInside(f, m);
    TailOutweighs(f, m, y, s, u);
    if m == 0 {
      RiseNonnegative(f, y, u, n);
    } else {
      RiseOutweighs(f, m, y, s, u, n);
      LeverAdds(Rise(f, y, u, n), Tail(f, y, u), 1.0 - Pow(s, m), Pow(u, m) - 1.0, -Rise(f, y, s, n), -Tail(f, y, s));
      PowShrinks(s, 0, m);
      PowMonotone(u, 0, m);
      PositiveOutweighs(Rise(f, y, u, n) + Tail(f, y, u), 1.0 - Pow(s, m), Pow(u, m) - 1.0, -Rise(f, y, s, n) + -Tail(f, y, s));
    }
  }

  lemma {:induction false} PositiveOutweighs(up: real, k: real, l: real, down: real)
    requires Times(up, k) >= Times(l, down) && k > 0.0 && l > 0.0 && down > 0.0
    ensures up > 0.0
  {
    TimesPositive(l, down);
    TimesMonotone(if up < 0.0 then up else 0.0, 0.0, k);
    assert Times(0.0, k) == 0.0;
  }

  lemma {:induction false} RatioBelowOne(a: real, b: real)
    requires 0.0 < a < b
    ensures 0.0 < Over(a, b) < 1.0 && a == Times(Over(a, b), b)
  {
    assert a == a / b * b;
    OverMonotone(a, b, b);
    assert b / b == 1.0;
    OverPositive(a, b);
  }

  // ----- what follows for the solver

  /** The residual is never below zero, above, and below again. */
  lemma {:induction false} NoHill(p: Problem, m: nat, x: real, y: real, z: real)
    requires p.Valid() && p.spec.variable.RevenueCagr? && LossesFirst(p.forecast, m) && -1.0 < x < y < z
    ensures !(G(p, x) < 0.0 < G(p, y) && G(p, z) < 0.0)
  {
    hide OperatingValue, LossesFirst;
    if G(p, x) < 0.0 < G(p, y) {
      OnceRising(p.forecast, m, x, y, z);
    }
  }

  /** For any target: a converged interval above -1 holds every zero of the domain, however the midpoints
      were rounded. */
  lemma {:induction false} ValleyConvergedHoldsZero(p: Problem, s: SolveResult, m: nat, x: real)
    requires p.Valid() && Certificate(p, s) && s.state.Converged? && s.interval.Some? && s.interval.value.lo > -1.0
    requires p.spec.variable.RevenueCagr? && LossesFirst(p.forecast, m)
    requires p.spec.lower <= x <= p.spec.upper && G(p, x) == 0.0
    ensures s.interval.value.Contains(x)
  {
    hide Encloses, G, Certificate, LossesFirst, Evaluable, Roomy, AllKept, Tolerance, Increasing, Decreasing;
    if !s.interval.value.Contains(x) {
      var k := MissedZeroMeansMoreCrossings(p, s, x);
      var d, b := s.proof[k].domain, s.interval.value;
      IntervalOrdered(p, s);
      if d.hi < b.lo {
        NoHill(p, m, d.lo, d.hi, b.lo);
        NoHill(p, m, d.hi, b.lo, b.hi);
      } else {
        NoHill(p, m, b.lo, b.hi, d.lo);
        NoHill(p, m, b.hi, d.lo, d.hi);
      }
    }
  }

  lemma {:induction false} IntervalOrdered(p: Problem, s: SolveResult)
    requires p.Valid() && Certificate(p, s) && s.state.Converged?
    ensures s.interval.Some? && s.interval.value.lo < s.interval.value.hi && SignChange(p, s.interval.value)
  {
    hide Encloses, G, Certificate;
    ConvergedMeansUnique(p, s, p.spec.lower, p.spec.lower);
  }
}
