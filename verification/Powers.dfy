/** Powers of ten as reals, and the value of a decimal. */
module Powers {
  import opened Common
  import D = Decimals

  function Ten(k: int): (t: real)
    ensures t > 0.0
    decreases if k >= 0 then k else -k
  {
    if k == 0 then 1.0 else if k > 0 then 10.0 * Ten(k - 1) else Ten(k + 1) / 10.0
  }

  lemma {:induction false} TenStep(k: int)
    ensures Ten(k + 1) == 10.0 * Ten(k)
  {
  }

  lemma {:induction false} TenGrows(a: int, b: int)
    requires a <= b
    ensures Ten(a) <= Ten(b)
    ensures a < b ==> 10.0 * Ten(a) <= Ten(b)
    decreases b - a
  {
    if a < b {
      TenGrows(a, b - 1);
      TenStep(b - 1);
    }
  }

  /** A higher power is a whole multiple of a lower one. */
  lemma {:induction false} TenAdds(a: int, n: nat)
    ensures Ten(a + n) == Times(D.Pow10(n) as real, Ten(a))
  {
    hide Ten, Times;
    if n > 0 {
      TenAdds(a, n - 1);
      TenStep(a + n - 1);
      TimesTen(Ten(a + n - 1));
      Regroup(10, D.Pow10(n - 1), Ten(a));
    } else {
      Whole(Ten(a));
    }
  }

  lemma {:induction false} TimesTen(t: real)
    ensures Times(10.0, t) == 10.0 * t && Times(2.0, t) == 2.0 * t
  {
  }

  lemma {:induction false} Whole(t: real)
    ensures Times(1.0, t) == t && Times(0.0, t) == 0.0
  {
  }

  lemma {:induction false} Regroup(a: int, b: nat, u: real)
    ensures Times(a as real, Times(b as real, u)) == Times((a * b) as real, u)
  {
    var x, y := a as real, b as real;
    assert (a * b) as real == x * y;
    assert x * (y * u) == (x * y) * u;
  }

  lemma {:induction false} RegroupProduct(n: int, m: int, u: real, v: real)
    ensures Times(Times(n as real, u), Times(m as real, v)) == Times((n * m) as real, Times(u, v))
  {
    var x, y := n as real, m as real;
    assert (n * m) as real == x * y;
    assert (x * u) * (y * v) == (x * y) * (u * v);
  }

  lemma {:induction false} TenSum(e: int, f: int)
    ensures Ten(e + f) == Times(Ten(e), Ten(f))
    decreases if f >= 0 then f else -f
  {
    hide Times;
    if f > 0 {
      TenSum(e, f - 1);
      TenStep(e + f - 1);
      TenStep(f - 1);
      TenOut(Ten(e), Ten(f - 1));
    } else if f < 0 {
      TenSum(e, f + 1);
      TenStep(e + f);
      TenStep(f);
      TenOut(Ten(e), Ten(f));
    } else {
      Whole(Ten(e));
      One(Ten(e));
    }
  }

  lemma {:induction false} TenOut(a: real, b: real)
    ensures Times(a, 10.0 * b) == 10.0 * Times(a, b)
  {
  }

  lemma {:induction false} One(a: real)
    ensures Ten(0) == 1.0 && Times(a, 1.0) == a
  {
  }

  lemma {:induction false} TimesLinear(a: real, b: real, unit: real)
    ensures Times(a - b, unit) == Times(a, unit) - Times(b, unit)
    ensures Times(a + b, unit) == Times(a, unit) + Times(b, unit)
    ensures Times(-a, unit) == -Times(a, unit)
    ensures Times(0.5, unit) == unit / 2.0
  {
  }

  lemma {:induction false} ZeroPower()
    ensures Ten(0) == 1.0
  {
  }

  lemma {:induction false} TenPower()
    ensures D.Pow10(1) == 10
  {
  }

  lemma {:induction false} PowerStep()
    ensures D.Pow10(80) == 10 * D.Pow10(79)
  {
  }

  /** The number a decimal stands for. */
  function Value(d: D.Decimal): real {
    Times(d.coefficient as real, Ten(d.exponent))
  }

  /** In units of a lower power of ten. */
  lemma {:induction false} ValueInUnits(d: D.Decimal, m: int)
    requires m <= d.exponent
    ensures Value(d) == Times(D.Units(d, m) as real, Ten(m))
  {
    hide Ten, Times, D.Pow10;
    TenAdds(m, d.exponent - m);
    Regroup(d.coefficient, D.Pow10(d.exponent - m), Ten(m));
  }

  /** The signed sum of the numbers. */
  function SignedSum(values: seq<D.Decimal>, coefficients: seq<int>): real
    requires |values| == |coefficients|
  {
    if values == [] then 0.0 else
      var n := |values| - 1;
      SignedSum(values[..n], coefficients[..n]) + (if coefficients[n] == 1 then Value(values[n]) else -Value(values[n]))
  }

  /** Summing units sums the numbers. */
  lemma {:induction false} UnitsAddUp(values: seq<D.Decimal>, coefficients: seq<int>, m: int)
    requires |values| == |coefficients| && forall i :: 0 <= i < |values| ==> m <= values[i].exponent
    ensures SignedSum(values, coefficients) == Times(D.SumUnits(values, coefficients, m) as real, Ten(m))
  {
    hide Ten, Times, D.Units, Value;
    if values == [] {
      Whole(Ten(m));
    } else {
      var n := |values| - 1;
      UnitsAddUp(values[..n], coefficients[..n], m);
      ValueInUnits(values[n], m);
      var total, last := D.SumUnits(values[..n], coefficients[..n], m), D.Units(values[n], m);
      TimesLinear(total as real, last as real, Ten(m));
      assert (total + last) as real == total as real + last as real && (total - last) as real == total as real - last as real;
    }
  }
}
