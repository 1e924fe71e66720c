/**
 Decimal sums and interpolations under a computed precision (packages/core/periods.py _exact_sum,
 packages/core/history.py _quantile): the digits asked for are enough, so the Inexact trap that
 guards both is never sprung.
 */
module Decimals {
  import opened Common

  datatype Decimal = Decimal(coefficient: int, exponent: int)

  function AbsInt(x: int): nat {
    if x < 0 then -x else x
  }

  function Pow10(n: nat): (p: nat)
    ensures p >= 1
  {
    if n == 0 then 1 else 10 * Pow10(n - 1)
  }

  /** Length of the decimal numeral; zero has one digit. */
  function Digits(n: nat): (d: nat)
    ensures d >= 1 && n < Pow10(d)
  {
    if n < 10 then 1 else Digits(n / 10) + 1
  }

  /** Decimal.adjusted: the exponent of the leading digit. */
  function Adjusted(d: Decimal): int {
    d.exponent + Digits(AbsInt(d.coefficient)) - 1
  }

  /** The computational limits shared by periods and history. */
  predicate InRange(d: Decimal) {
    Digits(AbsInt(d.coefficient)) <= 1000 && -1000 <= d.exponent <= 1000 && -1000 <= Adjusted(d) <= 1000
  }

  /** The whole number of units 10^m in the decimal. */
  function Units(d: Decimal, m: int): int
    requires m <= d.exponent
  {
    d.coefficient * Pow10(d.exponent - m)
  }

  /** Some coefficient of at most `precision` digits, with any exponent, carries n units exactly. */
  ghost predicate Representable(n: int, precision: nat) {
    exists c: int, k: nat :: n == c * Pow10(k) && AbsInt(c) < Pow10(precision)
  }

  // ----- powers and bounds

  lemma {:induction false} PowAdds(a: nat, b: nat)
    ensures Pow10(a + b) == Pow10(a) * Pow10(b)
  {
    if a > 0 {
      PowAdds(a - 1, b);
      TenTimes(Pow10(a - 1), Pow10(b), Pow10(a - 1 + b));
    }
  }

  lemma {:induction false} TenTimes(p: nat, q: nat, r: nat)
    requires r == p * q
    ensures 10 * r == (10 * p) * q
  {
  }

  lemma {:induction false} PowGrows(a: nat, b: nat)
    requires a <= b
    ensures Pow10(a) <= Pow10(b)
  {
    if a < b {
      PowGrows(a, b - 1);
    }
  }

  lemma {:induction false} ScaledBelow(c: nat, p: nat, q: nat, s: nat)
    requires c < p && q >= 1 && s == p * q
    ensures c * q < s
  {
    assert (p - c) * q >= 1;
  }

  /** A decimal whose leading digit is no higher than `top` has fewer than 10^(top+1-m) units. */
  lemma {:induction false} UnitsBelow(d: Decimal, m: int, top: int)
    requires m <= d.exponent && Adjusted(d) <= top
    ensures m <= top && AbsInt(Units(d, m)) < Pow10(top + 1 - m)
  {
    hide Digits;
    var c, q := AbsInt(d.coefficient), d.exponent - m;
    PowAdds(Digits(c), q);
    ScaledBelow(c, Pow10(Digits(c)), Pow10(q), Pow10(Digits(c) + q));
    PowGrows(Digits(c) + q, (top + 1 - m) as nat);
    assert AbsInt(Units(d, m)) == c * Pow10(q) by { AbsScales(d.coefficient, Pow10(q)); }
  }

  lemma {:induction false} AbsScales(c: int, p: nat)
    ensures AbsInt(c * p) == AbsInt(c) * p
  {
    if c < 0 {
      assert c * p <= 0 && -(c * p) == (-c) * p;
    } else {
      assert c * p >= 0;
    }
  }

  lemma {:induction false} SmallIsRepresentable(n: int, precision: nat)
    requires AbsInt(n) < Pow10(precision)
    ensures Representable(n, precision)
  {
    assert n == n * Pow10(0);
  }

  // ----- sums

  function MaxAdjusted(values: seq<Decimal>): (top: int)
    requires values != []
    ensures forall i :: 0 <= i < |values| ==> Adjusted(values[i]) <= top
  {
    var last := Adjusted(values[|values| - 1]);
    if |values| == 1 then last else
      var rest := MaxAdjusted(values[..|values| - 1]);
      if rest < last then last else rest
  }

  function MinExponent(values: seq<Decimal>): (m: int)
    requires values != []
    ensures forall i :: 0 <= i < |values| ==> m <= values[i].exponent
  {
    var last := values[|values| - 1].exponent;
    if |values| == 1 then last else
      var rest := MinExponent(values[..|values| - 1]);
      if last < rest then last else rest
  }

  function MaxInt(a: int, b: int): int {
    if a < b then b else a
  }

  /** The digits that _exact_sum and _quantile ask for. */
  function Precision(top: int, m: int): nat {
    MaxInt(50, top - m + 4)
  }

  /** The signed sum in units of 10^m. */
  function SumUnits(values: seq<Decimal>, coefficients: seq<int>, m: int): int
    requires |values| == |coefficients| && forall i :: 0 <= i < |values| ==> m <= values[i].exponent
  {
    if values == [] then 0 else
      var n := |values| - 1;
      SumUnits(values[..n], coefficients[..n], m) + (if coefficients[n] == 1 then Units(values[n], m) else -Units(values[n], m))
  }

  /** Up to a thousand operands, every partial sum stays below 10^(top + 4 - m). */
  lemma {:induction false} SumBelow(values: seq<Decimal>, coefficients: seq<int>, m: int, top: int)
    requires |values| == |coefficients| && m <= top
    requires forall i :: 0 <= i < |values| ==> m <= values[i].exponent && Adjusted(values[i]) <= top
    ensures AbsInt(SumUnits(values, coefficients, m)) <= |values| * Pow10(top + 1 - m)
  {
    hide Units, Adjusted, Pow10;
    if values != [] {
      var n := |values| - 1;
      SumBelow(values[..n], coefficients[..n], m, top);
      UnitsBelow(values[n], m, top);
      assert (n + 1) * Pow10(top + 1 - m) == n * Pow10(top + 1 - m) + Pow10(top + 1 - m);
    }
  }

  lemma {:induction false} ThousandFit(n: nat, top: int, m: int, sum: int)
    requires n <= 1000 && m <= top && AbsInt(sum) <= n * Pow10(top + 1 - m) && (n < 1000 || AbsInt(sum) < 1000 * Pow10(top + 1 - m))
    ensures AbsInt(sum) < Pow10(Precision(top, m))
  {
    var k := (top + 1 - m) as nat;
    assert Pow10(k + 3) == 1000 * Pow10(k) by {
      PowAdds(3, k);
      assert Pow10(3) == 10 * Pow10(2) && Pow10(2) == 10 * Pow10(1) && Pow10(1) == 10;
    }
    PowGrows(k + 3, Precision(top, m));
    if n < 1000 {
      ScaledBelow(n, 1000, Pow10(k), 1000 * Pow10(k));
    }
  }

  lemma {:induction false} StrictSumBelow(values: seq<Decimal>, coefficients: seq<int>, m: int, top: int)
    requires |values| == |coefficients| && m <= top && values != []
    requires forall i :: 0 <= i < |values| ==> m <= values[i].exponent && Adjusted(values[i]) <= top
    ensures AbsInt(SumUnits(values, coefficients, m)) < |values| * Pow10(top + 1 - m)
  {
    hide Units, Adjusted, Pow10;
    var n := |values| - 1;
    SumBelow(values[..n], coefficients[..n], m, top);
    UnitsBelow(values[n], m, top);
    assert (n + 1) * Pow10(top + 1 - m) == n * Pow10(top + 1 - m) + Pow10(top + 1 - m);
  }

  /** Every partial sum of up to a thousand operands is exact at the computed precision. */
  lemma {:induction false} PartialSumExact(values: seq<Decimal>, coefficients: seq<int>, k: nat)
    requires |values| == |coefficients| && values != [] && |values| <= 1000 && k <= |values|
    ensures Representable(SumUnits(values[..k], coefficients[..k], MinExponent(values)), Precision(MaxAdjusted(values), MinExponent(values)))
  {
    hide Units, Adjusted, Pow10, MaxAdjusted, MinExponent, Representable, Precision;
    var m, top := MinExponent(values), MaxAdjusted(values);
    UnitsBelow(values[0], m, top);
    var sum := SumUnits(values[..k], coefficients[..k], m);
    SumBelow(values[..k], coefficients[..k], m, top);
    if k == 1000 {
      StrictSumBelow(values[..k], coefficients[..k], m, top);
    }
    ThousandFit(k, top, m, sum);
    SmallIsRepresentable(sum, Precision(top, m));
  }

  /** _exact_sum: None is either the range refusal or the Inexact trap. The first concerns the
      operands alone; the second cannot happen for up to a thousand of them. */
  method ExactSum(values: seq<Decimal>, coefficients: seq<int>) returns (sum: Option<Decimal>)
    requires |values| == |coefficients| && values != []
    ensures sum.Some? ==> forall i :: 0 <= i < |values| ==> InRange(values[i])
    ensures sum.Some? ==> sum.value == Decimal(SumUnits(values, coefficients, MinExponent(values)), MinExponent(values))
    ensures |values| <= 1000 && (forall i :: 0 <= i < |values| ==> InRange(values[i])) ==> sum.Some?
  {
    hide Representable, Units, InRange, Pow10, Digits, Adjusted, MaxAdjusted, MinExponent, Precision;
    if exists i :: 0 <= i < |values| && !InRange(values[i]) {
      return None;
    }
    var m, precision := MinExponent(values), Precision(MaxAdjusted(values), MinExponent(values));
    var total := 0;
    for i := 0 to |values|
      invariant total == SumUnits(values[..i], coefficients[..i], m)
    {
      assert values[..i + 1][..i] == values[..i] && coefficients[..i + 1][..i] == coefficients[..i];
      var next := total + (if coefficients[i] == 1 then Units(values[i], m) else -Units(values[i], m));
      var inexact := Inexact(next, precision);
      if inexact {
        if |values| <= 1000 {
          PartialSumExact(values, coefficients, i + 1);
          assert false;
        }
        return None;
      }
      total := next;
    }
    assert values[..|values|] == values && coefficients[..|values|] == coefficients;
    sum := Some(Decimal(total, m));
  }

  /** Whether rounding n units to the precision would lose a nonzero digit. */
  method Inexact(n: int, precision: nat) returns (lost: bool)
    ensures lost <==> !Representable(n, precision)
  {
    var c := n;
    ghost var k: nat := 0;
    assert Pow10(0) == 1;
    while AbsInt(c) >= Pow10(precision) && c % 10 == 0
      invariant n == c * Pow10(k)
      invariant AbsInt(c) < Pow10(precision) || k == 0 || AbsInt(c) * 10 >= Pow10(precision)
      decreases AbsInt(c)
    {
      assert c * Pow10(k) == (c / 10) * Pow10(k + 1) by { TenOut(c, k); }
      c, k := c / 10, k + 1;
    }
    lost := AbsInt(c) >= Pow10(precision);
    if lost {
      forall d: int, j: nat | n == d * Pow10(j)
        ensures AbsInt(d) >= Pow10(precision)
      {
        NoShorter(c, k, d, j, precision);
      }
    } else {
      assert Representable(n, precision);
    }
  }

  lemma {:induction false} TenOut(c: int, k: nat)
    requires c % 10 == 0
    ensures c * Pow10(k) == (c / 10) * Pow10(k + 1)
  {
    var e := c / 10;
    assert c == 10 * e;
    assert (10 * e) * Pow10(k) == e * (10 * Pow10(k));
  }

  /** Once the last digit is not zero, no other split of the number has a shorter coefficient. */
  lemma {:induction false} NoShorter(c: int, k: nat, d: int, j: nat, precision: nat)
    requires c * Pow10(k) == d * Pow10(j) && c % 10 != 0 && AbsInt(c) >= Pow10(precision)
    ensures AbsInt(d) >= Pow10(precision)
  {
    hide Pow10;
    if j > k {
      var i := j - k;
      PowAdds(k, i);
      PowTen(i);
      EndsInZero(c, d, Pow10(k), Pow10(i), Pow10(i - 1));
      assert false;
    } else {
      var i := k - j;
      PowAdds(i, j);
      LongerCoefficient(c, d, Pow10(i), Pow10(j));
    }
  }

  lemma {:induction false} PowTen(i: nat)
    requires i > 0
    ensures Pow10(i) == 10 * Pow10(i - 1)
  {
  }

  lemma {:induction false} EndsInZero(c: int, d: int, p: nat, t: nat, q: nat)
    requires p >= 1 && c * p == d * (p * t) && t == 10 * q
    ensures c % 10 == 0
  {
    assert d * (p * t) == (d * t) * p;
    CancelPower(c, d * t, p);
    assert d * (10 * q) == 10 * (d * q);
  }

  lemma {:induction false} LongerCoefficient(c: int, d: int, t: nat, p: nat)
    requires p >= 1 && t >= 1 && c * (t * p) == d * p
    ensures AbsInt(d) >= AbsInt(c)
  {
    assert c * (t * p) == (c * t) * p;
    CancelPower(c * t, d, p);
    AbsScales(c, t);
    assert AbsInt(c) * t >= AbsInt(c) by { assert AbsInt(c) * (t - 1) >= 0; }
  }

  lemma {:induction false} CancelPower(a: int, b: int, p: nat)
    requires p >= 1 && a * p == b * p
    ensures a == b
  {
    assert (a - b) * p == 0;
  }

  /** The bound of a thousand is sharp: one more operand of fifty nines springs the trap. */
  lemma {:induction false} ThousandIsSharp(values: seq<Decimal>, ones: seq<int>, nines: nat)
    requires nines == Pow10(50) - 1 && |values| == |ones| == 1001
    requires forall i :: 0 <= i < 1001 ==> values[i] == Decimal(nines, 0) && ones[i] == 1
    ensures !Representable(SumUnits(values, ones, 0), Precision(49, 0)) && Digits(nines) == 50
  {
    hide Pow10, Digits, Representable;
    SumOfEqual(values, ones, nines);
    NinesEndInNine(50, nines);
    PowAdds(3, 50);
    PowThree();
    PowGrows(4, 50);
    PowFour();
    var sum := 1001 * nines;
    assert sum % 10 != 0;
    assert sum >= Pow10(53);
    LastDigitNotRepresentable(sum, 53);
    DigitsOfNines(50, nines);
  }

  lemma {:induction false} PowThree()
    ensures Pow10(3) == 1000
  {
    assert Pow10(1) == 10 && Pow10(2) == 100;
  }

  lemma {:induction false} PowFour()
    ensures Pow10(4) == 10000
  {
    assert Pow10(4) == 10 * Pow10(3);
    PowThree();
  }

  lemma {:induction false} NinesEndInNine(n: nat, nines: nat)
    requires n > 0 && nines == Pow10(n) - 1
    ensures nines % 10 == 9
  {
    assert Pow10(n) == 10 * Pow10(n - 1);
  }

  lemma {:induction false} DigitsOfNines(n: nat, nines: nat)
    requires n > 0 && nines == Pow10(n) - 1
    ensures Digits(nines) == n
  {
    if n > 1 {
      assert Pow10(n) == 10 * Pow10(n - 1) && Pow10(n - 1) == 10 * Pow10(n - 2);
      assert nines / 10 == Pow10(n - 1) - 1;
      DigitsOfNines(n - 1, nines / 10);
    } else {
      assert Pow10(1) == 10 * Pow10(0);
    }
  }

  lemma {:induction false} SumOfEqual(values: seq<Decimal>, ones: seq<int>, c: int)
    requires |values| == |ones| && forall i :: 0 <= i < |values| ==> values[i] == Decimal(c, 0) && ones[i] == 1
    ensures SumUnits(values, ones, 0) == |values| * c
  {
    if values != [] {
      var n := |values| - 1;
      SumOfEqual(values[..n], ones[..n], c);
      assert Units(values[n], 0) == c;
      assert (n + 1) * c == n * c + c;
    }
  }

  lemma {:induction false} LastDigitNotRepresentable(n: int, precision: nat)
    requires n % 10 != 0 && AbsInt(n) >= Pow10(precision)
    ensures !Representable(n, precision)
  {
    forall d: int, j: nat | n == d * Pow10(j)
      ensures AbsInt(d) >= Pow10(precision)
    {
      assert n * Pow10(0) == n;
      NoShorter(n, 0, d, j, precision);
    }
  }

  // ----- interpolation at quarter weights

  /** left*(1 - k/4) + right*(k/4) and both of its products, in hundredths of a unit: exact at the
      precision computed from the lower exponent and the higher leading digit. */
  lemma {:induction false} InterpolationExact(left: Decimal, right: Decimal, k: nat, m: int, top: int)
    requires 1 <= k <= 3
    requires m == (if left.exponent < right.exponent then left.exponent else right.exponent)
    requires top == MaxInt(Adjusted(left), Adjusted(right))
    ensures Representable(Units(left, m) * (100 - 25 * k), Precision(top, m))
    ensures Representable(Units(right, m) * (25 * k), Precision(top, m))
    ensures Representable(Units(left, m) * (100 - 25 * k) + Units(right, m) * (25 * k), Precision(top, m))
  {
    hide Units, Adjusted, Pow10, Representable;
    UnitsBelow(left, m, top);
    UnitsBelow(right, m, top);
    var u, v, w, p := Units(left, m), Units(right, m), 25 * k, Pow10(top + 1 - m);
    Weighted(u, v, w, p);
    Hundredths(top, m, u * (100 - w));
    Hundredths(top, m, v * w);
    Hundredths(top, m, u * (100 - w) + v * w);
  }

  lemma {:induction false} Weighted(u: int, v: int, w: nat, p: int)
    requires AbsInt(u) <= p && AbsInt(v) <= p && w in {25, 50, 75}
    ensures AbsInt(u * (100 - w)) <= 100 * p && AbsInt(v * w) <= 100 * p && AbsInt(u * (100 - w) + v * w) <= 100 * p
  {
    if w == 25 {
      assert u * (100 - w) == 75 * u && v * w == 25 * v;
    } else if w == 50 {
      assert u * (100 - w) == 50 * u && v * w == 50 * v;
    } else {
      assert u * (100 - w) == 25 * u && v * w == 75 * v;
    }
  }

  lemma {:induction false} Hundredths(top: int, m: int, n: int)
    requires m <= top && AbsInt(n) <= 100 * Pow10(top + 1 - m)
    ensures Representable(n, Precision(top, m))
  {
    var k := (top + 1 - m) as nat;
    assert Pow10(k + 3) == 1000 * Pow10(k) by {
      PowAdds(3, k);
      PowThree();
    }
    PowGrows(k + 3, Precision(top, m));
    SmallIsRepresentable(n, Precision(top, m));
  }
}
