/**
 The decimal context of the solver (packages/core/valuation.py CONTEXT): 80 digits, half even, exponents
 from -9999 to 9999. It has the properties that the solver's theorems ask of a rounding, and its midpoint
 can leave the interval it halves.
 */
module Contexts {
  import opened Common
  import opened Intervals
  import opened Certificates
  import opened Midpoints
  import opened Powers
  import D = Decimals

  const EMIN: int := -9999
  const EMAX: int := 9999

  // ----- powers of ten

  lemma {:induction false} TenIsDecade(k: int)
    ensures Decade(Ten(k))
  {
    if k >= 0 {
      TenIsPow(k);
    } else {
      TenIsInverse(-k);
    }
  }

  lemma {:induction false} TenIsPow(k: nat)
    ensures Ten(k) == Pow(10.0, k)
  {
    if k > 0 {
      TenIsPow(k - 1);
    }
  }

  lemma {:induction false} TenIsInverse(k: nat)
    ensures Ten(0 - k) * Pow(10.0, k) == 1.0
  {
    if k > 0 {
      TenIsInverse(k - 1);
      TenStep(0 - k);
      var t, q := Ten(0 - k), Pow(10.0, k - 1);
      assert t * (q * 10.0) == (10.0 * t) * q;
    }
  }

  lemma {:induction false} TenthsOf(m: int, n: nat)
    ensures Ten(m) * Pow(0.1, n) == Ten(m - n)
  {
    if n > 0 {
      TenthsOf(m, n - 1);
      TenStep(m - n);
      var t, q := Ten(m), Pow(0.1, n - 1);
      assert t * (q * 0.1) == (t * q) * 0.1;
    }
  }

  lemma {:induction false} UnitOfTen(m: int)
    ensures Unit(Ten(m)) == Ten(m - 80)
  {
    hide Ten, Pow;
    TenthsOf(m, 80);
  }

  // ----- rounding to a unit

  function HalfEven(q: real): int {
    var f := q.Floor;
    var d := q - f as real;
    if d < 0.5 then f else if d > 0.5 then f + 1 else if f % 2 == 0 then f else f + 1
  }

  function Ceiling(q: real): int {
    if q.Floor as real == q then q.Floor else q.Floor + 1
  }

  lemma {:induction false} HalfEvenNear(q: real, n: int)
    ensures -0.5 <= HalfEven(q) as real - q <= 0.5
    ensures q <= n as real ==> HalfEven(q) <= n
    ensures q >= n as real ==> HalfEven(q) >= n
  {
  }

  /** Nearest multiple of a unit, ties to even. */
  function RoundTo(x: real, unit: real): real
    requires unit > 0.0
  {
    Times(HalfEven(Over(x, unit)) as real, unit)
  }

  lemma {:induction false} Quotient(x: real, unit: real)
    requires unit > 0.0
    ensures x == Times(Over(x, unit), unit)
  {
  }

  lemma {:induction false} TimesOrder(a: real, b: real, unit: real)
    requires unit > 0.0
    ensures a <= b <==> Times(a, unit) <= Times(b, unit)
  {
    if a <= b {
      TimesMonotone(a, b, unit);
    } else {
      TimesStrict(b, a, unit);
    }
  }

  /** Half a unit away at most, and never past a multiple of the unit. */
  lemma {:induction false} RoundToNear(x: real, unit: real, n: int)
    requires unit > 0.0
    ensures -unit / 2.0 <= RoundTo(x, unit) - x <= unit / 2.0
    ensures x <= Times(n as real, unit) ==> RoundTo(x, unit) <= Times(n as real, unit)
    ensures x >= Times(n as real, unit) ==> RoundTo(x, unit) >= Times(n as real, unit)
  {
    hide Times, Over, HalfEven;
    var q := Over(x, unit);
    Quotient(x, unit);
    HalfEvenNear(q, n);
    var h := HalfEven(q) as real;
    TimesLinear(h, q, unit);
    TimesLinear(0.5, q, unit);
    TimesOrder(h - q, 0.5, unit);
    TimesOrder(-0.5, h - q, unit);
    TimesOrder(q, n as real, unit);
    TimesOrder(n as real, q, unit);
    TimesOrder(h, n as real, unit);
    TimesOrder(n as real, h, unit);
  }

  // ----- the context

  /** The exponent of the leading digit, not below the least one. */
  function Exponent(x: real, from: int): (e: int)
    requires from <= EMAX
    ensures from <= e <= EMAX
    ensures e < EMAX ==> Abs(x) < Ten(e + 1)
    ensures e > from ==> Abs(x) >= Ten(e)
    decreases EMAX - from
  {
    if from == EMAX || Abs(x) < Ten(from + 1) then from else Exponent(x, from + 1)
  }

  /** One unit in the 80th digit of x. */
  function LastDigit(x: real): (u: real)
    ensures u > 0.0
  {
    Ten(Exponent(x, EMIN) - 79)
  }

  function Near(x: real): real {
    RoundTo(x, LastDigit(x))
  }

  function Down(x: real): real {
    Times(Over(x, LastDigit(x)).Floor as real, LastDigit(x))
  }

  function Up(x: real): real {
    Times(Ceiling(Over(x, LastDigit(x))) as real, LastDigit(x))
  }

  function Context(): Rounding {
    Rounding(Down, Up, Near)
  }

  /** Its directed roundings enclose. */
  lemma {:induction false} ContextOutward()
    ensures Outward(Context())
  {
    hide LastDigit, Times, Over;
    forall x
      ensures Down(x) <= x <= Up(x)
    {
      var u := LastDigit(x);
      var q := Over(x, u);
      Quotient(x, u);
      TimesOrder(q.Floor as real, q, u);
      TimesOrder(q, Ceiling(q) as real, u);
    }
  }

  /** A number below 10^(k+1) has its leading digit at 10^k or below, and there if it is not smaller. */
  lemma {:induction false} ExponentBound(x: real, k: int)
    requires EMIN <= k < EMAX
    ensures Abs(x) < Ten(k + 1) ==> Exponent(x, EMIN) <= k
    ensures Ten(k) <= Abs(x) < Ten(k + 1) ==> Exponent(x, EMIN) == k
  {
    hide Ten, Abs;
    var e := Exponent(x, EMIN);
    if e > k {
      TenGrows(k + 1, e);
    } else if e < k {
      TenGrows(e + 1, k);
    }
  }

  /** Rounding a number with its leading digit at or below 10^k keeps within a whole multiple of 10^k. */
  lemma {:induction false} NearWithin(x: real, k: int, times: nat, bound: real)
    requires EMIN <= k <= EMAX && Exponent(x, EMIN) <= k
    requires bound == Times(times as real, Ten(k)) && -bound <= x <= bound
    ensures -bound <= Near(x) <= bound
    ensures -Ten(k - 79) / 2.0 <= Near(x) - x <= Ten(k - 79) / 2.0
  {
    hide Ten, RoundTo, Exponent, Times, D.Pow10;
    var e := Exponent(x, EMIN);
    var u, n := Ten(e - 79), k - e + 79;
    TenAdds(e - 79, n);
    var p := times * D.Pow10(n);
    Regroup(times, D.Pow10(n), u);
    TimesLinear(p as real, 0.0, u);
    RoundToNear(x, u, p);
    RoundToNear(x, u, 0 - p);
    TenGrows(e - 79, k - 79);
  }

  /** The context is an 80-digit context at every power of ten within its exponents. */
  lemma {:induction false} ContextHasEightyDigits(m: int)
    requires EMIN < m < EMAX
    ensures EightyDigits(Context(), Ten(m))
  {
    hide Ten, Near, Unit, Exponent, Decade;
    TenIsDecade(m);
    UnitOfTen(m);
    TenStep(m - 80);
    var d := Ten(m);
    TenStep(m);
    forall x | -d <= x <= d
      ensures -d <= Near(x) <= d && -Unit(d) / 2.0 <= Near(x) - x <= Unit(d) / 2.0
    {
      NearUpToDecade(x, m);
    }
    forall x | -2.0 * d <= x <= 2.0 * d
      ensures -2.0 * d <= Near(x) <= 2.0 * d && -5.0 * Unit(d) <= Near(x) - x <= 5.0 * Unit(d)
    {
      ExponentBound(x, m);
      TimesTen(d);
      NearWithin(x, m, 2, 2.0 * d);
    }
  }

  lemma {:induction false} NearUpToDecade(x: real, m: int)
    requires EMIN < m < EMAX && -Ten(m) <= x <= Ten(m)
    ensures -Ten(m) <= Near(x) <= Ten(m)
    ensures -Ten(m - 80) / 2.0 <= Near(x) - x <= Ten(m - 80) / 2.0
  {
    hide Ten, Near, Exponent, Times, D.Pow10;
    TenStep(m);
    TenStep(m - 1);
    if Abs(x) < Ten(m) {
      ExponentBound(x, m - 1);
      TimesTen(Ten(m - 1));
      NearWithin(x, m - 1, 10, Ten(m));
    } else {
      ExponentBound(x, m);
      TenAdds(m - 79, 79);
      TimesLinear(D.Pow10(79) as real, 0.0, Ten(m - 79));
      MultipleIsExact(if x > 0.0 then D.Pow10(79) else 0 - D.Pow10(79), m, x);
    }
  }

  /** A whole number of units in the last digit is exact. */
  lemma {:induction false} MultipleIsExact(n: int, k: int, x: real)
    requires x == Times(n as real, Ten(k - 79)) && Exponent(x, EMIN) == k
    ensures Near(x) == Down(x) == Up(x) == x
  {
    hide Ten, RoundTo, Exponent, Times, Over;
    RoundToNear(x, Ten(k - 79), n);
    Cancel(n as real, Ten(k - 79));
    assert (n as real).Floor == n;
  }

  // ----- what 80 digits carry exactly

  /** x is n units of 10^e, n of at most `digits` digits, with an exponent well inside the range. */
  ghost predicate Carried(x: real, n: int, e: int, digits: nat) {
    x == Times(n as real, Ten(e)) && D.AbsInt(n) < D.Pow10(digits) && -9000 <= e <= 9000
  }

  /** Eighty digits need no rounding. */
  lemma {:induction false} CarriedIsExact(x: real, n: int, e: int)
    requires Carried(x, n, e, 80)
    ensures Near(x) == Down(x) == Up(x) == x
  {
    hide Ten, Times, D.Pow10, Exponent, RoundTo, Near, Down, Up;
    var u := Ten(e);
    TenAdds(e, 80);
    TimesStrict(n as real, D.Pow10(80) as real, u);
    TimesStrict((0 - D.Pow10(80)) as real, n as real, u);
    TimesLinear(D.Pow10(80) as real, 0.0, u);
    ExponentBound(x, e + 79);
    var d := Exponent(x, EMIN) - 79;
    TenAdds(d, e - d);
    Regroup(n, D.Pow10(e - d), Ten(d));
    MultipleIsExact(n * D.Pow10(e - d), d + 79, x);
  }

  /** A product has as many digits as its factors together. */
  lemma {:induction false} CarriedProduct(x: real, n: int, e: int, y: real, m: int, f: int, digits: nat)
    requires Carried(x, n, e, digits) && Carried(y, m, f, digits) && -9000 <= e + f <= 9000
    ensures Carried(Times(x, y), n * m, e + f, digits + digits)
  {
    hide Ten, D.Pow10;
    TenSum(e, f);
    D.PowAdds(digits, digits);
    DigitsMultiply(n, m, D.Pow10(digits));
    RegroupProduct(n, m, Ten(e), Ten(f));
  }

  lemma {:induction false} DigitsMultiply(n: int, m: int, p: nat)
    requires D.AbsInt(n) < p && D.AbsInt(m) < p
    ensures D.AbsInt(n * m) < p * p
  {
    var a, b := D.AbsInt(n), D.AbsInt(m);
    D.AbsScales(n, b);
    assert D.AbsInt(n * m) == a * b by {
      if m >= 0 {
        D.AbsScales(n, m);
      } else {
        D.AbsScales(n, -m);
        assert n * m == -(n * -m);
      }
    }
    assert a * b <= a * p && a * p < p * p by { SmallerFactors(a, b, p); }
  }

  lemma {:induction false} SmallerFactors(a: nat, b: nat, p: nat)
    requires a < p && b < p
    ensures a * b <= a * p < p * p
  {
    assert a * (p - b) >= 0 && (p - a) * p > 0;
  }

  /** Sums of units are units of the sum. */
  lemma {:induction false} CarriedSum(x: real, n: int, y: real, m: int, e: int, digits: nat)
    requires x == Times(n as real, Ten(e)) && y == Times(m as real, Ten(e)) && -9000 <= e <= 9000
    ensures D.AbsInt(n + m) < D.Pow10(digits) ==> Carried(x + y, n + m, e, digits)
    ensures D.AbsInt(n - m) < D.Pow10(digits) ==> Carried(x - y, n - m, e, digits)
  {
    hide Ten, Times, D.Pow10;
    TimesLinear(n as real, m as real, Ten(e));
    assert (n + m) as real == n as real + m as real && (n - m) as real == n as real - m as real;
  }

  // ----- the midpoint that escapes

  /** At least n and less than n + 1 units of 10^(k-79), n of 80 digits: the leading digit is at 10^k. */
  lemma {:induction false} EightyDigitExponent(x: real, n: nat, k: int)
    requires EMIN < k < EMAX && D.Pow10(79) <= n < D.Pow10(80)
    requires Times(n as real, Ten(k - 79)) <= x < Times((n + 1) as real, Ten(k - 79))
    ensures Exponent(x, EMIN) == k
  {
    hide Ten, Exponent, Times, D.Pow10;
    var u := Ten(k - 79);
    TenAdds(k - 79, 79);
    TenAdds(k - 79, 80);
    TimesOrder(D.Pow10(79) as real, n as real, u);
    TimesOrder((n + 1) as real, D.Pow10(80) as real, u);
    TimesOrder(0.0, n as real, u);
    Whole(u);
    ExponentBound(x, k);
  }

  /** Half-even rounding of the sum 10k + 2r + 1 of two neighbours n = 5k + r and n + 1 to tens, halved. */
  function MiddleUnits(n: nat): nat {
    var k, r := n / 5, n % 5;
    if r <= 1 || (r == 2 && k % 2 == 0) then 5 * k else 5 * k + 5
  }

  /**
   The midpoint of two neighbouring 80-digit numbers between 0.5 and 1, exactly: their sum needs one digit
   more than there is, so the midpoint is a multiple of five units. It lies outside the two unless one of
   them is such a multiple, and then it is that one.
   */
  lemma {:induction false} MidpointEscapes(n: nat, lo: real, hi: real)
    requires 5 * D.Pow10(79) <= n < D.Pow10(80) - 1
    requires lo == Times(n as real, Ten(-80)) && hi == Times((n + 1) as real, Ten(-80))
    ensures lo < hi && Near(lo) == lo && Near(hi) == hi
    ensures Mid(Context(), lo, hi) == Times(MiddleUnits(n) as real, Ten(-80))
    ensures !(lo <= Mid(Context(), lo, hi) <= hi) <==> n % 5 in {1, 2, 3}
    ensures n % 5 in {0, 4} ==> Mid(Context(), lo, hi) in {lo, hi}
    ensures n % 5 == 3 ==> Mid(Context(), lo, hi) > hi
  {
    hide Ten, Near, Exponent, Times, D.Pow10, Carried;
    var u, m := Ten(-80), MiddleUnits(n);
    TimesStrict(n as real, (n + 1) as real, u);
    NeighbourIsExact(n, lo);
    NeighbourIsExact(n + 1, hi);
    NeighbourSum(n, lo, hi);
    HalfOfTens(m / 5, u);
    var half := Times(m as real, u);
    HalfIsExact(m, half);
    assert Mid(Context(), lo, hi) == half;
    TimesOrder(n as real, m as real, u);
    TimesOrder(m as real, n as real, u);
    TimesOrder(m as real, (n + 1) as real, u);
    TimesOrder((n + 1) as real, m as real, u);
  }

  lemma {:induction false} NeighbourIsExact(n: nat, x: real)
    requires n < D.Pow10(80) && x == Times(n as real, Ten(-80))
    ensures Near(x) == x
  {
    hide Ten, Near, Times, D.Pow10;
    CarriedIsExact(x, n, -80);
  }

  /** At most 10^80 units, and a multiple of five: eighty digits carry it. */
  lemma {:induction false} HalfIsExact(m: nat, half: real)
    requires m <= D.Pow10(80) && half == Times(m as real, Ten(-80))
    ensures Near(half) == half
  {
    hide Ten, Near, Times, D.Pow10;
    if m == D.Pow10(80) {
      TenAdds(-80, 80);
      ZeroPower();
      D.PowGrows(1, 80);
      TenPower();
      Whole(Ten(0));
      CarriedIsExact(half, 1, 0);
    } else {
      CarriedIsExact(half, m, -80);
    }
  }

  lemma {:induction false} HalfOfTens(h: nat, u: real)
    ensures Times(h as real, 10.0 * u) / 2.0 == Times((5 * h) as real, u)
  {
    var w := h as real;
    assert w * (10.0 * u) / 2.0 == (5.0 * w) * u;
  }

  /** The sum of the neighbours, rounded to tens of units. */
  lemma {:induction false} NeighbourSum(n: nat, lo: real, hi: real)
    requires 5 * D.Pow10(79) <= n < D.Pow10(80) - 1
    requires lo == Times(n as real, Ten(-80)) && hi == Times((n + 1) as real, Ten(-80))
    ensures Near(lo + hi) == Times((MiddleUnits(n) / 5) as real, 10.0 * Ten(-80)) && MiddleUnits(n) <= D.Pow10(80)
  {
    hide Ten, Exponent, Times, RoundTo, D.Pow10;
    var u, v, k, r := Ten(-80), Ten(-79), n / 5, n % 5;
    TenStep(-80);
    PowerStep();
    var q := k as real + (2 * r + 1) as real / 10.0;
    SumInTens(n, k, r, u, v, q);
    TimesOrder(k as real, q, v);
    TimesStrict(q, (k + 1) as real, v);
    EightyDigitExponent(lo + hi, k, 0);
    TensRound(lo + hi, k, r, v, q);
  }

  lemma {:induction false} SumInTens(n: nat, k: nat, r: nat, u: real, v: real, q: real)
    requires n == 5 * k + r && v == 10.0 * u && q == k as real + (2 * r + 1) as real / 10.0
    ensures Times(n as real, u) + Times((n + 1) as real, u) == Times(q, v)
  {
    var x, y := k as real, r as real;
    assert n as real == 5.0 * x + y && (n + 1) as real == 5.0 * x + y + 1.0;
    assert q == x + (2.0 * y + 1.0) / 10.0;
    assert (5.0 * x + y) * u + (5.0 * x + y + 1.0) * u == (x + (2.0 * y + 1.0) / 10.0) * (10.0 * u);
  }

  lemma {:induction false} TensRound(x: real, k: nat, r: nat, v: real, q: real)
    requires v > 0.0 && r < 5 && q == k as real + (2 * r + 1) as real / 10.0 && x == Times(q, v)
    ensures RoundTo(x, v) == Times((MiddleUnits(5 * k + r) / 5) as real, v)
  {
    hide Times, Over;
    Cancel(q, v);
    assert q.Floor == k;
    assert (5 * k + r) / 5 == k && (5 * k + r) % 5 == r;
  }

  lemma {:induction false} Cancel(q: real, v: real)
    requires v > 0.0
    ensures Over(Times(q, v), v) == q
  {
    assert q * v / v == q;
  }
}
