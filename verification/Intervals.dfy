/**
 Outward-rounded interval arithmetic and the value/derivative pairs built on it
 (packages/core/valuation.py, Bounds and Dual).

 Decimal rounding is a parameter: `down` and `up` are the context's ROUND_FLOOR and
 ROUND_CEILING, `near` its ROUND_HALF_EVEN. Every containment result below holds for
 any rounding that is outward, so in particular for the 80-digit context.
 */
module Intervals {
  import opened Common

  datatype Rounding = Rounding(down: real -> real, up: real -> real, near: real -> real)

  /** The only fact that containment needs about directed rounding. */
  ghost predicate Outward(r: Rounding) {
    && (forall x :: r.down(x) <= x)
    && (forall x :: x <= r.up(x))
  }

  datatype Bounds = Bounds(lo: real, hi: real) {
    predicate Ordered() {
      lo <= hi
    }

    predicate Contains(v: real) {
      lo <= v <= hi
    }

    /** 1 or -1 when the whole interval lies strictly on that side of zero, otherwise 0. */
    function Sign(): (s: int)
      ensures s == 1 ==> forall v :: Contains(v) ==> v > 0.0
      ensures s == -1 ==> forall v :: Contains(v) ==> v < 0.0
      ensures Ordered() ==> (s == 0 <==> Contains(0.0))
      ensures -1 <= s <= 1
    {
      if lo > 0.0 then 1 else if hi < 0.0 then -1 else 0
    }
  }

  function Point(v: real): Bounds {
    Bounds(v, v)
  }

  function Add(r: Rounding, a: Bounds, b: Bounds): Bounds {
    Bounds(r.down(a.lo + b.lo), r.up(a.hi + b.hi))
  }

  function Neg(a: Bounds): Bounds {
    Bounds(-a.hi, -a.lo)
  }

  function Sub(r: Rounding, a: Bounds, b: Bounds): Bounds {
    Add(r, a, Neg(b))
  }

  function Min4(a: real, b: real, c: real, d: real): real {
    Min(Min(a, b), Min(c, d))
  }

  function Max4(a: real, b: real, c: real, d: real): real {
    Max(Max(a, b), Max(c, d))
  }

  /** The extremes of four corner results, each rounded before the comparison. */
  function Hull(r: Rounding, ll: real, lh: real, hl: real, hh: real): Bounds {
    Bounds(Min4(r.down(ll), r.down(lh), r.down(hl), r.down(hh)), Max4(r.up(ll), r.up(lh), r.up(hl), r.up(hh)))
  }

  function Mul(r: Rounding, a: Bounds, b: Bounds): Bounds {
    Hull(r, Times(a.lo, b.lo), Times(a.lo, b.hi), Times(a.hi, b.lo), Times(a.hi, b.hi))
  }

  /** None is the source's ArithmeticError for a denominator that crosses zero. */
  function Div(r: Rounding, a: Bounds, b: Bounds): Option<Bounds> {
    if b.lo <= 0.0 <= b.hi || b.lo == 0.0 || b.hi == 0.0 then None
    else Some(Hull(r, Over(a.lo, b.lo), Over(a.lo, b.hi), Over(a.hi, b.lo), Over(a.hi, b.hi)))
  }

  /** The source multiplies up from one, so even the first factor is rounded. */
  function Power(r: Rounding, a: Bounds, exponent: nat): Bounds {
    if exponent == 0 then Point(1.0) else Mul(r, Power(r, a, exponent - 1), a)
  }

  // ----- containment of the operations

  lemma {:induction false} AddContains(r: Rounding, a: Bounds, b: Bounds, u: real, v: real)
    requires Outward(r) && a.Contains(u) && b.Contains(v)
    ensures Add(r, a, b).Contains(u + v)
  {
  }

  lemma {:induction false} SubContains(r: Rounding, a: Bounds, b: Bounds, u: real, v: real)
    requires Outward(r) && a.Contains(u) && b.Contains(v)
    ensures Sub(r, a, b).Contains(u - v)
  {
    AddContains(r, a, Neg(b), u, -v);
  }

  /** A product lies between two of the four products of its factors' ends. */
  lemma {:induction false} ProductBetweenCorners(l: real, u: real, h: real, m: real, v: real, k: real)
    requires l <= u <= h && m <= v <= k
    ensures Times(l, m) <= Times(u, v) || Times(l, k) <= Times(u, v)
         || Times(h, m) <= Times(u, v) || Times(h, k) <= Times(u, v)
    ensures Times(u, v) <= Times(l, m) || Times(u, v) <= Times(l, k)
         || Times(u, v) <= Times(h, m) || Times(u, v) <= Times(h, k)
  {
    hide Times;
    TimesMonotone(l, u, v);
    TimesMonotone(u, h, v);
    TimesMonotone(m, v, l);
    TimesMonotone(v, k, l);
    TimesMonotone(m, v, h);
    TimesMonotone(v, k, h);
  }

  /** Rounding the corners outward keeps everything between them. */
  lemma {:induction false} HullContains(r: Rounding, p: real, ll: real, lh: real, hl: real, hh: real)
    requires Outward(r)
    requires ll <= p || lh <= p || hl <= p || hh <= p
    requires p <= ll || p <= lh || p <= hl || p <= hh
    ensures Hull(r, ll, lh, hl, hh).Contains(p)
  {
  }

  lemma {:induction false} MulContains(r: Rounding, a: Bounds, b: Bounds, u: real, v: real)
    requires Outward(r) && a.Contains(u) && b.Contains(v)
    ensures Mul(r, a, b).Contains(Times(u, v))
  {
    hide Times, Hull;
    ProductBetweenCorners(a.lo, u, a.hi, b.lo, v, b.hi);
    HullContains(r, Times(u, v), Times(a.lo, b.lo), Times(a.lo, b.hi), Times(a.hi, b.lo), Times(a.hi, b.hi));
  }

  lemma {:induction false} ReciprocalBetween(lo: real, v: real, hi: real)
    requires lo <= v <= hi && (lo > 0.0 || hi < 0.0)
    ensures Over(1.0, hi) <= Over(1.0, v) <= Over(1.0, lo)
  {
    assert 1.0 / v - 1.0 / hi == (hi - v) / (v * hi);
    assert 1.0 / lo - 1.0 / v == (v - lo) / (lo * v);
    assert v * hi > 0.0 && lo * v > 0.0;
  }

  lemma {:induction false} OverIsTimes(x: real, y: real)
    requires y != 0.0
    ensures Over(x, y) == Times(x, Over(1.0, y))
  {
  }

  lemma {:induction false} DivContains(r: Rounding, a: Bounds, b: Bounds, u: real, v: real)
    requires Outward(r) && a.Contains(u) && b.Contains(v) && Div(r, a, b).Some?
    ensures v != 0.0
    ensures Div(r, a, b).value.Contains(Over(u, v))
  {
    hide Times, Over, Hull;
    ReciprocalBetween(b.lo, v, b.hi);
    ProductBetweenCorners(a.lo, u, a.hi, Over(1.0, b.hi), Over(1.0, v), Over(1.0, b.lo));
    OverIsTimes(u, v);
    OverIsTimes(a.lo, b.lo);
    OverIsTimes(a.lo, b.hi);
    OverIsTimes(a.hi, b.lo);
    OverIsTimes(a.hi, b.hi);
    HullContains(r, Over(u, v), Over(a.lo, b.lo), Over(a.lo, b.hi), Over(a.hi, b.lo), Over(a.hi, b.hi));
  }

  lemma {:induction false} PowerContains(r: Rounding, a: Bounds, u: real, n: nat)
    requires Outward(r) && a.Contains(u)
    ensures Power(r, a, n).Contains(Pow(u, n))
  {
    hide Times, Mul;
    if n > 0 {
      PowerContains(r, a, u, n - 1);
      MulContains(r, Power(r, a, n - 1), a, Pow(u, n - 1), u);
    }
  }

  // ----- value and derivative pairs

  datatype Dual = Dual(value: Bounds, derivative: Bounds) {
    /** The part at or above zero; both slopes are kept where the value may cross zero. */
    function Positive(): Dual {
      if value.lo >= 0.0 then this
      else if value.hi <= 0.0 then Constant(0.0)
      else Dual(Bounds(0.0, value.hi), Bounds(Min(0.0, derivative.lo), Max(0.0, derivative.hi)))
    }
  }

  function Constant(v: real): Dual {
    Dual(Point(v), Point(0.0))
  }

  function DualAdd(r: Rounding, a: Dual, b: Dual): Dual {
    Dual(Add(r, a.value, b.value), Add(r, a.derivative, b.derivative))
  }

  function DualSub(r: Rounding, a: Dual, b: Dual): Dual {
    Dual(Sub(r, a.value, b.value), Sub(r, a.derivative, b.derivative))
  }

  function DualMul(r: Rounding, a: Dual, b: Dual): Dual {
    Dual(Mul(r, a.value, b.value), Add(r, Mul(r, a.derivative, b.value), Mul(r, a.value, b.derivative)))
  }

  function DualDiv(r: Rounding, a: Dual, b: Dual): Option<Dual> {
    var value :- Div(r, a.value, b.value);
    var slope :- Div(r, Sub(r, Mul(r, a.derivative, b.value), Mul(r, a.value, b.derivative)), Power(r, b.value, 2));
    Some(Dual(value, slope))
  }

  /**
   What a pair promises about a quantity that takes the values u and v at two parameters a
   distance h >= 0 apart: both values lie in the value interval, and the change divided by h
   lies in the derivative interval. This needs no notion of limit, holds across a kink, and is
   what the certificates of the solver use.
   */
  ghost predicate Tracks(d: Dual, u: real, v: real, h: real) {
    && h >= 0.0
    && d.value.Contains(u) && d.value.Contains(v)
    && d.derivative.Ordered()
    && Times(d.derivative.lo, h) <= v - u <= Times(d.derivative.hi, h)
  }

  lemma {:induction false} QuotientBetween(lo: real, x: real, hi: real, h: real)
    requires h > 0.0 && Times(lo, h) <= x <= Times(hi, h)
    ensures lo <= Over(x, h) <= hi && Times(Over(x, h), h) == x
  {
  }

  /** The mean slope over the distance, a member of the derivative interval. */
  ghost function Slope(d: Dual, u: real, v: real, h: real): (s: real)
    requires Tracks(d, u, v, h)
    ensures d.derivative.Contains(s) && v - u == Times(s, h)
  {
    if h == 0.0 then d.derivative.lo else
      QuotientBetween(d.derivative.lo, v - u, d.derivative.hi, h);
      Over(v - u, h)
  }

  /** Conversely, any common slope inside the derivative interval tracks. */
  lemma {:induction false} TracksBySlope(d: Dual, u: real, v: real, h: real, s: real)
    requires h >= 0.0 && d.value.Contains(u) && d.value.Contains(v)
    requires d.derivative.Contains(s) && v - u == Times(s, h)
    ensures Tracks(d, u, v, h)
  {
    hide Times;
    TimesMonotone(d.derivative.lo, s, h);
    TimesMonotone(s, d.derivative.hi, h);
  }

  lemma {:induction false} ConstantTracks(c: real, h: real)
    requires h >= 0.0
    ensures Tracks(Constant(c), c, c, h)
  {
  }

  lemma {:induction false} TimesDistributes(s: real, t: real, h: real)
    ensures Times(s + t, h) == Times(s, h) + Times(t, h)
    ensures Times(s - t, h) == Times(s, h) - Times(t, h)
  {
  }

  lemma {:induction false} AddTracks(r: Rounding, a: Dual, u: real, v: real, b: Dual, w: real, z: real, h: real)
    requires Outward(r) && Tracks(a, u, v, h) && Tracks(b, w, z, h)
    ensures Tracks(DualAdd(r, a, b), u + w, v + z, h)
  {
    hide Times;
    var s, t := Slope(a, u, v, h), Slope(b, w, z, h);
    TimesDistributes(s, t, h);
    AddContains(r, a.derivative, b.derivative, s, t);
    TracksBySlope(DualAdd(r, a, b), u + w, v + z, h, s + t);
  }

  lemma {:induction false} SubTracks(r: Rounding, a: Dual, u: real, v: real, b: Dual, w: real, z: real, h: real)
    requires Outward(r) && Tracks(a, u, v, h) && Tracks(b, w, z, h)
    ensures Tracks(DualSub(r, a, b), u - w, v - z, h)
  {
    hide Times;
    var s, t := Slope(a, u, v, h), Slope(b, w, z, h);
    TimesDistributes(s, t, h);
    SubContains(r, a.derivative, b.derivative, s, t);
    TracksBySlope(DualSub(r, a, b), u - w, v - z, h, s - t);
  }

  /** The product rule for mean slopes. */
  lemma {:induction false} ProductChange(u: real, v: real, w: real, z: real, s: real, t: real, h: real)
    requires v - u == Times(s, h) && z - w == Times(t, h)
    ensures Times(v, z) - Times(u, w) == Times(Times(s, z) + Times(u, t), h)
  {
    assert v * z - u * w == (v - u) * z + u * (z - w);
    assert (s * h) * z + u * (t * h) == (s * z + u * t) * h;
  }

  lemma {:induction false} MulTracks(r: Rounding, a: Dual, u: real, v: real, b: Dual, w: real, z: real, h: real)
    requires Outward(r) && Tracks(a, u, v, h) && Tracks(b, w, z, h)
    ensures Tracks(DualMul(r, a, b), Times(u, w), Times(v, z), h)
  {
    hide Times, Mul, Add;
    var s, t := Slope(a, u, v, h), Slope(b, w, z, h);
    MulContains(r, a.value, b.value, u, w);
    MulContains(r, a.value, b.value, v, z);
    MulContains(r, a.derivative, b.value, s, z);
    MulContains(r, a.value, b.derivative, u, t);
    AddContains(r, Mul(r, a.derivative, b.value), Mul(r, a.value, b.derivative), Times(s, z), Times(u, t));
    ProductChange(u, v, w, z, s, t, h);
    TracksBySlope(DualMul(r, a, b), Times(u, w), Times(v, z), h, Times(s, z) + Times(u, t));
  }

  /** The quotient rule for mean slopes. */
  lemma {:induction false} QuotientChange(u: real, v: real, w: real, z: real, s: real, t: real, h: real)
    requires w != 0.0 && z != 0.0 && Times(w, z) != 0.0
    requires v - u == Times(s, h) && z - w == Times(t, h)
    ensures Over(v, z) - Over(u, w) == Times(Over(Times(s, w) - Times(u, t), Times(w, z)), h)
  {
    var x, y := v / z, u / w;
    assert v == x * z && u == y * w;
    var d, e := s * w - u * t, w * z;
    assert d * h == (x - y) * e by {
      assert (s * h) * w - u * (t * h) == d * h;
      assert (x * z - y * w) * w - (y * w) * (z - w) == (x - y) * e;
    }
    DivideBoth(d, h, x - y, e);
  }

  lemma {:induction false} DivideBoth(d: real, h: real, x: real, e: real)
    requires e != 0.0 && d * h == x * e
    ensures x == d / e * h
  {
    assert x == x * e / e;
    assert d * h / e == d / e * h;
  }

  lemma {:induction false} DivTracks(r: Rounding, a: Dual, u: real, v: real, b: Dual, w: real, z: real, h: real)
    requires Outward(r) && Tracks(a, u, v, h) && Tracks(b, w, z, h) && DualDiv(r, a, b).Some?
    ensures w != 0.0 && z != 0.0
    ensures Tracks(DualDiv(r, a, b).value, Over(u, w), Over(v, z), h)
  {
    hide Times, Over, Mul, Sub, Div, Power;
    var s, t := Slope(a, u, v, h), Slope(b, w, z, h);
    DivContains(r, a.value, b.value, u, w);
    DivContains(r, a.value, b.value, v, z);
    MulContains(r, a.derivative, b.value, s, w);
    MulContains(r, a.value, b.derivative, u, t);
    var top := Sub(r, Mul(r, a.derivative, b.value), Mul(r, a.value, b.derivative));
    SubContains(r, Mul(r, a.derivative, b.value), Mul(r, a.value, b.derivative), Times(s, w), Times(u, t));
    SquareContains(r, b.value, w, z);
    DivContains(r, top, Power(r, b.value, 2), Times(s, w) - Times(u, t), Times(w, z));
    QuotientChange(u, v, w, z, s, t, h);
    TracksBySlope(DualDiv(r, a, b).value, Over(u, w), Over(v, z), h, Over(Times(s, w) - Times(u, t), Times(w, z)));
  }

  /** The squared denominator encloses every mixed product, not only squares. */
  lemma {:induction false} SquareContains(r: Rounding, b: Bounds, w: real, z: real)
    requires Outward(r) && b.Contains(w) && b.Contains(z)
    ensures Power(r, b, 2).Contains(Times(w, z))
  {
    hide Mul;
    assert Power(r, b, 1) == Mul(r, Point(1.0), b);
    assert Power(r, b, 2) == Mul(r, Power(r, b, 1), b);
    assert Times(1.0, w) == w;
    MulContains(r, Point(1.0), b, 1.0, w);
    MulContains(r, Mul(r, Point(1.0), b), b, w, z);
  }

  /** The tax kink: cutting a tracked quantity off at zero is tracked by Positive(). */
  lemma {:induction false} PositiveTracks(a: Dual, u: real, v: real, h: real)
    requires Tracks(a, u, v, h)
    ensures Tracks(a.Positive(), Max(u, 0.0), Max(v, 0.0), h)
  {
    hide Times;
    var lo, hi := a.derivative.lo, a.derivative.hi;
    TimesMonotone(Min(0.0, lo), lo, h);
    TimesMonotone(Min(0.0, lo), 0.0, h);
    TimesMonotone(hi, Max(0.0, hi), h);
    TimesMonotone(0.0, Max(0.0, hi), h);
    assert Times(0.0, h) == 0.0 by {
      TimesZero(h);
    }
  }

  lemma {:induction false} TimesZero(h: real)
    ensures Times(0.0, h) == 0.0
  {
  }
}
