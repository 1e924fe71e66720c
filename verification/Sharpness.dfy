/**
 How sharp interval evaluation is. Each operation widens an interval by what its operands' sizes allow and
 one rounding on either side, so the width of the residual over a narrow bracket has a bound that can be
 computed before a solve; if the bound is within the tolerance, the problem is sharp.
 */
module Sharpness {
  import opened Common
  import opened Intervals
  import opened Forecasts
  import opened Residuals
  import opened Certificates
  import opened Midpoints
  import opened Solving
  import opened Powers
  import C = Contexts

  /** Rounding moves a number x by at most relative * |x| + absolute. */
  datatype Slip = Slip(relative: real, absolute: real)

  ghost predicate Slips(r: Rounding, e: Slip) {
    && e.relative >= 0.0 && e.absolute >= 0.0
    && (forall x :: x - Of(e, Abs(x)) <= r.down(x) <= x)
    && (forall x :: x <= r.up(x) <= x + Of(e, Abs(x)))
  }

  function Of(e: Slip, m: real): real {
    Times(e.relative, m) + e.absolute
  }

  lemma {:induction false} OfMonotone(e: Slip, m: real, n: real)
    requires e.relative >= 0.0 && e.absolute >= 0.0 && 0.0 <= m <= n
    ensures 0.0 <= Of(e, m) <= Of(e, n)
  {
    TimesMonotone(m, n, e.relative);
    TimesNonnegative(e.relative, m);
  }

  // ----- sizes

  /** No end beyond mag, no wider than wid, and no end below low. */
  datatype Size = Size(mag: real, wid: real, low: real)

  ghost predicate Sized(b: Bounds, z: Size) {
    b.lo <= b.hi && -z.mag <= b.lo && b.hi <= z.mag && b.hi - b.lo <= z.wid && z.low <= b.lo
  }

  function Exact(v: real): Size {
    Size(Abs(v), 0.0, v)
  }

  function AddSize(e: Slip, a: Size, b: Size): Size {
    var k := Of(e, a.mag + b.mag);
    Size(a.mag + b.mag + k, a.wid + b.wid + 2.0 * k, a.low + b.low - k)
  }

  function NegSize(a: Size): Size {
    Size(a.mag, a.wid, -a.mag)
  }

  function SubSize(e: Slip, a: Size, b: Size): Size {
    AddSize(e, a, NegSize(b))
  }

  /** The size of a rounded hull of corners that are at most m, at most w apart and at least l. */
  function HullSize(e: Slip, m: real, w: real, l: real): Size {
    var k := Of(e, m);
    Size(m + k, w + 2.0 * k, l - k)
  }

  function MulSize(e: Slip, a: Size, b: Size): Size {
    HullSize(e, Times(a.mag, b.mag), Times(a.mag, b.wid) + Times(b.mag, a.wid),
             if a.low >= 0.0 && b.low >= 0.0 then Times(a.low, b.low) else -Times(a.mag, b.mag))
  }

  function SquareSize(e: Slip, a: Size): Size {
    MulSize(e, MulSize(e, Exact(1.0), a), a)
  }

  /** None unless the denominator and its square are certain to stay above zero. */
  function DivSize(e: Slip, a: Size, b: Size): Option<Size> {
    if b.low <= 0.0 || SquareSize(e, b).low <= 0.0 then None
    else
      var m := Over(a.mag, b.low);
      Some(HullSize(e, m, Over(a.wid, b.low) + Over(Times(m, b.wid), b.low), -m))
  }

  function PositiveSize(a: Size): Size {
    Size(a.mag, a.wid, 0.0)
  }

  // ----- each operation keeps its size

  lemma {:induction false} RoundedNear(r: Rounding, e: Slip, x: real, m: real)
    requires Slips(r, e) && -m <= x <= m
    ensures x - Of(e, m) <= r.down(x) <= x <= r.up(x) <= x + Of(e, m)
  {
    hide Of;
    OfMonotone(e, Abs(x), m);
  }

  lemma {:induction false} AddSized(r: Rounding, e: Slip, a: Bounds, za: Size, b: Bounds, zb: Size)
    requires Slips(r, e) && Sized(a, za) && Sized(b, zb)
    ensures Sized(Add(r, a, b), AddSize(e, za, zb))
  {
    hide Slips, Of;
    RoundedNear(r, e, a.lo + b.lo, za.mag + zb.mag);
    RoundedNear(r, e, a.hi + b.hi, za.mag + zb.mag);
  }

  lemma {:induction false} SubSized(r: Rounding, e: Slip, a: Bounds, za: Size, b: Bounds, zb: Size)
    requires Slips(r, e) && Sized(a, za) && Sized(b, zb)
    ensures Sized(Sub(r, a, b), SubSize(e, za, zb))
  {
    AddSized(r, e, a, za, Neg(b), NegSize(zb));
  }

  lemma {:induction false} HullSized(r: Rounding, e: Slip, c: seq<real>, m: real, w: real, l: real)
    requires Slips(r, e) && |c| == 4
    requires forall i :: 0 <= i < 4 ==> -m <= c[i] <= m && l <= c[i]
    requires forall i, j :: 0 <= i < 4 && 0 <= j < 4 ==> c[i] - c[j] <= w
    ensures Sized(Hull(r, c[0], c[1], c[2], c[3]), HullSize(e, m, w, l))
  {
    hide Slips, Of;
    RoundedNear(r, e, c[0], m);
    RoundedNear(r, e, c[1], m);
    RoundedNear(r, e, c[2], m);
    RoundedNear(r, e, c[3], m);
    assert c[0] - c[1] <= w && c[0] - c[2] <= w && c[0] - c[3] <= w && c[0] - c[0] <= w;
  }

  /** Two products of close factors are close. */
  lemma {:induction false} ProductsClose(u: real, v: real, x: real, y: real, ma: real, wa: real, mb: real, wb: real)
    requires -ma <= u <= ma && -ma <= x <= ma && -mb <= v <= mb && -mb <= y <= mb
    requires -wa <= u - x <= wa && -wb <= v - y <= wb
    ensures Times(u, v) - Times(x, y) <= Times(ma, wb) + Times(mb, wa)
    ensures -Times(ma, mb) <= Times(u, v) <= Times(ma, mb)
  {
    Bounded(u, v - y, ma, wb);
    Bounded(y, u - x, mb, wa);
    Bounded(u, v, ma, mb);
    hide Times;
    ProductSplit(u, v, x, y);
  }

  lemma {:induction false} ProductSplit(u: real, v: real, x: real, y: real)
    ensures Times(u, v) - Times(x, y) == Times(u, v - y) + Times(y, u - x)
  {
  }

  lemma {:induction false} Bounded(u: real, v: real, m: real, n: real)
    requires -m <= u <= m && -n <= v <= n
    ensures -Times(m, n) <= Times(u, v) <= Times(m, n)
  {
    var a, b := Abs(u), Abs(v);
    TimesMonotone(a, m, b);
    TimesMonotone(b, n, m);
    AbsTimes(u, v);
  }

  lemma {:induction false} AbsTimes(u: real, v: real)
    ensures -Times(Abs(u), Abs(v)) <= Times(u, v) <= Times(Abs(u), Abs(v))
  {
    if u >= 0.0 && v >= 0.0 {
      assert u * v >= 0.0;
    } else if u >= 0.0 {
      assert u * -v >= 0.0;
      assert u * v == -(u * -v);
    } else if v >= 0.0 {
      assert -u * v >= 0.0;
      assert u * v == -(-u * v);
    } else {
      assert -u * -v >= 0.0;
      assert u * v == -u * -v;
    }
  }

  lemma {:induction false} ProductAbove(u: real, v: real, a: real, b: real)
    requires 0.0 <= a <= u && 0.0 <= b <= v
    ensures Times(a, b) <= Times(u, v)
  {
    TimesMonotone(a, u, b);
    TimesMonotone(b, v, u);
  }

  /** The ends that make the i-th of four corners. */
  function FirstEnd(a: Bounds, i: int): real {
    if i < 2 then a.lo else a.hi
  }

  function SecondEnd(b: Bounds, i: int): real {
    if i == 0 || i == 2 then b.lo else b.hi
  }

  lemma {:induction false} MulSized(r: Rounding, e: Slip, a: Bounds, za: Size, b: Bounds, zb: Size)
    requires Slips(r, e) && Sized(a, za) && Sized(b, zb)
    ensures Sized(Mul(r, a, b), MulSize(e, za, zb))
  {
    hide Slips, Times, HullSize, Hull;
    var w := Times(za.mag, zb.wid) + Times(zb.mag, za.wid);
    var l := if za.low >= 0.0 && zb.low >= 0.0 then Times(za.low, zb.low) else -Times(za.mag, zb.mag);
    var c := [Times(a.lo, b.lo), Times(a.lo, b.hi), Times(a.hi, b.lo), Times(a.hi, b.hi)];
    forall i, j | 0 <= i < 4 && 0 <= j < 4
      ensures c[i] - c[j] <= w && -Times(za.mag, zb.mag) <= c[i] <= Times(za.mag, zb.mag) && l <= c[i]
    {
      var u, v, x, y := FirstEnd(a, i), SecondEnd(b, i), FirstEnd(a, j), SecondEnd(b, j);
      ProductsClose(u, v, x, y, za.mag, za.wid, zb.mag, zb.wid);
      if za.low >= 0.0 && zb.low >= 0.0 {
        ProductAbove(u, v, za.low, zb.low);
      }
    }
    HullSized(r, e, c, Times(za.mag, zb.mag), w, l);
  }

  /** Two quotients by close denominators above a bound are close. */
  lemma {:induction false} QuotientsClose(u: real, v: real, x: real, y: real, m: real, w: real, n: real, d: real)
    requires -m <= u <= m && -m <= x <= m && -w <= u - x <= w && 0.0 < d <= v && d <= y && -n <= v - y <= n
    ensures Over(u, v) - Over(x, y) <= Over(w, d) + Over(Times(Over(m, d), n), d)
    ensures -Over(m, d) <= Over(u, v) <= Over(m, d)
  {
    hide Times, Over;
    QuotientWithin(u, v, m, d);
    QuotientWithin(x, y, m, d);
    QuotientWithin(u - x, v, w, d);
    var q, k := Over(x, y), Over(m, d);
    Bounded(q, y - v, k, n);
    QuotientWithin(Times(q, y - v), v, Times(k, n), d);
    QuotientSplit(u, v, x, y);
  }

  lemma {:induction false} QuotientWithin(u: real, v: real, m: real, d: real)
    requires -m <= u <= m && 0.0 < d <= v
    ensures -Over(m, d) <= Over(u, v) <= Over(m, d)
  {
    OverMonotone(u, m, v);
    OverMonotone(-m, u, v);
    OverShrinks(m, d, v);
    assert -m / v == -(m / v);
  }

  lemma {:induction false} OverShrinks(m: real, d: real, v: real)
    requires m >= 0.0 && 0.0 < d <= v
    ensures Over(m, v) <= Over(m, d)
  {
    hide Times, Over;
    var q := Over(m, d);
    QuotientTimes(m, d);
    QuotientOf(q, v);
    OverMonotone(0.0, m, d);
    QuotientOf(0.0, d);
    TimesMonotone(d, v, q);
    OverMonotone(m, Times(q, v), v);
    ZeroTimes(d);
  }

  lemma {:induction false} QuotientTimes(m: real, d: real)
    requires d > 0.0
    ensures Times(Over(m, d), d) == m
  {
  }

  lemma {:induction false} QuotientOf(q: real, v: real)
    requires v > 0.0
    ensures Over(Times(q, v), v) == q
  {
  }

  lemma {:induction false} ZeroTimes(d: real)
    ensures Times(0.0, d) == 0.0
  {
  }

  lemma {:induction false} QuotientSplit(u: real, v: real, x: real, y: real)
    requires v > 0.0 && y > 0.0
    ensures Over(u, v) - Over(x, y) == Over(u - x, v) + Over(Times(Over(x, y), y - v), v)
  {
    var q := x / y;
    assert x == q * y;
    assert q * (y - v) == x - q * v;
    assert (u - x) / v + (x - q * v) / v == (u - q * v) / v;
    assert (u - q * v) / v == u / v - q * v / v;
    assert q * v / v == q;
  }

  lemma {:induction false} DivSized(r: Rounding, e: Slip, a: Bounds, za: Size, b: Bounds, zb: Size)
    requires Slips(r, e) && Sized(a, za) && Sized(b, zb) && DivSize(e, za, zb).Some?
    ensures Div(r, a, b).Some? && Sized(Div(r, a, b).value, DivSize(e, za, zb).value)
  {
    hide Slips, Times, Over, HullSize, Hull, SquareSize;
    var m := Over(za.mag, zb.low);
    var w := Over(za.wid, zb.low) + Over(Times(m, zb.wid), zb.low);
    var c := [Over(a.lo, b.lo), Over(a.lo, b.hi), Over(a.hi, b.lo), Over(a.hi, b.hi)];
    forall i, j | 0 <= i < 4 && 0 <= j < 4
      ensures c[i] - c[j] <= w && -m <= c[i] <= m
    {
      QuotientsClose(FirstEnd(a, i), SecondEnd(b, i), FirstEnd(a, j), SecondEnd(b, j), za.mag, za.wid, zb.wid, zb.low);
    }
    HullSized(r, e, c, m, w, -m);
  }

  lemma {:induction false} SquareSized(r: Rounding, e: Slip, b: Bounds, z: Size)
    requires Slips(r, e) && Sized(b, z)
    ensures Sized(Power(r, b, 2), SquareSize(e, z))
  {
    hide Slips, MulSize, Mul;
    ExactSized(1.0);
    MulSized(r, e, Point(1.0), Exact(1.0), b, z);
    MulSized(r, e, Mul(r, Point(1.0), b), MulSize(e, Exact(1.0), z), b, z);
    assert Power(r, b, 0) == Point(1.0) && Power(r, b, 1) == Mul(r, Point(1.0), b);
    assert Power(r, b, 2) == Mul(r, Power(r, b, 1), b);
  }

  lemma {:induction false} ExactSized(v: real)
    ensures Sized(Point(v), Exact(v))
  {
  }

  // ----- pairs, by their values

  ghost predicate DualSized(d: Dual, z: Size) {
    Sized(d.value, z)
  }

  /** Division succeeds and keeps its size; the slope's denominator is the square. */
  lemma {:induction false} DualDivSized(r: Rounding, e: Slip, a: Dual, za: Size, b: Dual, zb: Size)
    requires Slips(r, e) && DualSized(a, za) && DualSized(b, zb) && DivSize(e, za, zb).Some?
    ensures DualDiv(r, a, b).Some? && DualSized(DualDiv(r, a, b).value, DivSize(e, za, zb).value)
  {
    hide Slips, Mul, Sub, SquareSize, HullSize, Hull, Power;
    DivSized(r, e, a.value, za, b.value, zb);
    SquareSized(r, e, b.value, zb);
    DenominatorAbove(e, za, zb);
    assert Power(r, b.value, 2).lo > 0.0;
  }

  lemma {:induction false} DenominatorAbove(e: Slip, za: Size, zb: Size)
    requires DivSize(e, za, zb).Some?
    ensures zb.low > 0.0 && SquareSize(e, zb).low > 0.0
  {
    hide SquareSize, HullSize;
  }

  lemma {:induction false} DualPositiveSized(a: Dual, z: Size)
    requires DualSized(a, z)
    ensures DualSized(a.Positive(), PositiveSize(z))
  {
  }

  // ----- the residual

  datatype YearSizes = YearSizes(revenue: Size, total: Size, discount: Size)

  ghost predicate YearsSized(y: Years, z: YearSizes) {
    DualSized(y.revenue, z.revenue) && DualSized(y.total, z.total) && DualSized(y.discount, z.discount)
  }

  function GrowthSize(f: Forecast, s: SolveSpec, x: Size, i: nat): Size
    requires i < |f.growth|
  {
    if s.variable.RevenueCagr? then x else Exact(f.growth[i])
  }

  function ReinvestmentSize(f: Forecast, s: SolveSpec, x: Size, i: nat): Size
    requires i < |f.reinvestment|
  {
    if s.variable.ReinvestmentToRevenue? then x else Exact(f.reinvestment[i])
  }

  function MarginSize(e: Slip, f: Forecast, s: SolveSpec, x: Size, i: nat): Size
    requires Solvable(f, s) && i < |f.growth|
  {
    if s.variable.TerminalOperatingMargin? then
      var weight := Exact(s.marginWeights[i]);
      AddSize(e, MulSize(e, SubSize(e, Exact(1.0), weight), Exact(s.anchorMargin.value)), MulSize(e, weight, x))
    else Exact(f.margins[i])
  }

  function YearSize(e: Slip, f: Forecast, s: SolveSpec, x: Size, i: nat, y: YearSizes): Option<YearSizes>
    requires Solvable(f, s) && i < |f.growth|
  {
    var revenue := MulSize(e, y.revenue, AddSize(e, Exact(1.0), GrowthSize(f, s, x, i)));
    var ebit := MulSize(e, revenue, MarginSize(e, f, s, x, i));
    var nopat := SubSize(e, ebit, MulSize(e, PositiveSize(ebit), Exact(f.taxes[i])));
    var discount := MulSize(e, y.discount, AddSize(e, Exact(1.0), Exact(f.wacc)));
    var pv :- DivSize(e, SubSize(e, nopat, MulSize(e, revenue, ReinvestmentSize(f, s, x, i))), discount);
    Some(YearSizes(revenue, AddSize(e, y.total, pv), discount))
  }

  function FirstYearsSize(e: Slip, f: Forecast, s: SolveSpec, x: Size, i: nat): Option<YearSizes>
    requires Solvable(f, s) && i <= |f.growth|
  {
    if i == 0 then Some(YearSizes(Exact(f.anchor), Exact(0.0), Exact(1.0)))
    else
      var y :- FirstYearsSize(e, f, s, x, i - 1);
      YearSize(e, f, s, x, i - 1, y)
  }

  function TerminalNopatSize(e: Slip, f: Forecast, s: SolveSpec, x: Size, revenue: Size): Size {
    var margin := if s.variable.TerminalOperatingMargin? then x else Exact(f.terminalMargin);
    MulSize(e, MulSize(e, MulSize(e, revenue, AddSize(e, Exact(1.0), Exact(f.terminalGrowth))), margin),
            SubSize(e, Exact(1.0), Exact(f.terminalTax)))
  }

  /** a - b for exact operands, with its own lower end. */
  function GapSize(e: Slip, a: real, b: real): Size {
    var k := Of(e, Abs(a) + Abs(b));
    Size(Abs(a) + Abs(b) + k, 2.0 * k, a - b - k)
  }

  function CapitalizedSize(e: Slip, f: Forecast, tn: Size): Option<Size> {
    var ti :- DivSize(e, MulSize(e, tn, Exact(f.terminalGrowth)), Exact(f.terminalRoic));
    DivSize(e, SubSize(e, tn, ti), GapSize(e, f.wacc, f.terminalGrowth))
  }

  function TerminalSize(e: Slip, f: Forecast, s: SolveSpec, x: Size, y: YearSizes): Option<Size> {
    var tv :- CapitalizedSize(e, f, TerminalNopatSize(e, f, s, x, y.revenue));
    DivSize(e, tv, y.discount)
  }

  /** The size of the residual over any parameter interval of size x, if no denominator can reach zero. */
  function ResidualSize(e: Slip, f: Forecast, s: SolveSpec, x: Size, target: real): Option<Size>
    requires Solvable(f, s)
  {
    var y :- FirstYearsSize(e, f, s, x, |f.growth|);
    var terminal :- TerminalSize(e, f, s, x, y);
    Some(SubSize(e, AddSize(e, y.total, terminal), Exact(target)))
  }

  lemma {:induction false} MarginSized(r: Rounding, e: Slip, f: Forecast, s: SolveSpec, domain: Bounds, x: Size, i: nat)
    requires Slips(r, e) && Solvable(f, s) && i < |f.growth| && Sized(domain, x)
    ensures DualSized(MarginOver(r, f, s, domain, i), MarginSize(e, f, s, x, i))
  {
    hide Slips, Mul, Sub, Add, MulSize, AddSize, SubSize, Sized;
    if s.variable.TerminalOperatingMargin? {
      var w, one := s.marginWeights[i], Point(1.0);
      var anchor := s.anchorMargin.value;
      ExactSized(w);
      ExactSized(1.0);
      ExactSized(anchor);
      SubSized(r, e, one, Exact(1.0), Point(w), Exact(w));
      MulSized(r, e, Sub(r, one, Point(w)), SubSize(e, Exact(1.0), Exact(w)), Point(anchor), Exact(anchor));
      MulSized(r, e, Point(w), Exact(w), domain, x);
      AddSized(r, e, Mul(r, Sub(r, one, Point(w)), Point(anchor)), MulSize(e, SubSize(e, Exact(1.0), Exact(w)), Exact(anchor)),
               Mul(r, Point(w), domain), MulSize(e, Exact(w), x));
    } else {
      ExactSized(f.margins[i]);
    }
  }

  lemma {:induction false} GrowthSized(f: Forecast, s: SolveSpec, domain: Bounds, x: Size, i: nat)
    requires i < |f.growth| && i < |f.reinvestment| && Sized(domain, x)
    ensures DualSized(GrowthOver(f, s, domain, i), GrowthSize(f, s, x, i))
    ensures DualSized(ReinvestmentOver(f, s, domain, i), ReinvestmentSize(f, s, x, i))
  {
    ExactSized(f.growth[i]);
    ExactSized(f.reinvestment[i]);
  }

  /** Named operations on pairs, so that a proof needs only their sizes. */
  lemma {:induction false} DualMulSized(r: Rounding, e: Slip, a: Dual, za: Size, b: Dual, zb: Size)
    requires Slips(r, e) && DualSized(a, za) && DualSized(b, zb)
    ensures DualSized(DualMul(r, a, b), MulSize(e, za, zb))
  {
    hide Slips, Mul, MulSize;
    MulSized(r, e, a.value, za, b.value, zb);
  }

  lemma {:induction false} DualAddSized(r: Rounding, e: Slip, a: Dual, za: Size, b: Dual, zb: Size)
    requires Slips(r, e) && DualSized(a, za) && DualSized(b, zb)
    ensures DualSized(DualAdd(r, a, b), AddSize(e, za, zb))
    ensures DualSized(DualSub(r, a, b), SubSize(e, za, zb))
  {
    hide Slips, Add, Sub, AddSize, SubSize;
    AddSized(r, e, a.value, za, b.value, zb);
    SubSized(r, e, a.value, za, b.value, zb);
  }

  lemma {:induction false} ConstantSized(v: real)
    ensures DualSized(Constant(v), Exact(v))
  {
  }

  lemma {:induction false} YearSized(r: Rounding, e: Slip, f: Forecast, s: SolveSpec, domain: Bounds, x: Size, i: nat, y: Years, z: YearSizes)
    requires Slips(r, e) && Solvable(f, s) && i < |f.growth| && Sized(domain, x) && YearsSized(y, z) && YearSize(e, f, s, x, i, z).Some?
    ensures Residuals.Year(r, f, s, domain, i, y).Some? && YearsSized(Residuals.Year(r, f, s, domain, i, y).value, YearSize(e, f, s, x, i, z).value)
  {
    hide Slips, DualMul, DualAdd, DualSub, DualDiv, MulSize, AddSize, SubSize, DivSize, DualSized, Sized, GrowthOver, GrowthSize,
      ReinvestmentOver, ReinvestmentSize, MarginOver, MarginSize, Exact, Constant, PositiveSize;
    var one, oneSize := Constant(1.0), Exact(1.0);
    ConstantSized(1.0);
    ConstantSized(f.wacc);
    ConstantSized(f.taxes[i]);
    GrowthSized(f, s, domain, x, i);
    MarginSized(r, e, f, s, domain, x, i);
    var g, gz := GrowthOver(f, s, domain, i), GrowthSize(f, s, x, i);
    DualAddSized(r, e, one, oneSize, g, gz);
    DualMulSized(r, e, y.revenue, z.revenue, DualAdd(r, one, g), AddSize(e, oneSize, gz));
    var revenue, rz := DualMul(r, y.revenue, DualAdd(r, one, g)), MulSize(e, z.revenue, AddSize(e, oneSize, gz));
    var m, mz := MarginOver(r, f, s, domain, i), MarginSize(e, f, s, x, i);
    DualMulSized(r, e, revenue, rz, m, mz);
    var ebit, ez := DualMul(r, revenue, m), MulSize(e, rz, mz);
    DualPositiveSized(ebit, ez);
    var tax, tz := DualMul(r, ebit.Positive(), Constant(f.taxes[i])), MulSize(e, PositiveSize(ez), Exact(f.taxes[i]));
    DualMulSized(r, e, ebit.Positive(), PositiveSize(ez), Constant(f.taxes[i]), Exact(f.taxes[i]));
    DualAddSized(r, e, ebit, ez, tax, tz);
    DualAddSized(r, e, one, oneSize, Constant(f.wacc), Exact(f.wacc));
    DualMulSized(r, e, y.discount, z.discount, DualAdd(r, one, Constant(f.wacc)), AddSize(e, oneSize, Exact(f.wacc)));
    var k, kz := ReinvestmentOver(f, s, domain, i), ReinvestmentSize(f, s, x, i);
    DualMulSized(r, e, revenue, rz, k, kz);
    DualAddSized(r, e, DualSub(r, ebit, tax), SubSize(e, ez, tz), DualMul(r, revenue, k), MulSize(e, rz, kz));
    var cash, cz := DualSub(r, DualSub(r, ebit, tax), DualMul(r, revenue, k)), SubSize(e, SubSize(e, ez, tz), MulSize(e, rz, kz));
    var discount := DualMul(r, y.discount, DualAdd(r, one, Constant(f.wacc)));
    var dz := MulSize(e, z.discount, AddSize(e, oneSize, Exact(f.wacc)));
    DualDivSized(r, e, cash, cz, discount, dz);
    DualAddSized(r, e, y.total, z.total, DualDiv(r, cash, discount).value, DivSize(e, cz, dz).value);
  }

  lemma {:induction false} FirstYearsSized(r: Rounding, e: Slip, f: Forecast, s: SolveSpec, domain: Bounds, x: Size, i: nat)
    requires Slips(r, e) && Solvable(f, s) && i <= |f.growth| && Sized(domain, x) && FirstYearsSize(e, f, s, x, i).Some?
    ensures FirstYears(r, f, s, domain, i).Some? && YearsSized(FirstYears(r, f, s, domain, i).value, FirstYearsSize(e, f, s, x, i).value)
  {
    hide Slips, YearSize, Residuals.Year, Sized, DualSized;
    if i == 0 {
      ConstantSized(f.anchor);
      ConstantSized(0.0);
      ConstantSized(1.0);
    } else {
      FirstYearsSized(r, e, f, s, domain, x, i - 1);
      YearSized(r, e, f, s, domain, x, i - 1, FirstYears(r, f, s, domain, i - 1).value, FirstYearsSize(e, f, s, x, i - 1).value);
    }
  }

  lemma {:induction false} GapSized(r: Rounding, e: Slip, a: real, b: real)
    requires Slips(r, e)
    ensures DualSized(DualSub(r, Constant(a), Constant(b)), GapSize(e, a, b))
  {
    hide Slips, Of;
    RoundedNear(r, e, a - b, Abs(a) + Abs(b));
  }

  lemma {:induction false} CapitalizedSized(r: Rounding, e: Slip, f: Forecast, tn: Dual, z: Size)
    requires Slips(r, e) && DualSized(tn, z) && CapitalizedSize(e, f, z).Some?
    ensures CapitalizedOver(r, f, tn).Some? && DualSized(CapitalizedOver(r, f, tn).value, CapitalizedSize(e, f, z).value)
  {
    hide Slips, DualMul, DualAdd, DualSub, DualDiv, MulSize, AddSize, SubSize, DivSize, DualSized, GapSize, Exact, Constant;
    ConstantSized(f.terminalGrowth);
    ConstantSized(f.terminalRoic);
    GapSized(r, e, f.wacc, f.terminalGrowth);
    DualMulSized(r, e, tn, z, Constant(f.terminalGrowth), Exact(f.terminalGrowth));
    var a, az := DualMul(r, tn, Constant(f.terminalGrowth)), MulSize(e, z, Exact(f.terminalGrowth));
    DualDivSized(r, e, a, az, Constant(f.terminalRoic), Exact(f.terminalRoic));
    var ti, iz := DualDiv(r, a, Constant(f.terminalRoic)).value, DivSize(e, az, Exact(f.terminalRoic)).value;
    DualAddSized(r, e, tn, z, ti, iz);
    DualDivSized(r, e, DualSub(r, tn, ti), SubSize(e, z, iz), DualSub(r, Constant(f.wacc), Constant(f.terminalGrowth)), GapSize(e, f.wacc, f.terminalGrowth));
  }

  lemma {:induction false} TerminalNopatSized(r: Rounding, e: Slip, f: Forecast, s: SolveSpec, domain: Bounds, x: Size, revenue: Dual, z: Size)
    requires Slips(r, e) && Sized(domain, x) && DualSized(revenue, z)
    ensures DualSized(TerminalNopatOver(r, f, s, domain, revenue), TerminalNopatSize(e, f, s, x, z))
  {
    ConstantSized(1.0);
    ConstantSized(f.terminalGrowth);
    ConstantSized(f.terminalTax);
    ConstantSized(f.terminalMargin);
    hide Slips, DualMul, DualAdd, DualSub, MulSize, AddSize, SubSize, Sized, Exact, Constant;
    var margin := if s.variable.TerminalOperatingMargin? then Parameter(domain) else Constant(f.terminalMargin);
    var mz := if s.variable.TerminalOperatingMargin? then x else Exact(f.terminalMargin);
    DualAddSized(r, e, Constant(1.0), Exact(1.0), Constant(f.terminalGrowth), Exact(f.terminalGrowth));
    DualAddSized(r, e, Constant(1.0), Exact(1.0), Constant(f.terminalTax), Exact(f.terminalTax));
    var g, gz := DualAdd(r, Constant(1.0), Constant(f.terminalGrowth)), AddSize(e, Exact(1.0), Exact(f.terminalGrowth));
    DualMulSized(r, e, revenue, z, g, gz);
    DualMulSized(r, e, DualMul(r, revenue, g), MulSize(e, z, gz), margin, mz);
    DualMulSized(r, e, DualMul(r, DualMul(r, revenue, g), margin), MulSize(e, MulSize(e, z, gz), mz),
                 DualSub(r, Constant(1.0), Constant(f.terminalTax)), SubSize(e, Exact(1.0), Exact(f.terminalTax)));
  }

  /** The residual over an interval of size x exists and is no wider than computed. */
  lemma {:induction false} ResidualSized(r: Rounding, e: Slip, f: Forecast, s: SolveSpec, domain: Bounds, x: Size, target: real)
    requires Slips(r, e) && Solvable(f, s) && Sized(domain, x) && ResidualSize(e, f, s, x, target).Some?
    ensures ResidualOver(r, f, s, domain, target).Some?
    ensures DualSized(ResidualOver(r, f, s, domain, target).value, ResidualSize(e, f, s, x, target).value)
  {
    hide Slips, FirstYears, FirstYearsSize, TerminalNopatOver, TerminalNopatSize, CapitalizedOver, CapitalizedSize, DualAdd, DualSub, DualDiv,
      AddSize, SubSize, DivSize, Sized, DualSized, Exact, Constant;
    FirstYearsSized(r, e, f, s, domain, x, |f.growth|);
    var y, z := FirstYears(r, f, s, domain, |f.growth|).value, FirstYearsSize(e, f, s, x, |f.growth|).value;
    TerminalNopatSized(r, e, f, s, domain, x, y.revenue, z.revenue);
    var tn, nz := TerminalNopatOver(r, f, s, domain, y.revenue), TerminalNopatSize(e, f, s, x, z.revenue);
    CapitalizedSized(r, e, f, tn, nz);
    DualDivSized(r, e, CapitalizedOver(r, f, tn).value, CapitalizedSize(e, f, nz).value, y.discount, z.discount);
    var terminal, tz := TerminalOver(r, f, s, domain, y).value, TerminalSize(e, f, s, x, z).value;
    ConstantSized(target);
    DualAddSized(r, e, y.total, z.total, terminal, tz);
    DualAddSized(r, e, DualAdd(r, y.total, terminal), AddSize(e, z.total, tz), Constant(target), Exact(target));
  }

  // ----- sharpness

  /** Any bracket of 36 units within the domain. */
  function BracketSize(p: Problem, unit: real): Size {
    Size(Max(Abs(p.spec.lower), Abs(p.spec.upper)), 36.0 * unit, p.spec.lower)
  }

  /** What a caller computes before the call: the residual over any such bracket is within the tolerance. */
  predicate DigitsSuffice(p: Problem, e: Slip, unit: real)
    requires Solvable(p.forecast, p.spec)
  {
    var z := ResidualSize(e, p.forecast, p.spec, BracketSize(p, unit), p.target);
    z.Some? && z.value.wid <= Tolerance(p)
  }

  /** A residual interval across a change of sign is no larger than it is wide. */
  lemma {:induction false} AcrossZero(d: Bounds, a: real, b: real, w: real)
    requires d.Contains(a) && d.Contains(b) && a < 0.0 < b && d.hi - d.lo <= w
    ensures Max(Abs(d.lo), Abs(d.hi)) <= w
  {
  }

  /** Then the problem is sharp. */
  lemma {:induction false} SufficientDigitsAreSharp(p: Problem, e: Slip, decade: real)
    requires p.Valid() && Slips(p.rounding, e) && DigitsSuffice(p, e, Unit(decade))
    ensures Sharp(p, decade)
  {
    hide Slips, ResidualSize, Tolerance, Unit, G, Encloses, Solvable, ResidualOver;
    forall b
      ensures !Blunt(p, decade, b)
    {
      if p.spec.lower <= b.lo < b.hi <= p.spec.upper && b.hi - b.lo <= 36.0 * Unit(decade) && SignChange(p, b) {
        ResidualSized(p.rounding, e, p.forecast, p.spec, b, BracketSize(p, Unit(decade)), p.target);
        var d := ResidualOver(p.rounding, p.forecast, p.spec, b, p.target).value;
        Enclosure(p.rounding, p.forecast, p.spec, b, p.target);
        EndsInside(p, b, d);
        if G(p, b.lo) < 0.0 {
          AcrossZero(d.value, G(p, b.lo), G(p, b.hi), d.value.hi - d.value.lo);
        } else {
          AcrossZero(d.value, G(p, b.hi), G(p, b.lo), d.value.hi - d.value.lo);
        }
      }
    }
  }

  lemma {:induction false} EndsInside(p: Problem, b: Bounds, d: Dual)
    requires p.Valid() && Encloses(d, p.forecast, p.spec, p.target, b) && b.lo <= b.hi
    ensures d.value.Contains(G(p, b.lo)) && d.value.Contains(G(p, b.hi))
  {
    hide Residual, Times;
    assert Tracks(d, G(p, b.lo), G(p, b.hi), b.hi - b.lo);
  }

  // ----- the 80-digit context

  function ContextSlip(): Slip {
    Slip(Ten(-79), Ten(C.EMIN - 79))
  }

  /** One unit in the last digit: a part in 10^79, or the least unit there is. */
  lemma {:induction false} LastDigitSmall(x: real)
    ensures C.LastDigit(x) <= Of(ContextSlip(), Abs(x))
  {
    hide Ten, Times, Abs;
    var e := C.Exponent(x, C.EMIN);
    TimesNonnegative(Ten(-79), NonnegativeAbs(x));
    if e > C.EMIN {
      TenSum(e, -79);
      TimesMonotone(Ten(e), Abs(x), Ten(-79));
      Commutes(Ten(e), Ten(-79));
    }
  }

  function NonnegativeAbs(x: real): (a: real)
    ensures a == Abs(x) && a >= 0.0
  {
    Abs(x)
  }

  lemma {:induction false} Commutes(a: real, b: real)
    ensures Times(a, b) == Times(b, a)
  {
  }

  lemma {:induction false} ContextSlips()
    ensures Slips(C.Context(), ContextSlip())
  {
    hide Ten, Of, C.LastDigit;
    forall x
      ensures x - Of(ContextSlip(), Abs(x)) <= C.Down(x) <= x <= C.Up(x) <= x + Of(ContextSlip(), Abs(x))
    {
      LastDigitSmall(x);
      DirectedNear(x);
    }
  }

  lemma {:induction false} DirectedNear(x: real)
    ensures x - C.LastDigit(x) <= C.Down(x) <= x <= C.Up(x) <= x + C.LastDigit(x)
  {
    hide C.LastDigit, Times, Over;
    var u := C.LastDigit(x);
    var q := Over(x, u);
    C.Quotient(x, u);
    Whole(u);
    var f, c := q.Floor as real, C.Ceiling(q) as real;
    C.TimesOrder(f, q, u);
    C.TimesOrder(q, c, u);
    C.TimesOrder(q - 1.0, f, u);
    C.TimesOrder(c, q + 1.0, u);
    TimesLinear(q, 1.0, u);
  }

  /** In the code's own context: enough digits for the tolerance make a solve sharp, so a converged interval
      holds every zero of the domain. */
  lemma {:induction false} EnoughDigitsHoldZero(p: Problem, s: SolveResult, m: int, x: real)
    requires p.Valid() && p.rounding == C.Context() && C.EMIN < m < C.EMAX
    requires -Ten(m) <= p.spec.lower && p.spec.upper <= Ten(m) && p.spec.widthTolerance >= 41.0 * Ten(m - 80)
    requires DigitsSuffice(p, ContextSlip(), Ten(m - 80))
    requires Certificate(p, s) && s.state.Converged? && p.spec.lower <= x <= p.spec.upper && G(p, x) == 0.0
    ensures s.interval.Some? && s.interval.value.Contains(x)
  {
    hide Certificate, DigitsSuffice, G, Ten, Sharp, Unit, ContextSlip, C.Context, EightyDigits, Slips;
    C.ContextHasEightyDigits(m);
    C.UnitOfTen(m);
    ContextSlips();
    SufficientDigitsAreSharp(p, ContextSlip(), Ten(m));
    SharpConvergedHoldsZero(p, s, Ten(m), x);
  }

  /** ... and, with no initial piece of six units or fewer, the problem is calm: the run returns a result,
      whatever its budgets. Growth and reinvestment solves have one piece, the domain itself. */
  lemma {:induction false} EnoughDigitsAreCalm(p: Problem, m: int)
    requires p.Valid() && p.rounding == C.Context() && C.EMIN < m < C.EMAX
    requires -Ten(m) <= p.spec.lower && p.spec.upper <= Ten(m) && p.spec.widthTolerance >= 41.0 * Ten(m - 80)
    requires DigitsSuffice(p, ContextSlip(), Ten(m - 80))
    requires if p.spec.variable.TerminalOperatingMargin? then forall b :: b in Pieces(InitialCuts(p)) ==> b.hi - b.lo > 6.0 * Ten(m - 80)
             else p.spec.upper - p.spec.lower > 6.0 * Ten(m - 80)
    ensures Calm(p, Ten(m))
  {
    hide DigitsSuffice, G, Ten, Sharp, Unit, ContextSlip, C.Context, EightyDigits, Slips, Solvable;
    C.ContextHasEightyDigits(m);
    C.UnitOfTen(m);
    ContextSlips();
    SufficientDigitsAreSharp(p, ContextSlip(), Ten(m));
    if !p.spec.variable.TerminalOperatingMargin? {
      OnePiece(p);
    }
  }

  lemma {:induction false} OnePiece(p: Problem)
    requires p.Valid() && !p.spec.variable.TerminalOperatingMargin?
    ensures Pieces(InitialCuts(p)) == [Bounds(p.spec.lower, p.spec.upper)]
  {
  }
}
