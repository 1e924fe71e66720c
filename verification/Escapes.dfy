/**
 A piece of the solver's own partition that its midpoint escapes: the tax kink at 5/6 is not representable,
 the band kept around it is one unit wide, and the rounded midpoint of the band lies above it.
 */
module Escapes {
  import opened Common
  import opened Intervals
  import opened Forecasts
  import opened Certificates
  import opened Solving
  import Monotone
  import C = Contexts
  import T = Powers
  import D = Decimals

  /** 5/6 in whole units of 10^-80, rounded down. */
  function BandUnits(): nat {
    (25 * D.Pow10(79) - 1) / 3
  }

  /** A power of ten leaves one when divided by three. */
  lemma {:induction false} Thirds(n: nat) returns (q: nat)
    ensures D.Pow10(n) == 3 * q + 1
  {
    if n == 0 {
      q := 0;
    } else {
      var p := Thirds(n - 1);
      q := 10 * p + 3;
    }
  }

  lemma {:induction false} BandUnitsFacts(n: nat)
    requires n == BandUnits()
    ensures 3 * n + 1 == 25 * D.Pow10(79) && n % 5 == 3
    ensures 5 * D.Pow10(79) <= n < D.Pow10(80) - 1 && D.Pow10(79) <= n
  {
    hide D.Pow10;
    var q := Thirds(79);
    T.PowerStep();
    BandArithmetic(D.Pow10(79), q, n);
  }

  lemma {:induction false} BandArithmetic(p: nat, q: nat, n: nat)
    requires p == 3 * q + 1 && n == (25 * p - 1) / 3
    ensures n == 25 * q + 8 && 3 * n + 1 == 25 * p && n % 5 == 3 && 5 * p <= n < 10 * p - 1
  {
    assert 25 * p - 1 == 3 * (25 * q + 8);
    assert n == 5 * (5 * q + 1) + 3;
  }

  /** The band around 5/6. */
  function Band(): Bounds {
    Bounds(Times(BandUnits() as real, T.Ten(-80)), Times((BandUnits() + 1) as real, T.Ten(-80)))
  }

  /** Directed rounding of 5/6 gives the ends of the band. */
  lemma {:induction false} FiveSixthsBand(x: real)
    requires x == 5.0 / 6.0
    ensures C.Down(x) == Band().lo && C.Up(x) == Band().hi
    ensures Band().lo < x < Band().hi
  {
    hide T.Ten, C.Exponent, Times, Over, D.Pow10, BandUnits;
    var n, u := BandUnits(), T.Ten(-80);
    BandUnitsFacts(n);
    UnitScale(u);
    var q := n as real + 1.0 / 3.0;
    ThirdInUnits(n, D.Pow10(79), u, q, x);
    TimesStrict(n as real, q, u);
    TimesStrict(q, (n + 1) as real, u);
    C.EightyDigitExponent(x, n, -1);
    C.Cancel(q, u);
    assert q.Floor == n;
  }

  lemma {:induction false} UnitScale(u: real)
    requires u == T.Ten(-80)
    ensures Times(10.0 * D.Pow10(79) as real, u) == 1.0
  {
    hide T.Ten, Times, D.Pow10;
    T.TenAdds(-80, 80);
    T.ZeroPower();
    T.PowerStep();
    assert D.Pow10(80) as real == 10.0 * D.Pow10(79) as real;
  }

  lemma {:induction false} ThirdInUnits(n: nat, p: nat, u: real, q: real, x: real)
    requires 3 * n + 1 == 25 * p && Times(10.0 * p as real, u) == 1.0 && q == n as real + 1.0 / 3.0 && x == 5.0 / 6.0
    ensures x == Times(q, u)
  {
    var y := p as real;
    assert 3.0 * n as real + 1.0 == 25.0 * y;
    assert q == 25.0 * y / 3.0;
    assert q * u == (25.0 / 30.0) * (10.0 * y * u);
  }

  lemma {:induction false} SmallDecimal(x: real, n: nat, e: int)
    requires n < 10000 && -9 <= e <= 0 && x == Times(n as real, T.Ten(e))
    ensures C.Down(x) == C.Up(x) == x
  {
    hide T.Ten, Times, D.Pow10, C.Down, C.Up, C.Near;
    D.PowFour();
    D.PowGrows(4, 80);
    C.CarriedIsExact(x, n, e);
  }

  lemma {:induction false} Thousandths()
    ensures T.Ten(-3) == 0.001 && T.Ten(-4) == 0.0001 && T.Ten(0) == 1.0
  {
    assert T.Ten(-1) == 0.1;
    assert T.Ten(-2) == 0.01;
  }

  /** A fade weight of 0.375 from an anchor of -0.5 puts its kink into the band. */
  lemma {:induction false} KinkBand()
    ensures Kink(C.Context(), 0.375, -0.5) == Some(Band())
  {
    hide C.Down, C.Up, Band;
    Thousandths();
    SmallDecimal(0.625, 625, -3);
    SmallDecimal(0.3125, 3125, -4);
    FiveSixthsBand(5.0 / 6.0);
    var rest := Sub(C.Context(), Point(1.0), Point(0.375));
    assert rest == Point(0.625);
    var product := Mul(C.Context(), Point(0.5), rest);
    assert product == Point(0.3125);
    assert Over(0.3125, 0.375) == 5.0 / 6.0;
  }

  /** A full weight puts it at zero. */
  lemma {:induction false} KinkAtZero()
    ensures Kink(C.Context(), 1.0, -0.5) == Some(Point(0.0))
  {
    hide C.Down, C.Up;
    Thousandths();
    SmallDecimal(0.0, 0, 0);
    var rest := Sub(C.Context(), Point(1.0), Point(1.0));
    assert rest == Point(0.0);
    var product := Mul(C.Context(), Point(0.5), rest);
    assert product == Point(0.0);
    assert Over(0.0, 1.0) == 0.0;
  }

  /** Margin solves in the 80-digit context whose fade has that kink inside the domain. */
  ghost predicate Kinked(p: Problem) {
    && p.Valid() && p.rounding == C.Context() && p.spec.variable.TerminalOperatingMargin?
    && p.spec.marginWeights == [0.375, 1.0] && p.spec.anchorMargin == Some(-0.5)
    && p.spec.lower < Band().lo && Band().hi < p.spec.upper
  }

  /** The band is a piece of the initial partition. */
  lemma {:induction false} BandIsPiece(p: Problem)
    requires Kinked(p)
    ensures Band() in Pieces(InitialCuts(p))
  {
    hide Kink, Band;
    KinkBand();
    KinkAtZero();
    FiveSixthsOrdered();
    var lower, upper, lo, hi := p.spec.lower, p.spec.upper, Band().lo, Band().hi;
    KinkAdded(p.spec, Band());
    hide AddKink;
    NothingAdded(p.spec, [lower, lo, hi, upper]);
    assert CutsAfter(p, 0) == [lower, upper];
    assert CutsAfter(p, 1) == [lower, lo, hi, upper];
    assert CutsAfter(p, 2) == [lower, lo, hi, upper];
    assert Pieces(InitialCuts(p))[1] == Band();
  }

  lemma {:induction false} CutBetween(a: real, v: real, b: real)
    requires a < v < b
    ensures InsertCut([a, b], v) == [a, v, b]
  {
    assert [a, b][1..] == [b];
  }

  lemma {:induction false} KinkAdded(spec: SolveSpec, kink: Bounds)
    requires spec.lower < kink.lo < kink.hi < spec.upper
    ensures CutsOf(spec, [spec.lower, spec.upper])
    ensures AddKink(spec, [spec.lower, spec.upper], kink) == [spec.lower, kink.lo, kink.hi, spec.upper]
  {
    CutBetween(spec.lower, kink.lo, spec.upper);
    CutBetween(kink.lo, kink.hi, spec.upper);
    assert [spec.lower, kink.lo, spec.upper][1..] == [kink.lo, spec.upper];
  }

  lemma {:induction false} NothingAdded(spec: SolveSpec, cuts: seq<real>)
    requires CutsOf(spec, cuts) && spec.lower > 0.0
    ensures AddKink(spec, cuts, Point(0.0)) == cuts
  {
  }

  lemma {:induction false} FiveSixthsOrdered()
    ensures Band().lo < 5.0 / 6.0 < Band().hi
  {
    hide Band;
    FiveSixthsBand(5.0 / 6.0);
  }

  /** Its rounded midpoint lies above it. */
  lemma {:induction false} BandMidpointEscapes()
    ensures Mid(C.Context(), Band().lo, Band().hi) > Band().hi
  {
    hide T.Ten, Times, D.Pow10, Mid, BandUnits;
    BandUnitsFacts(BandUnits());
    C.MidpointEscapes(BandUnits(), Band().lo, Band().hi);
  }

  /** So no result converges on the band: its record check refuses the representative, and run() raises
      where it would. */
  lemma {:induction false} BandNeverReturned(p: Problem, s: SolveResult)
    requires Kinked(p) && Certificate(p, s)
    ensures s.interval != Some(Band())
  {
    hide Band, Mid, CertifiedRegion, RegionOrdered, Chain, Domains, AllOrdered, HoldsResidual, C.Context;
    BandMidpointEscapes();
  }

  /** A target that the exact value meets at 5/6 puts the zero into the band: the piece is pinched. */
  lemma {:induction false} BandCanHoldTheZero(p: Problem)
    requires Kinked(p) && G(p, 5.0 / 6.0) == 0.0
    ensures SignChange(p, Band()) && PinchedPiece(p, 1.0)
  {
    hide Band, Residual, Unit, Pieces, InitialCuts;
    FiveSixthsOrdered();
    BandIsPiece(p);
    Monotone.StrictInMargin(p.forecast, p.spec, p.target, Band().lo, 5.0 / 6.0);
    Monotone.StrictInMargin(p.forecast, p.spec, p.target, 5.0 / 6.0, Band().hi);
    BandWidth();
    assert Band() in Pieces(InitialCuts(p));
  }

  lemma {:induction false} BandWidth()
    ensures Band().hi - Band().lo == Unit(1.0) > 0.0
  {
    hide Times, D.Pow10, BandUnits, Unit;
    T.ZeroPower();
    C.UnitOfTen(0);
    T.TimesLinear((BandUnits() + 1) as real, BandUnits() as real, T.Ten(-80));
    T.Whole(T.Ten(-80));
    assert (BandUnits() + 1) as real - BandUnits() as real == 1.0;
  }

  /** Such problems exist. */
  lemma {:induction false} KinkedExample(f: Forecast, s: SolveSpec, target: real)
    requires f == Forecast(1.0, [0.0, 0.0], [0.5, 0.5], [0.2, 0.2], [0.0, 0.0], 0.1, 0.05, 0.02, 0.5, 0.2, 0.1)
    requires s == SolveSpec(TerminalOperatingMargin, 0.25, 1.0, 0.001, 0.0, 0.001, 256, 100, 1000, [0.375, 1.0], Some(-0.5))
    ensures Kinked(Problem(C.Context(), f, s, target))
  {
    hide C.Down, C.Up, C.Near, T.Ten, Times, D.Pow10, BandUnits;
    C.ContextOutward();
    BandInsideUnit();
  }

  lemma {:induction false} BandInsideUnit()
    ensures 0.25 < Band().lo && Band().hi < 1.0
  {
    hide T.Ten, Times, D.Pow10, BandUnits;
    var n, u := BandUnits(), T.Ten(-80);
    BandUnitsFacts(n);
    UnitScale(u);
    T.PowerStep();
    var p := D.Pow10(79) as real;
    C.TimesOrder(5.0 * p, n as real, u);
    HalfOf(p, u);
    TimesStrict((n + 1) as real, 10.0 * p, u);
  }

  lemma {:induction false} HalfOf(p: real, u: real)
    ensures Times(5.0 * p, u) == Times(10.0 * p, u) / 2.0
  {
  }
}
