/**
 Certified root isolation (packages/core/valuation.py, Solver): split the domain, certify or
 refine each region, stop on the budgets, and keep what was not visited.
 */
module Solving {
  import opened Common
  import opened Intervals
  import opened Forecasts
  import opened Residuals
  import opened Certificates
  import opened Midpoints
  import opened Searching

  datatype Measured = Value(dual: Dual) | Raised(fault: Fault)

  datatype Refinement = Found(bracket: Bounds, residual: Bounds) | Abandoned | Interrupted(fault: Fault)

  // ----- signs

  ghost predicate HasSign(p: Problem, x: real, sign: int)
    requires p.Valid()
  {
    (sign == 1 && G(p, x) > 0.0) || (sign == -1 && G(p, x) < 0.0)
  }

  /** A signed enclosure over a point fixes the sign of the exact residual there. */
  lemma {:induction false} PointSign(p: Problem, x: real, d: Dual)
    requires p.Valid() && Encloses(d, p.forecast, p.spec, p.target, Point(x)) && d.value.Sign() != 0
    ensures HasSign(p, x, d.value.Sign())
  {
    hide Residual;
    assert Tracks(d, G(p, x), G(p, x), x - x);
  }

  lemma {:induction false} EnclosureOrdered(p: Problem, b: Bounds, d: Dual)
    requires p.Valid() && b.Ordered() && Encloses(d, p.forecast, p.spec, p.target, b)
    ensures d.value.Ordered() && d.derivative.Ordered()
  {
    hide Residual, Times;
    assert Tracks(d, G(p, b.lo), G(p, b.lo), b.lo - b.lo);
  }

  lemma {:induction false} SignedValueHasNoZero(p: Problem, b: Bounds, d: Dual)
    requires p.Valid() && Encloses(d, p.forecast, p.spec, p.target, b) && d.value.Sign() != 0
    ensures NoZero(p, b)
  {
    hide Residual;
    forall x | b.Contains(x)
      ensures G(p, x) != 0.0
    {
      assert Tracks(d, G(p, x), G(p, x), x - x);
    }
  }

  /** A signed derivative enclosure makes the exact residual strictly monotone. */
  lemma {:induction false} SignedSlopeIsMonotone(p: Problem, b: Bounds, d: Dual)
    requires p.Valid() && Encloses(d, p.forecast, p.spec, p.target, b)
    ensures d.derivative.Sign() == 1 ==> Increasing(p, b)
    ensures d.derivative.Sign() == -1 ==> Decreasing(p, b)
  {
    hide Residual, Times;
    forall x, y | b.lo <= x < y <= b.hi
      ensures d.derivative.Sign() == 1 ==> G(p, x) < G(p, y)
      ensures d.derivative.Sign() == -1 ==> G(p, y) < G(p, x)
    {
      assert Tracks(d, G(p, x), G(p, y), y - x);
      TimesSign(d.derivative.lo, y - x);
      TimesSign(d.derivative.hi, y - x);
    }
  }

  lemma {:induction false} TimesSign(x: real, h: real)
    requires h > 0.0
    ensures x > 0.0 ==> Times(x, h) > 0.0
    ensures x < 0.0 ==> Times(x, h) < 0.0
  {
  }

  lemma {:induction false} MonotoneSameSignsExclude(p: Problem, b: Bounds, sign: int)
    requires p.Valid() && (Increasing(p, b) || Decreasing(p, b))
    requires HasSign(p, b.lo, sign) && HasSign(p, b.hi, sign)
    ensures NoZero(p, b)
  {
    hide G;
  }

  // ----- the initial cuts

  /** Insertion that keeps the cuts strictly increasing, so a repeated cut changes nothing. */
  function InsertCut(cuts: seq<real>, v: real): (r: seq<real>)
    requires cuts != [] && Increases(cuts)
    ensures |r| >= |cuts| && Increases(r)
    ensures r[0] == Min(cuts[0], v) && r[|r| - 1] == Max(cuts[|cuts| - 1], v)
  {
    FirstIsLeast(cuts, |cuts| - 1);
    if v < cuts[0] then [v] + cuts
    else if v == cuts[0] then cuts
    else if |cuts| == 1 then cuts + [v]
    else [cuts[0]] + InsertCut(cuts[1..], v)
  }

  predicate Increases(cuts: seq<real>) {
    forall i :: 0 <= i < |cuts| - 1 ==> cuts[i] < cuts[i + 1]
  }

  lemma {:induction false} FirstIsLeast(cuts: seq<real>, i: nat)
    requires Increases(cuts) && i < |cuts|
    ensures cuts[0] <= cuts[i]
  {
    if i > 0 {
      FirstIsLeast(cuts, i - 1);
    }
  }

  lemma {:induction false} InsertCutMembers(cuts: seq<real>, v: real, x: real)
    requires cuts != [] && Increases(cuts)
    ensures x in InsertCut(cuts, v) <==> x in cuts || x == v
  {
    if cuts[0] < v && |cuts| > 1 {
      InsertCutMembers(cuts[1..], v, x);
      assert cuts == [cuts[0]] + cuts[1..];
    }
  }

  /** Outward enclosure of the margin at which a forecast year starts to pay tax. */
  function Kink(r: Rounding, weight: real, anchor: real): Option<Bounds> {
    Div(r, Mul(r, Neg(Point(anchor)), Sub(r, Point(1.0), Point(weight))), Point(weight))
  }

  /** The year's faded margin vanishes only inside that enclosure. */
  lemma {:induction false} KinkEnclosed(r: Rounding, weight: real, anchor: real, x: real)
    requires Outward(r) && weight > 0.0 && FadedMargin(weight, anchor, x) == 0.0
    ensures Kink(r, weight, anchor).Some? && Kink(r, weight, anchor).value.Contains(x)
  {
    hide Mul, Hull, Sub;
    SubContains(r, Point(1.0), Point(weight), 1.0, weight);
    MulContains(r, Neg(Point(anchor)), Sub(r, Point(1.0), Point(weight)), -anchor, 1.0 - weight);
    DivContains(r, Mul(r, Neg(Point(anchor)), Sub(r, Point(1.0), Point(weight))), Point(weight), Times(-anchor, 1.0 - weight), weight);
    assert Times(-anchor, 1.0 - weight) == weight * x;
    assert weight * x / weight == x;
  }

  function Pieces(cuts: seq<real>): (s: seq<Bounds>)
    requires |cuts| >= 2
    ensures |s| == |cuts| - 1 && forall i :: 0 <= i < |s| ==> s[i] == Bounds(cuts[i], cuts[i + 1])
  {
    seq(|cuts| - 1, i requires 0 <= i < |cuts| - 1 => Bounds(cuts[i], cuts[i + 1]))
  }

  /** Strictly increasing cuts from the lower to the upper end of the domain. */
  predicate CutsOf(spec: SolveSpec, cuts: seq<real>) {
    |cuts| >= 2 && Increases(cuts) && cuts[0] == spec.lower && cuts[|cuts| - 1] == spec.upper
  }

  function CutInside(spec: SolveSpec, cuts: seq<real>, v: real): (r: seq<real>)
    requires CutsOf(spec, cuts)
    ensures CutsOf(spec, r)
  {
    if spec.lower < v < spec.upper then InsertCut(cuts, v) else cuts
  }

  function AddKink(spec: SolveSpec, cuts: seq<real>, kink: Bounds): (r: seq<real>)
    requires CutsOf(spec, cuts)
    ensures CutsOf(spec, r)
  {
    CutInside(spec, CutInside(spec, cuts, kink.lo), kink.hi)
  }

  lemma {:induction false} AddKinkMembers(spec: SolveSpec, cuts: seq<real>, kink: Bounds)
    requires CutsOf(spec, cuts)
    ensures forall x :: x in cuts ==> x in AddKink(spec, cuts, kink)
    ensures spec.lower < kink.lo < spec.upper ==> kink.lo in AddKink(spec, cuts, kink)
    ensures spec.lower < kink.hi < spec.upper ==> kink.hi in AddKink(spec, cuts, kink)
  {
    hide InsertCut, Increases;
    var once := CutInside(spec, cuts, kink.lo);
    forall x | x in cuts || x == kink.lo
      ensures spec.lower < kink.lo < spec.upper ==> x in once
    {
      if spec.lower < kink.lo < spec.upper { InsertCutMembers(cuts, kink.lo, x); }
    }
    forall x | x in once || x == kink.hi
      ensures spec.lower < kink.hi < spec.upper ==> x in AddKink(spec, cuts, kink)
    {
      if spec.lower < kink.hi < spec.upper { InsertCutMembers(once, kink.hi, x); }
    }
  }

  /** The cuts after the first i fade weights. */
  function CutsAfter(p: Problem, i: nat): (cuts: seq<real>)
    requires p.spec.lower < p.spec.upper && p.spec.anchorMargin.Some? && i <= |p.spec.marginWeights|
    ensures CutsOf(p.spec, cuts)
  {
    if i == 0 then [p.spec.lower, p.spec.upper] else
      var cuts, weight := CutsAfter(p, i - 1), p.spec.marginWeights[i - 1];
      var kink := Kink(p.rounding, weight, p.spec.anchorMargin.value);
      if weight > 0.0 && kink.Some? then AddKink(p.spec, cuts, kink.value) else cuts
  }

  function InitialCuts(p: Problem): (cuts: seq<real>)
    requires ValidSpec(p.spec)
    ensures CutsOf(p.spec, cuts)
  {
    if p.spec.variable.TerminalOperatingMargin? then CutsAfter(p, |p.spec.marginWeights|) else [p.spec.lower, p.spec.upper]
  }

  /** Every end of a kink enclosure strictly inside the domain is a cut. */
  lemma {:induction false} KinkEndsAreCuts(p: Problem, i: nat, j: nat, v: real)
    requires p.spec.lower < p.spec.upper && p.spec.anchorMargin.Some? && j < i <= |p.spec.marginWeights|
    requires KinkEnd(p, j, v)
    ensures v in CutsAfter(p, i)
  {
    hide Kink, AddKink, CutsOf;
    if j < i - 1 {
      KinkEndsAreCuts(p, i - 1, j, v);
    }
    var kink := Kink(p.rounding, p.spec.marginWeights[i - 1], p.spec.anchorMargin.value);
    if p.spec.marginWeights[i - 1] > 0.0 && kink.Some? {
      AddKinkMembers(p.spec, CutsAfter(p, i - 1), kink.value);
    }
  }

  /** The cuts are the ends of the domain and the kink ends inside it, and nothing else. */
  lemma {:induction false} CutsExactly(p: Problem, i: nat, v: real)
    requires p.spec.lower < p.spec.upper && p.spec.anchorMargin.Some? && i <= |p.spec.marginWeights|
    ensures v in CutsAfter(p, i) <==> v == p.spec.lower || v == p.spec.upper || exists j :: 0 <= j < i && KinkEnd(p, j, v)
  {
    hide Kink, AddKink, CutsOf;
    if i > 0 {
      CutsExactly(p, i - 1, v);
      var cuts, kink := CutsAfter(p, i - 1), Kink(p.rounding, p.spec.marginWeights[i - 1], p.spec.anchorMargin.value);
      if p.spec.marginWeights[i - 1] > 0.0 && kink.Some? {
        AddKinkExactly(p.spec, cuts, kink.value, v);
      }
      assert KinkEnd(p, i - 1, v) ==> exists j :: 0 <= j < i && KinkEnd(p, j, v);
    }
  }

  lemma {:induction false} AddKinkExactly(spec: SolveSpec, cuts: seq<real>, kink: Bounds, v: real)
    requires CutsOf(spec, cuts)
    ensures v in AddKink(spec, cuts, kink) <==> v in cuts || (spec.lower < v < spec.upper && (v == kink.lo || v == kink.hi))
  {
    hide InsertCut, Increases;
    var once := CutInside(spec, cuts, kink.lo);
    if spec.lower < kink.lo < spec.upper {
      InsertCutMembers(cuts, kink.lo, v);
    }
    if spec.lower < kink.hi < spec.upper {
      InsertCutMembers(once, kink.hi, v);
    }
  }

  lemma {:induction false} PiecesTile(spec: SolveSpec, cuts: seq<real>)
    requires CutsOf(spec, cuts)
    ensures Chain(Pieces(cuts), spec.lower, spec.upper) && AllOrdered(Pieces(cuts))
  {
    var s := Pieces(cuts);
    assert forall i :: 0 <= i < |s| ==> s[i] == Bounds(cuts[i], cuts[i + 1]);
  }

  // ----- the shape of the work list

  lemma {:induction false} ReversePop(s: seq<Bounds>)
    requires s != []
    ensures Reverse(s) == [s[|s| - 1]] + Reverse(s[..|s| - 1])
  {
  }

  lemma {:induction false} ReversePush(s: seq<Bounds>, right: Bounds, left: Bounds)
    ensures Reverse(s + [right, left]) == [left, right] + Reverse(s)
  {
    assert (s + [right, left])[..|s| + 1] == s + [right];
    assert (s + [right])[..|s|] == s;
  }

  /** Splitting one domain of a chain at a point that is neither of its ends keeps the chain. */
  lemma {:induction false} ChainSplit(done: seq<Bounds>, d: Bounds, rest: seq<Bounds>, mid: real, lower: real, upper: real)
    requires Chain(done + [d] + rest, lower, upper) && mid != d.lo && mid != d.hi
    ensures Chain(done + ([Bounds(d.lo, mid), Bounds(mid, d.hi)] + rest), lower, upper)
  {
    var s, n := done + [d] + rest, |done|;
    var t := done + ([Bounds(d.lo, mid), Bounds(mid, d.hi)] + rest);
    assert s[n] == d;
    forall i | 0 <= i < |t|
      ensures t[i].lo != t[i].hi && (i < |t| - 1 ==> t[i].hi == t[i + 1].lo)
    {
      if i < n - 1 {
        assert t[i] == s[i] && t[i + 1] == s[i + 1];
      } else if i == n - 1 {
        assert t[i] == s[i];
      } else if i == n + 1 {
        assert i < |t| - 1 ==> t[i + 1] == s[i];
      } else if i > n + 1 {
        assert t[i] == s[i - 1] && (i < |t| - 1 ==> t[i + 1] == s[i]);
      }
    }
    assert t[0].lo == lower;
    assert t[|t| - 1].hi == upper;
  }

  /** The progress of run(): certified regions so far, and the domains still on the stack. */
  datatype Work = Work(proofs: seq<Region>, pending: seq<Bounds>, roots: seq<Bounds>, residuals: seq<Bounds>,
                       unresolved: bool, subdivisions: nat)

  /** Each refined bracket keeps the residual interval found over it. */
  ghost predicate Matched(p: Problem, roots: seq<Bounds>, residuals: seq<Bounds>)
    requires p.Valid()
  {
    |residuals| == |roots| && forall i :: 0 <= i < |roots| ==> HoldsResidual(p, roots[i], residuals[i])
  }

  ghost predicate InProgress(p: Problem, w: Work)
    requires p.Valid()
  {
    && (forall i :: 0 <= i < |w.proofs| ==> CertifiedRegion(p, w.proofs[i]) && RegionOrdered(w.proofs[i]) && AsJudged(p, w.proofs[i]))
    && Chain(Domains(w.proofs) + Reverse(w.pending), p.spec.lower, p.spec.upper)
    && |w.proofs| + |w.pending| == w.subdivisions + 1
    && w.roots == RootsOf(w.proofs) && Matched(p, w.roots, w.residuals)
    && (w.unresolved <==> DomainsOf(Unresolved, w.proofs) != [])
    && w.subdivisions <= p.spec.maxSubdivisions
    && (forall i :: 0 <= i < |w.proofs| && w.proofs[i].disposition.Unresolved? ==> GivenUp(p, w.proofs[i], w.subdivisions))
  }

  /** Splitting trades one domain for two, but only a bounded number of times. */
  function Measure(p: Problem, w: Work): int {
    2 * (p.spec.maxSubdivisions - w.subdivisions) + |w.pending|
  }

  lemma {:induction false} WorkStarts(p: Problem, pieces: seq<Bounds>)
    requires p.Valid() && Chain(pieces, p.spec.lower, p.spec.upper) && |pieces| - 1 <= p.spec.maxSubdivisions
    ensures InProgress(p, Work([], Reverse(pieces), [], [], false, |pieces| - 1))
  {
    hide Chain, CertifiedRegion, RegionOrdered, Reverse, AsJudged;
    ReverseTwice(pieces);
    assert Domains([]) == [] && RootsOf([]) == [] && DomainsOf(Unresolved, []) == [];
    assert [] + pieces == pieces;
  }

  /** The popped domain goes back to the stack as two, the left one on top. */
  lemma {:induction false} WorkSplits(p: Problem, w: Work, mid: real)
    requires p.Valid() && InProgress(p, w) && w.pending != [] && w.subdivisions < p.spec.maxSubdivisions
    requires mid != w.pending[|w.pending| - 1].lo && mid != w.pending[|w.pending| - 1].hi
    ensures var d, rest := w.pending[|w.pending| - 1], w.pending[..|w.pending| - 1];
            InProgress(p, w.(pending := rest + [Bounds(mid, d.hi), Bounds(d.lo, mid)], subdivisions := w.subdivisions + 1))
  {
    hide Chain, CertifiedRegion, RegionOrdered, Domains, AsJudged;
    var d, rest := w.pending[|w.pending| - 1], w.pending[..|w.pending| - 1];
    ReversePop(w.pending);
    assert Domains(w.proofs) + Reverse(w.pending) == Domains(w.proofs) + [d] + Reverse(rest);
    ChainSplit(Domains(w.proofs), d, Reverse(rest), mid, p.spec.lower, p.spec.upper);
    ReversePush(rest, Bounds(mid, d.hi), Bounds(d.lo, mid));
  }

  /** The popped domain becomes the next proof region. */
  lemma {:induction false} WorkProves(p: Problem, w: Work, g: Region, residual: Bounds)
    requires p.Valid() && InProgress(p, w) && w.pending != []
    requires g.domain == w.pending[|w.pending| - 1] && CertifiedRegion(p, g) && RegionOrdered(g) && AsJudged(p, g)
    requires g.disposition.UniqueRoot? <==> g.root.Some?
    requires g.root.Some? ==> HoldsResidual(p, g.root.value, residual)
    requires g.disposition.Unresolved? ==> GivenUp(p, g, w.subdivisions)
    ensures InProgress(p, Work(w.proofs + [g], w.pending[..|w.pending| - 1],
                               if g.root.Some? then w.roots + [g.root.value] else w.roots,
                               if g.root.Some? then w.residuals + [residual] else w.residuals,
                               w.unresolved || g.disposition.Unresolved?, w.subdivisions))
  {
    hide Chain, CertifiedRegion, RegionOrdered, Domains, DomainsOf, RootsOf, Reverse, HoldsResidual, AsJudged;
    ReversePop(w.pending);
    AppendRegion(w.proofs, g);
    var rest := w.pending[..|w.pending| - 1];
    assert Domains(w.proofs) + ([g.domain] + Reverse(rest)) == Domains(w.proofs) + [g.domain] + Reverse(rest);
  }

  /** What remains when a domain is interrupted. */
  lemma {:induction false} WorkHalts(p: Problem, w: Work)
    requires p.Valid() && InProgress(p, w) && w.pending != []
    ensures var d, rest := w.pending[|w.pending| - 1], w.pending[..|w.pending| - 1];
            Chain(Domains(w.proofs) + Arranged([d] + rest), p.spec.lower, p.spec.upper)
  {
    hide Chain;
    var d, rest := w.pending[|w.pending| - 1], w.pending[..|w.pending| - 1];
    ReversePop(w.pending);
    assert ([d] + rest)[1..] == rest;
  }

  lemma {:induction false} WorkEnds(p: Problem, w: Work)
    requires p.Valid() && InProgress(p, w) && w.pending == []
    ensures Chain(Domains(w.proofs) + Arranged([]), p.spec.lower, p.spec.upper)
  {
    hide Chain;
  }

  lemma {:induction false} WorkParts(p: Problem, w: Work)
    requires p.Valid() && InProgress(p, w)
    ensures forall i :: 0 <= i < |w.proofs| ==> CertifiedRegion(p, w.proofs[i]) && RegionOrdered(w.proofs[i]) && AsJudged(p, w.proofs[i])
    ensures |w.proofs| + |w.pending| == w.subdivisions + 1 && w.subdivisions <= p.spec.maxSubdivisions
    ensures forall i :: 0 <= i < |w.proofs| && w.proofs[i].disposition.Unresolved? ==> GivenUp(p, w.proofs[i], w.subdivisions)
    ensures w.roots == RootsOf(w.proofs) && Matched(p, w.roots, w.residuals)
    ensures w.unresolved <==> DomainsOf(Unresolved, w.proofs) != []
  {
  }

  lemma {:induction false} WorkNeverStarted(p: Problem)
    requires p.Valid()
    ensures Chain(Domains([]) + Arranged([Bounds(p.spec.lower, p.spec.upper)]), p.spec.lower, p.spec.upper)
    ensures RootsOf([]) == [] && DomainsOf(Unresolved, []) == []
  {
    assert Domains([]) + Arranged([Bounds(p.spec.lower, p.spec.upper)]) == [Bounds(p.spec.lower, p.spec.upper)];
  }

  // ----- how far refinement can stray

  lemma {:induction false} KeptStart(p: Problem, region: Bounds)
    requires p.Valid()
    ensures AllKept(p, region, region)
  {
    hide Sharp, Steady, EightyDigits, Unit;
  }

  /** What a bracket that was not accepted can become: either half, or the span of the quarter points. */
  ghost predicate Successor(r: Rounding, b: Bounds, c: Bounds) {
    var mid := Mid(r, b.lo, b.hi);
    c == Bounds(b.lo, mid) || c == Bounds(mid, b.hi) || c == Bounds(Mid(r, b.lo, mid), Mid(r, mid, b.hi))
  }

  lemma {:induction false} KeptNext(p: Problem, region: Bounds, b: Bounds, d: Dual, sign: int)
    requires p.Valid() && AllKept(p, region, b) && HasSign(p, b.lo, sign) && HasSign(p, b.hi, -sign)
    requires DualOver(p, b) == Some(d)
    requires !Meets(p, b, d.value)
    ensures forall c :: Successor(p.rounding, b, c) ==> AllKept(p, region, c)
  {
    OppositeSignsChange(p, b, sign);
    hide Successor, Kept, Fits, ResidualOver, Tolerance, G;
    forall c, decade | Successor(p.rounding, b, c) && Fits(p, decade, region)
      ensures Kept(p, decade, region, c)
    {
      if Steady(p, decade) && Sharp(p, decade) && Inside(region, Bounds(p.spec.lower, p.spec.upper)) {
        SharpStillWide(p, decade, region, b, d);
        WideStays(p, decade, region, b, c);
      } else {
        StraysNarrow(p, decade, region, b, c);
      }
    }
  }

  /** Above thirty-six units every successor lies strictly inside and keeps more than twelve. */
  lemma {:induction false} WideStays(p: Problem, decade: real, region: Bounds, b: Bounds, c: Bounds)
    requires p.Valid() && Fits(p, decade, region) && Inside(b, region) && b.hi - b.lo > 36.0 * Unit(decade)
    requires Successor(p.rounding, b, c)
    ensures Kept(p, decade, region, c)
  {
    hide EightyDigits, Unit, Mid, Steady, Sharp;
    WideMidpointInside(p.rounding, decade, b.lo, b.hi);
    var mid := Mid(p.rounding, b.lo, b.hi);
    HalfNear(p.rounding, decade, decade);
    WideMidpointInside(p.rounding, decade, b.lo, mid);
    WideMidpointInside(p.rounding, decade, mid, b.hi);
    MidpointWithinThreeUnits(p.rounding, decade, b.lo, mid);
    MidpointWithinThreeUnits(p.rounding, decade, mid, b.hi);
  }

  /** From eighteen units down a successor may leave the region, but only with fifteen units or fewer. */
  lemma {:induction false} StraysNarrow(p: Problem, decade: real, region: Bounds, b: Bounds, c: Bounds)
    requires p.Valid() && Fits(p, decade, region) && Kept(p, decade, region, b)
    requires !(Steady(p, decade) && Sharp(p, decade) && Inside(region, Bounds(p.spec.lower, p.spec.upper)))
    requires Successor(p.rounding, b, c)
    ensures Kept(p, decade, region, c)
  {
    hide EightyDigits, Unit, Mid, Steady, Sharp;
    MidpointWithinThreeUnits(p.rounding, decade, b.lo, b.hi);
    var mid := Mid(p.rounding, b.lo, b.hi);
    MidpointWithinThreeUnits(p.rounding, decade, b.lo, mid);
    MidpointWithinThreeUnits(p.rounding, decade, mid, b.hi);
    if Inside(b, region) && b.hi - b.lo > 18.0 * Unit(decade) {
      WideMidpointInside(p.rounding, decade, b.lo, b.hi);
      WideMidpointInside(p.rounding, decade, b.lo, mid);
      WideMidpointInside(p.rounding, decade, mid, b.hi);
    }
  }

  /** A sharp problem accepts every bracket of thirty-six units or fewer. */
  lemma {:induction false} SharpStillWide(p: Problem, decade: real, region: Bounds, b: Bounds, d: Dual)
    requires p.Valid() && Fits(p, decade, region) && AllKept(p, region, b) && SignChange(p, b)
    requires Steady(p, decade) && Sharp(p, decade) && Inside(region, Bounds(p.spec.lower, p.spec.upper))
    requires ResidualOver(p.rounding, p.forecast, p.spec, b, p.target) == Some(d)
    requires p.rounding.near(b.hi - b.lo) > p.spec.widthTolerance || Max(Abs(d.value.lo), Abs(d.value.hi)) > Tolerance(p)
    ensures Inside(b, region) && b.hi - b.lo > 36.0 * Unit(decade)
  {
    hide EightyDigits, Unit, ResidualOver, Tolerance, Abs, Max, SignChange;
    assert Kept(p, decade, region, b);
    SumNear(p.rounding, decade, b.hi - b.lo);
    assert !Blunt(p, decade, b);
  }

  // ----- room left during refinement

  ghost predicate RoomLeft(p: Problem, decade: real, region: Bounds, b: Bounds, left: nat) {
    && region.lo <= b.lo < b.hi <= region.hi
    && b.hi - b.lo + 12.0 * Unit(decade) >= Times(24.0 * Unit(decade), Pow(2.0, left))
  }

  lemma {:induction false} RoomIsWide(p: Problem, decade: real, region: Bounds, b: Bounds, left: nat)
    requires RoomyFor(p, decade, region) && RoomLeft(p, decade, region, b, left) && left > 0
    ensures b.hi - b.lo >= 36.0 * Unit(decade) > 0.0
    ensures Times(24.0 * Unit(decade), Pow(2.0, left)) == 2.0 * Times(24.0 * Unit(decade), Pow(2.0, left - 1))
  {
    hide Unit, EightyDigits, Decade;
    HalfNear(p.rounding, decade, decade);
    PowAtLeastOne(left - 1);
    var u, q := 24.0 * Unit(decade), Pow(2.0, left - 1);
    assert Pow(2.0, left) == q * 2.0;
    assert u * (q * 2.0) == 2.0 * (u * q);
    TimesMonotone(1.0, q, u);
  }

  lemma {:induction false} PowAtLeastOne(n: nat)
    ensures Pow(2.0, n) >= 1.0
  {
    if n > 0 {
      PowAtLeastOne(n - 1);
    }
  }

  /** Either half keeps the room that the remaining iterations need. */
  lemma {:induction false} HalfKeepsRoom(p: Problem, decade: real, region: Bounds, b: Bounds, left: nat)
    requires RoomyFor(p, decade, region) && RoomLeft(p, decade, region, b, left) && left > 0
    ensures b.lo < Mid(p.rounding, b.lo, b.hi) < b.hi
    ensures RoomLeft(p, decade, region, Bounds(b.lo, Mid(p.rounding, b.lo, b.hi)), left - 1)
    ensures RoomLeft(p, decade, region, Bounds(Mid(p.rounding, b.lo, b.hi), b.hi), left - 1)
  {
    hide Unit, EightyDigits, Decade, Mid, Times;
    RoomIsWide(p, decade, region, b, left);
    WideMidpointInside(p.rounding, decade, b.lo, b.hi);
  }

  /** So does the span between the quarter points. */
  lemma {:induction false} QuartersKeepRoom(p: Problem, decade: real, region: Bounds, b: Bounds, left: nat)
    requires RoomyFor(p, decade, region) && RoomLeft(p, decade, region, b, left) && left > 0
    ensures var mid := Mid(p.rounding, b.lo, b.hi);
            RoomLeft(p, decade, region, Bounds(Mid(p.rounding, b.lo, mid), Mid(p.rounding, mid, b.hi)), left - 1)
  {
    hide Unit, EightyDigits, Decade, Mid, Times;
    RoomIsWide(p, decade, region, b, left);
    WideMidpointInside(p.rounding, decade, b.lo, b.hi);
    var mid := Mid(p.rounding, b.lo, b.hi);
    WideMidpointInside(p.rounding, decade, b.lo, mid);
    WideMidpointInside(p.rounding, decade, mid, b.hi);
    MidpointWithinThreeUnits(p.rounding, decade, b.lo, mid);
    MidpointWithinThreeUnits(p.rounding, decade, mid, b.hi);
  }

  lemma {:induction false} SuccessorKeepsRoom(p: Problem, decade: real, region: Bounds, b: Bounds, c: Bounds, left: nat)
    requires RoomyFor(p, decade, region) && RoomLeft(p, decade, region, b, left) && left > 0 && Successor(p.rounding, b, c)
    ensures RoomLeft(p, decade, region, c, left - 1)
  {
    hide RoomLeft, RoomyFor, Mid;
    HalfKeepsRoom(p, decade, region, b, left);
    QuartersKeepRoom(p, decade, region, b, left);
  }

  /** The residual interval holds the exact residual over the bracket, and both are within the tolerance. */
  ghost predicate WithinAll(p: Problem, b: Bounds, residual: Bounds)
    requires p.Valid()
  {
    HoldsResidual(p, b, residual) && forall x :: b.Contains(x) ==> Abs(G(p, x)) <= Tolerance(p)
  }

  lemma {:induction false} BracketRefined(p: Problem, region: Bounds, b: Bounds, residual: Bounds, sign: int)
    requires p.Valid() && Meets(p, b, residual) && WithinAll(p, b, residual) && AllKept(p, region, b)
    requires HasSign(p, region.lo, sign) && HasSign(p, b.lo, sign) && HasSign(p, b.hi, -sign)
    requires Roomy(p, region) ==> Inside(b, region) && b.Contains(Mid(p.rounding, b.lo, b.hi))
    ensures RefinedBracket(p, region, b) && HoldsResidual(p, b, residual)
  {
    hide AllKept, Roomy, HoldsResidual, Mid, Tolerance, Inside, G;
  }

  // ----- room throughout the run

  /** Before the run: the initial pieces and the width at which splitting stops leave room. */
  ghost predicate WideFor(p: Problem, decade: real)
    requires p.Valid()
  {
    && EightyDigits(p.rounding, decade)
    && -decade <= p.spec.lower && p.spec.upper <= decade
    && (forall i :: 0 <= i < |Pieces(InitialCuts(p))| ==> RoomyFor(p, decade, Pieces(InitialCuts(p))[i]))
    && p.spec.widthTolerance / 2.0 + 6.0 * Unit(decade) >= Times(24.0 * Unit(decade), Pow(2.0, p.spec.maxIterations))
  }

  ghost predicate Wide(p: Problem)
    requires p.Valid()
  {
    exists decade :: WideFor(p, decade)
  }

  ghost predicate AllRoomy(p: Problem, decade: real, s: seq<Bounds>) {
    forall i :: 0 <= i < |s| ==> RoomyFor(p, decade, s[i])
  }

  predicate MidsInside(r: Rounding, s: seq<Bounds>) {
    forall i :: 0 <= i < |s| ==> s[i].Contains(Mid(r, s[i].lo, s[i].hi))
  }

  ghost predicate RoomySoFar(p: Problem, decade: real, w: Work) {
    && AllRoomy(p, decade, w.pending) && AllRoomy(p, decade, Domains(w.proofs))
    && AllOrdered(w.roots) && AllOrdered(w.residuals) && MidsInside(p.rounding, w.roots)
  }

  /** Splitting a domain wider than the tolerance leaves both halves room. */
  lemma {:induction false} SplitStaysRoomy(p: Problem, decade: real, d: Bounds)
    requires p.Valid() && WideFor(p, decade) && RoomyFor(p, decade, d)
    requires p.rounding.near(d.hi - d.lo) > p.spec.widthTolerance
    ensures RoomyFor(p, decade, Bounds(d.lo, Mid(p.rounding, d.lo, d.hi)))
    ensures RoomyFor(p, decade, Bounds(Mid(p.rounding, d.lo, d.hi), d.hi))
  {
    hide Decade, Unit, Mid, Times, Pieces, InitialCuts, EightyDigits;
    SumNear(p.rounding, decade, d.hi - d.lo);
    RoomStart(p, decade, d);
    RoomIsWide(p, decade, d, d, p.spec.maxIterations);
    WideMidpointInside(p.rounding, decade, d.lo, d.hi);
  }

  lemma {:induction false} RoomyStarts(p: Problem, decade: real, pieces: seq<Bounds>, w: Work)
    requires p.Valid() && WideFor(p, decade) && pieces == Pieces(InitialCuts(p))
    requires w == Work([], Reverse(pieces), [], [], false, |pieces| - 1)
    ensures RoomySoFar(p, decade, w)
  {
    hide RoomyFor, InitialCuts, Pieces;
  }

  lemma {:induction false} RoomySplits(p: Problem, decade: real, w: Work, mid: real)
    requires p.Valid() && WideFor(p, decade) && RoomySoFar(p, decade, w) && w.pending != []
    requires var d := w.pending[|w.pending| - 1];
             p.rounding.near(d.hi - d.lo) > p.spec.widthTolerance && mid == Mid(p.rounding, d.lo, d.hi)
    ensures var d, rest := w.pending[|w.pending| - 1], w.pending[..|w.pending| - 1];
            RoomySoFar(p, decade, w.(pending := rest + [Bounds(mid, d.hi), Bounds(d.lo, mid)], subdivisions := w.subdivisions + 1))
  {
    hide RoomyFor, WideFor, Mid;
    SplitStaysRoomy(p, decade, w.pending[|w.pending| - 1]);
  }

  lemma {:induction false} RoomyProves(p: Problem, decade: real, w: Work, g: Region, residual: Bounds)
    requires p.Valid() && RoomySoFar(p, decade, w) && w.pending != [] && g.domain == w.pending[|w.pending| - 1]
    requires CertifiedRegion(p, g) && RegionOrdered(g) && residual.Ordered() && (g.disposition.UniqueRoot? <==> g.root.Some?)
    ensures RoomySoFar(p, decade, Work(w.proofs + [g], w.pending[..|w.pending| - 1],
                               if g.root.Some? then w.roots + [g.root.value] else w.roots,
                               if g.root.Some? then w.residuals + [residual] else w.residuals,
                               w.unresolved || g.disposition.Unresolved?, w.subdivisions))
  {
    hide RoomyFor, Roomy, Encloses, G, Mid, Domains;
    AppendRegion(w.proofs, g);
    RoomyByDecade(p, decade, g.domain);
  }

  lemma {:induction false} RoomyTop(p: Problem, decade: real, w: Work)
    requires RoomySoFar(p, decade, w) && w.pending != []
    ensures w.pending[|w.pending| - 1].Ordered() && Roomy(p, w.pending[|w.pending| - 1])
    ensures AllOrdered([w.pending[|w.pending| - 1]] + w.pending[..|w.pending| - 1])
  {
    hide Unit, EightyDigits, Decade, Times;
    assert RoomyFor(p, decade, w.pending[|w.pending| - 1]);
    forall i | 0 <= i < |w.pending| - 1
      ensures w.pending[i].Ordered()
    {
      assert RoomyFor(p, decade, w.pending[i]);
    }
  }

  lemma {:induction false} RoomyParts(p: Problem, decade: real, w: Work)
    requires RoomySoFar(p, decade, w)
    ensures AllRoomy(p, decade, Domains(w.proofs))
    ensures AllOrdered(w.roots) && AllOrdered(w.residuals) && MidsInside(p.rounding, w.roots)
  {
  }

  lemma {:induction false} NoMids(r: Rounding)
    ensures MidsInside(r, [])
  {
  }

  lemma {:induction false} RoomyRegions(p: Problem, decade: real, proofs: seq<Region>)
    requires AllRoomy(p, decade, Domains(proofs))
    ensures forall i :: 0 <= i < |proofs| ==> Roomy(p, proofs[i].domain)
  {
    hide RoomyFor, Roomy;
    forall i | 0 <= i < |proofs|
      ensures Roomy(p, proofs[i].domain)
    {
      assert Domains(proofs)[i] == proofs[i].domain;
      RoomyByDecade(p, decade, proofs[i].domain);
    }
  }

  lemma {:induction false} RoomyByDecade(p: Problem, decade: real, b: Bounds)
    requires RoomyFor(p, decade, b)
    ensures Roomy(p, b)
  {
  }

  // ----- order throughout the run

  /** An initial piece so narrow that the midpoint of its bracket may fall outside it, with the zero in it. */
  ghost predicate PinchedPiece(p: Problem, decade: real)
    requires p.Valid()
  {
    exists b :: b in Pieces(InitialCuts(p)) && b.hi - b.lo <= 6.0 * Unit(decade) && SignChange(p, b)
  }

  ghost predicate Placed(p: Problem, decade: real, b: Bounds)
    requires p.Valid()
  {
    Inside(b, Bounds(p.spec.lower, p.spec.upper)) && (b in Pieces(InitialCuts(p)) || b.hi - b.lo > 15.0 * Unit(decade))
  }

  ghost predicate AllPlaced(p: Problem, decade: real, s: seq<Bounds>)
    requires p.Valid()
  {
    forall i :: 0 <= i < |s| ==> Placed(p, decade, s[i])
  }

  /** The problem is steady and sharp, and no root sits in a pinched piece. */
  ghost predicate Calm(p: Problem, decade: real)
    requires p.Valid()
  {
    Steady(p, decade) && Sharp(p, decade) && !PinchedPiece(p, decade)
  }

  ghost predicate CalmSoFar(p: Problem, decade: real, w: Work)
    requires p.Valid()
  {
    && AllPlaced(p, decade, w.pending)
    && AllOrdered(w.roots) && AllOrdered(w.residuals) && MidsInside(p.rounding, w.roots)
  }

  lemma {:induction false} CalmStarts(p: Problem, decade: real, pieces: seq<Bounds>, w: Work)
    requires p.Valid() && pieces == Pieces(InitialCuts(p)) && Chain(pieces, p.spec.lower, p.spec.upper) && AllOrdered(pieces)
    requires w == Work([], Reverse(pieces), [], [], false, |pieces| - 1)
    ensures CalmSoFar(p, decade, w)
  {
    hide Chain, InitialCuts, Pieces, Unit;
    forall i | 0 <= i < |w.pending|
      ensures Placed(p, decade, w.pending[i])
    {
      ChainWithin(pieces, p.spec.lower, p.spec.upper, |pieces| - 1 - i);
    }
  }

  /** A split needs more than thirty-six units, so both halves are ordered and keep more than fifteen. */
  lemma {:induction false} SplitStaysPlaced(p: Problem, decade: real, d: Bounds)
    requires p.Valid() && Steady(p, decade) && Placed(p, decade, d) && p.rounding.near(d.hi - d.lo) > p.spec.widthTolerance
    ensures Placed(p, decade, Bounds(d.lo, Mid(p.rounding, d.lo, d.hi)))
    ensures Placed(p, decade, Bounds(Mid(p.rounding, d.lo, d.hi), d.hi))
  {
    hide EightyDigits, Unit, Mid, Pieces, InitialCuts;
    SumNear(p.rounding, decade, d.hi - d.lo);
    HalfNear(p.rounding, decade, decade);
    WideMidpointInside(p.rounding, decade, d.lo, d.hi);
  }

  lemma {:induction false} CalmSplits(p: Problem, decade: real, w: Work)
    requires p.Valid() && Steady(p, decade) && CalmSoFar(p, decade, w) && w.pending != []
    requires var d := w.pending[|w.pending| - 1]; p.rounding.near(d.hi - d.lo) > p.spec.widthTolerance
    ensures var d, rest := w.pending[|w.pending| - 1], w.pending[..|w.pending| - 1];
            var mid := Mid(p.rounding, d.lo, d.hi);
            CalmSoFar(p, decade, w.(pending := rest + [Bounds(mid, d.hi), Bounds(d.lo, mid)], subdivisions := w.subdivisions + 1))
  {
    hide Placed, Steady, Mid;
    SplitStaysPlaced(p, decade, w.pending[|w.pending| - 1]);
  }

  /** What was refined in a placed region is ordered and contains its midpoint. */
  lemma {:induction false} CalmRoot(p: Problem, decade: real, g: Region)
    requires p.Valid() && Calm(p, decade) && Placed(p, decade, g.domain) && CertifiedRegion(p, g) && g.disposition.UniqueRoot?
    ensures g.root.Some? && g.root.value.Ordered() && g.root.value.Contains(Mid(p.rounding, g.root.value.lo, g.root.value.hi))
  {
    hide Encloses, G, HoldsResidual, Roomy, Increasing, Decreasing, Pieces, InitialCuts, EightyDigits, Unit, Mid, Tolerance, Sharp;
    var root := g.root.value;
    assert Fits(p, decade, g.domain);
    assert Kept(p, decade, g.domain, root);
    HalfNear(p.rounding, decade, decade);
    if g.domain in Pieces(InitialCuts(p)) {
      NotPinched(p, decade, g.domain);
    }
    WideMidpointInside(p.rounding, decade, root.lo, root.hi);
  }

  lemma {:induction false} NotPinched(p: Problem, decade: real, b: Bounds)
    requires p.Valid() && !PinchedPiece(p, decade) && b in Pieces(InitialCuts(p)) && SignChange(p, b)
    ensures b.hi - b.lo > 6.0 * Unit(decade)
  {
  }

  lemma {:induction false} CalmProves(p: Problem, decade: real, w: Work, g: Region, residual: Bounds)
    requires p.Valid() && Calm(p, decade) && CalmSoFar(p, decade, w) && w.pending != [] && g.domain == w.pending[|w.pending| - 1]
    requires CertifiedRegion(p, g) && residual.Ordered() && (g.disposition.UniqueRoot? <==> g.root.Some?)
    ensures CalmSoFar(p, decade, Work(w.proofs + [g], w.pending[..|w.pending| - 1],
                               if g.root.Some? then w.roots + [g.root.value] else w.roots,
                               if g.root.Some? then w.residuals + [residual] else w.residuals,
                               w.unresolved || g.disposition.Unresolved?, w.subdivisions))
  {
    hide CertifiedRegion, Placed, Calm, Mid;
    if g.root.Some? {
      CalmRoot(p, decade, g);
    }
  }

  lemma {:induction false} CalmIsSteady(p: Problem, decade: real)
    requires p.Valid() && Calm(p, decade)
    ensures Steady(p, decade)
  {
  }

  lemma {:induction false} CalmParts(p: Problem, decade: real, w: Work)
    requires p.Valid() && CalmSoFar(p, decade, w)
    ensures AllOrdered(w.roots) && AllOrdered(w.residuals) && MidsInside(p.rounding, w.roots)
  {
  }

  lemma {:induction false} CalmTop(p: Problem, decade: real, w: Work)
    requires p.Valid() && CalmSoFar(p, decade, w) && w.pending != []
    ensures Placed(p, decade, w.pending[|w.pending| - 1]) && w.pending[|w.pending| - 1].Ordered()
    ensures AllOrdered([w.pending[|w.pending| - 1]] + w.pending[..|w.pending| - 1])
    ensures AllOrdered(w.roots) && AllOrdered(w.residuals) && MidsInside(p.rounding, w.roots)
  {
    hide Mid, Pieces, InitialCuts;
    assert forall i :: 0 <= i < |w.pending| ==> Placed(p, decade, w.pending[i]) && w.pending[i].Ordered();
  }

  ghost function WideDecade(p: Problem): (d: real)
    requires p.Valid()
    ensures Wide(p) ==> WideFor(p, d)
  {
    if Wide(p) then var d :| WideFor(p, d); d else 1.0
  }

  // ----- the solver

  class Solver {
    const p: Problem
    var evaluations: nat
    var iterations: nat
    var subdivisions: nat

    ghost predicate Valid()
      reads this
    {
      p.Valid() && evaluations <= p.spec.maxEvaluations && iterations <= evaluations
    }

    constructor (problem: Problem)
      requires problem.Valid()
      ensures Valid() && p == problem
      ensures evaluations == 0 && iterations == 0 && subdivisions == 0
    {
      p := problem;
      evaluations, iterations, subdivisions := 0, 0, 0;
    }

    /** One budgeted evaluation over an interval. */
    method At(b: Bounds) returns (m: Measured)
      requires p.Valid() && evaluations <= p.spec.maxEvaluations
      modifies this`evaluations
      ensures old(evaluations) <= evaluations <= p.spec.maxEvaluations
      ensures m.Raised? && m.fault.BudgetExhausted? <==> old(evaluations) == p.spec.maxEvaluations
      ensures old(evaluations) < p.spec.maxEvaluations ==> evaluations == old(evaluations) + 1
      ensures m.Value? ==> Encloses(m.dual, p.forecast, p.spec, p.target, b)
      ensures m.Value? ==> DualOver(p, b) == Some(m.dual)
      ensures m.Raised? && m.fault.Arithmetic? ==> DualOver(p, b) == None
    {
      hide Encloses;
      if evaluations >= p.spec.maxEvaluations {
        return Raised(BudgetExhausted);
      }
      evaluations := evaluations + 1;
      var d := ComputeResidual(p.rounding, p.forecast, p.spec, b, p.target);
      m := if d.Some? then Value(d.value) else Raised(Arithmetic);
    }

    /** The certified sign at one point; zero means that it is not known. */
    method SignAt(x: real) returns (m: Measured, sign: int)
      requires p.Valid() && evaluations <= p.spec.maxEvaluations
      modifies this`evaluations
      ensures old(evaluations) <= evaluations <= p.spec.maxEvaluations
      ensures m.Value? ==> sign == m.dual.value.Sign() && m.dual.value.Ordered()
      ensures m.Value? && sign != 0 ==> HasSign(p, x, sign)
      ensures m.Value? ==> HoldsResidual(p, Point(x), m.dual.value)
      ensures m.Value? ==> DualOver(p, Point(x)) == Some(m.dual) && SignOf(p, x) == Some(sign)
      ensures m.Raised? && m.fault.Arithmetic? ==> DualOver(p, Point(x)) == None && SignOf(p, x) == None
      ensures m.Raised? && m.fault.BudgetExhausted? <==> old(evaluations) == p.spec.maxEvaluations
      ensures old(evaluations) < p.spec.maxEvaluations ==> evaluations == old(evaluations) + 1
    {
      hide Encloses, G;
      sign := 0;
      m := At(Point(x));
      if m.Value? {
        sign := m.dual.value.Sign();
        EnclosureOrdered(p, Point(x), m.dual);
        EnclosureHolds(p, Point(x), m.dual);
        if sign != 0 {
          PointSign(p, x, m.dual);
        }
      }
    }

    /** One iteration of the refinement; None when the evaluations ran out. */
    method Turn(bracket: Bounds, leftSign: int) returns (turn: Option<Turn>)
      requires p.Valid() && evaluations <= p.spec.maxEvaluations
      requires leftSign == 1 || leftSign == -1
      requires HasSign(p, bracket.lo, leftSign) && HasSign(p, bracket.hi, -leftSign)
      modifies this`evaluations, this`iterations
      ensures old(evaluations) <= evaluations <= p.spec.maxEvaluations && iterations == old(iterations) + 1
      ensures evaluations <= old(evaluations) + 4
      ensures turn.Some? ==> turn.value == TurnOf(p, bracket, leftSign) && evaluations > old(evaluations)
      ensures turn.None? ==> evaluations == p.spec.maxEvaluations && old(evaluations) + 4 > p.spec.maxEvaluations
      ensures turn.Some? && turn.value.Done? ==> Meets(p, bracket, turn.value.residual) && WithinAll(p, bracket, turn.value.residual)
      ensures turn.Some? && turn.value.Narrow? ==> var c := turn.value.next;
                && Successor(p.rounding, bracket, c) && HasSign(p, c.lo, leftSign) && HasSign(p, c.hi, -leftSign)
                && DualOver(p, bracket).Some? && !Meets(p, bracket, DualOver(p, bracket).value.value)
    {
      hide Encloses, G, Mid, Tolerance, HoldsResidual, DualOver, SignOf, HasSign, TurnOf, MiddleTurn, WithinAll;
      TurnUnfolds(p, bracket, leftSign);
      iterations := iterations + 1;
      var whole := At(bracket);
      if whole.Raised? {
        assert whole.fault.Arithmetic? || whole.fault.BudgetExhausted?;
        return if whole.fault.Arithmetic? then Some(Fail) else None;
      }
      var residual := whole.dual.value;
      if p.rounding.near(bracket.hi - bracket.lo) <= p.spec.widthTolerance && Max(Abs(residual.lo), Abs(residual.hi)) <= Tolerance(p) {
        WithinTolerance(p, bracket, whole.dual, Tolerance(p));
        return Some(Done(residual));
      }
      var mid := Mid(p.rounding, bracket.lo, bracket.hi);
      if mid == bracket.lo || mid == bracket.hi {
        return Some(Stop);
      }
      var middle, sign := SignAt(mid);
      if middle.Raised? {
        assert middle.fault.Arithmetic? || middle.fault.BudgetExhausted?;
        return if middle.fault.Arithmetic? then Some(Fail) else None;
      }
      if sign != 0 {
        return Some(Narrow(if sign == leftSign then Bounds(mid, bracket.hi) else Bounds(bracket.lo, mid)));
      }
      turn := Quarters(bracket, mid, leftSign);
    }

    /** An unknown sign at the midpoint: two certified signs at the quarter points, or nothing. */
    method Quarters(bracket: Bounds, mid: real, leftSign: int) returns (turn: Option<Turn>)
      requires p.Valid() && evaluations <= p.spec.maxEvaluations && SignOf(p, mid) == Some(0)
      requires leftSign == 1 || leftSign == -1
      modifies this`evaluations
      ensures old(evaluations) <= evaluations <= old(evaluations) + 2 && evaluations <= p.spec.maxEvaluations
      ensures turn.Some? ==> turn.value == MiddleTurn(p, bracket, mid, leftSign) && !turn.value.Done?
      ensures turn.None? ==> evaluations == p.spec.maxEvaluations && old(evaluations) + 2 > p.spec.maxEvaluations
      ensures turn.Some? && turn.value.Narrow? ==> var c := turn.value.next;
                && c == Bounds(Mid(p.rounding, bracket.lo, mid), Mid(p.rounding, mid, bracket.hi))
                && HasSign(p, c.lo, leftSign) && HasSign(p, c.hi, -leftSign)
    {
      hide Encloses, G, Mid, HoldsResidual, DualOver, SignOf, HasSign;
      var low, high := Mid(p.rounding, bracket.lo, mid), Mid(p.rounding, mid, bracket.hi);
      var first, ls := SignAt(low);
      if first.Raised? {
        assert first.fault.Arithmetic? || first.fault.BudgetExhausted?;
        return if first.fault.Arithmetic? then Some(Fail) else None;
      }
      var second, hs := SignAt(high);
      if second.Raised? {
        assert second.fault.Arithmetic? || second.fault.BudgetExhausted?;
        return if second.fault.Arithmetic? then Some(Fail) else None;
      }
      turn := Some(if ls == leftSign && hs == -leftSign then Narrow(Bounds(low, high)) else Stop);
    }

    /** Bisect a bracket with certified opposite signs until both tolerances are met. */
    method Refine(region: Bounds, leftSign: int) returns (f: Refinement)
      requires Valid()
      requires leftSign == 1 || leftSign == -1
      requires HasSign(p, region.lo, leftSign) && HasSign(p, region.hi, -leftSign)
      modifies this`evaluations, this`iterations
      ensures old(evaluations) <= evaluations <= p.spec.maxEvaluations
      ensures if f.Interrupted? then iterations <= evaluations + 1 else iterations <= evaluations
      ensures f.Interrupted? && f.fault.BudgetExhausted? ==> evaluations == p.spec.maxEvaluations
      ensures f.Found? ==> RefinedBracket(p, region, f.bracket)
      ensures f.Found? ==> HoldsResidual(p, f.bracket, f.residual)
      ensures Reports(f, Search(p, region, leftSign, p.spec.maxIterations))
      ensures if f.Interrupted? && f.fault.BudgetExhausted? then old(evaluations) + 4 * Rounds(p, region, leftSign, p.spec.maxIterations) > p.spec.maxEvaluations
              else evaluations <= old(evaluations) + 4 * Rounds(p, region, leftSign, p.spec.maxIterations)
    {
      hide Encloses, G, Roomy, RoomyFor, RoomLeft, Mid, Tolerance, HoldsResidual, Decade, EightyDigits, Unit, AllKept, DualOver, Search, Rounds,
        HasSign, TurnOf, RefinedBracket, Successor, Meets;
      ghost var roomy := Roomy(p, region);
      ghost var decade := RoomFor(p, region);
      var bracket := region;
      if roomy {
        RoomStart(p, decade, region);
      }
      KeptStart(p, region);
      for i := 0 to p.spec.maxIterations
        invariant Valid() && old(evaluations) <= evaluations
        invariant HasSign(p, bracket.lo, leftSign) && HasSign(p, bracket.hi, -leftSign)
        invariant roomy ==> RoomyFor(p, decade, region) && RoomLeft(p, decade, region, bracket, p.spec.maxIterations - i)
        invariant AllKept(p, region, bracket)
        invariant Search(p, bracket, leftSign, p.spec.maxIterations - i) == Search(p, region, leftSign, p.spec.maxIterations)
        invariant evaluations + 4 * Rounds(p, bracket, leftSign, p.spec.maxIterations - i) <=
                  old(evaluations) + 4 * Rounds(p, region, leftSign, p.spec.maxIterations)
      {
        ghost var left := p.spec.maxIterations - i;
        SearchUnfolds(p, bracket, leftSign, left);
        var turn := Turn(bracket, leftSign);
        if turn.None? {
          return Interrupted(BudgetExhausted);
        }
        match turn.value {
          case Done(residual) =>
            if roomy {
              RoomInside(p, decade, region, bracket, left);
            }
            BracketRefined(p, region, bracket, residual, leftSign);
            return Found(bracket, residual);
          case Stop => return Abandoned;
          case Fail => return Interrupted(Arithmetic);
          case Narrow(next) =>
            KeptNext(p, region, bracket, DualOver(p, bracket).value, leftSign);
            if roomy {
              SuccessorKeepsRoom(p, decade, region, bracket, next, left);
            }
            bracket := next;
        }
      }
      SearchEnds(p, bracket, leftSign);
      return Abandoned;
    }

    /** Cut the domain at the ends of every tax kink that lies strictly inside it. */
    method Partition() returns (pieces: seq<Bounds>)
      requires p.Valid()
      modifies this`subdivisions
      ensures pieces == Pieces(InitialCuts(p)) && |pieces| == subdivisions + 1
      ensures Chain(pieces, p.spec.lower, p.spec.upper) && AllOrdered(pieces)
    {
      hide Kink, AddKink, Chain;
      var cuts := [p.spec.lower, p.spec.upper];
      if p.spec.variable.TerminalOperatingMargin? {
        var weights, anchor := p.spec.marginWeights, p.spec.anchorMargin.value;
        for i := 0 to |weights|
          invariant cuts == CutsAfter(p, i)
        {
          if weights[i] > 0.0 {
            KinkDefined(p.rounding, weights[i], anchor);
            cuts := AddKink(p.spec, cuts, Kink(p.rounding, weights[i], anchor).value);
          }
        }
      }
      subdivisions := |cuts| - 2;
      pieces := Pieces(cuts);
      PiecesTile(p.spec, cuts);
    }

    /** Evaluate one domain, certify it, or refine the one root it must hold. */
    method Examine(current: Bounds) returns (e: Examined)
      requires Valid()
      modifies this`evaluations, this`iterations
      ensures evaluations <= p.spec.maxEvaluations
      ensures if e.Halted? then iterations <= evaluations + 1 else iterations <= evaluations
      ensures e.Halted? && e.fault.BudgetExhausted? ==> evaluations == p.spec.maxEvaluations
      ensures e.Judged? && current.Ordered() && (e.region.root.Some? ==> e.region.root.value.Ordered()) ==>
                RegionOrdered(e.region) && e.rootResidual.Ordered()
      ensures e.Judged? && e.region.root.Some? && Roomy(p, current) ==> e.region.root.value.Ordered()
      ensures e.Judged? ==> e.region.domain == current && CertifiedRegion(p, e.region)
      ensures e.Judged? ==> (e.region.disposition.UniqueRoot? <==> e.region.root.Some?)
      ensures e.Judged? && e.region.root.Some? ==> HoldsResidual(p, e.region.root.value, e.rootResidual)
      ensures e.Judged? || e.fault.Arithmetic? ==> e == Judge(p, current)
      ensures if e.Halted? && e.fault.BudgetExhausted? then old(evaluations) + Cost(p, current) > p.spec.maxEvaluations
              else evaluations <= old(evaluations) + Cost(p, current)
    {
      hide Encloses, G, Increasing, Decreasing, NoZero, RefinedBracket, Roomy, HoldsResidual, DualOver, Search, Rounds, Judge, Cost, SignOf,
        HasSign, SignChange;
      JudgeWhole(p, current);
      var whole := At(current);
      if whole.Raised? {
        assert whole.fault.Arithmetic? || whole.fault.BudgetExhausted?;
        return Halted(whole.fault);
      }
      var d := whole.dual;
      if current.Ordered() {
        EnclosureOrdered(p, current, d);
      }
      var plain := Region(current, d.value, d.derivative, Unresolved, None, None, None);
      assert d == Dual(plain.residual, plain.derivative);
      if d.value.Sign() != 0 {
        SignedValueHasNoZero(p, current, d);
        return Judged(plain.(disposition := Excluded), d.value);
      }
      if d.derivative.Sign() == 0 {
        return Judged(plain, d.value);
      }
      SignedSlopeIsMonotone(p, current, d);
      var left, ls := SignAt(current.lo);
      if left.Raised? {
        assert left.fault.Arithmetic? || left.fault.BudgetExhausted?;
        return Halted(left.fault);
      }
      var right, rs := SignAt(current.hi);
      if right.Raised? {
        assert right.fault.Arithmetic? || right.fault.BudgetExhausted?;
        return Halted(right.fault);
      }
      var ended := plain.(left := Some(left.dual.value), right := Some(right.dual.value));
      JudgeFromEnds(p, current, d, left.dual, right.dual);
      if ls != 0 && ls == rs {
        MonotoneSameSignsExclude(p, current, ls);
        return Judged(ended.(disposition := Excluded), d.value);
      }
      if ls * rs == -1 {
        SignsOpposite(ls, rs);
        var refined := Refine(current, ls);
        match refined {
          case Interrupted(fault) =>
            assert fault.Arithmetic? || fault.BudgetExhausted?;
            return Halted(fault);
          case Abandoned =>
          case Found(root, residual) =>
            OppositeSignsChange(p, current, ls);
            RefinedOrdered(p, current, root, residual);
            return Judged(ended.(disposition := UniqueRoot, root := Some(root)), residual);
        }
      }
      return Judged(ended, d.value);
    }

    /** One turn of the main loop: pop a domain, examine it, then split it or record it. */
    method Visit(w: Work, ghost decade: real, ghost scale: real) returns (v: Visited)
      requires Valid() && InProgress(p, w) && w.pending != [] && w.subdivisions == subdivisions
      requires Wide(p) ==> WideFor(p, decade) && RoomySoFar(p, decade, w)
      requires Calm(p, scale) ==> CalmSoFar(p, scale, w)
      modifies this
      ensures evaluations <= p.spec.maxEvaluations
      ensures if v.Halting? then iterations <= evaluations + 1 && subdivisions == old(subdivisions) else iterations <= evaluations
      ensures v.Halting? && v.fault.BudgetExhausted? ==> evaluations == p.spec.maxEvaluations
      ensures var top := w.pending[|w.pending| - 1];
              && (v.Halting? && v.fault.Arithmetic? ==> Judge(p, top).Halted?)
              && (v.Halting? && v.fault.BudgetExhausted? ==> old(evaluations) + Cost(p, top) > p.spec.maxEvaluations)
              && (v.Continuing? ==> evaluations <= old(evaluations) + Cost(p, top) && Judge(p, top).Judged?
                                    && (Judge(p, top).region.disposition.Unresolved? || Records(w, Judge(p, top).region, v.work)))
      ensures Wide(p) || Calm(p, scale) ==> !v.Unordered?
      ensures v.Continuing? ==>
                && InProgress(p, v.work) && v.work.subdivisions == subdivisions
                && (Wide(p) ==> RoomySoFar(p, decade, v.work))
                && (Calm(p, scale) ==> CalmSoFar(p, scale, v.work))
                && Measure(p, v.work) < Measure(p, w)
    {
      hide Encloses, G, CertifiedRegion, RegionOrdered, Chain, Domains, RootsOf, DomainsOf, Roomy, Wide,
        WideFor, RoomySoFar, Reverse, Outward, InProgress, HoldsResidual, Calm, CalmSoFar, Placed, Inside, Mid, Matched, AllOrdered, Tolerance, Judge, Cost,
        AsJudged;
      var spec := p.spec;
      if Wide(p) {
        RoomyTop(p, decade, w);
      }
      if Calm(p, scale) {
        CalmTop(p, scale, w);
      }
      WorkParts(p, w);
      var current, pending := w.pending[|w.pending| - 1], w.pending[..|w.pending| - 1];
      var examined := Examine(current);
      if examined.Halted? {
        return Halting(examined.fault);
      }
      var region := examined.region;
      if region.disposition.Unresolved? {
        var mid := Mid(p.rounding, current.lo, current.hi);
        if subdivisions < spec.maxSubdivisions && mid != current.lo && mid != current.hi
           && p.rounding.near(current.hi - current.lo) > spec.widthTolerance {
          WorkSplits(p, w, mid);
          if Wide(p) {
            RoomySplits(p, decade, w, mid);
          }
          if Calm(p, scale) {
            CalmIsSteady(p, scale);
            CalmSplits(p, scale, w);
          }
          subdivisions := subdivisions + 1;
          return Continuing(w.(pending := pending + [Bounds(mid, current.hi), Bounds(current.lo, mid)], subdivisions := subdivisions));
        }
      }
      if Calm(p, scale) && region.root.Some? {
        CalmRoot(p, scale, region);
      }
      if !RegionOrdered(region) {
        return Unordered;
      }
      assert AsJudged(p, region) by {
        JudgedAsSuch(p, current, examined);
      }
      WorkProves(p, w, region, examined.rootResidual);
      if Wide(p) {
        RoomyProves(p, decade, w, region, examined.rootResidual);
      }
      if Calm(p, scale) {
        CalmProves(p, scale, w, region, examined.rootResidual);
      }
      v := Continuing(Work(
        w.proofs + [region], pending,
        if region.root.Some? then w.roots + [region.root.value] else w.roots,
        if region.root.Some? then w.residuals + [examined.rootResidual] else w.residuals,
        w.unresolved || region.disposition.Unresolved?, subdivisions));
    }

    /** None is the ValueError of a record that was handed an unordered interval. At any scale at which
        the problem is calm that cannot happen. */
    method Run(ghost scale: real) returns (result: Option<SolveResult>)
      requires Valid() && iterations == 0 && evaluations == 0
      modifies this
      ensures result.Some? ==> Certificate(p, result.value)
      ensures result.Some? ==> forall i :: 0 <= i < |result.value.proof| ==> AsJudged(p, result.value.proof[i])
      ensures Decisive(p) && result.Some? ==> Domains(result.value.proof) == Pieces(InitialCuts(p)) && result.value.unvisited == []
      ensures Calm(p, scale) ==> result.Some?
      ensures Wide(p) ==> result.Some? && forall i :: 0 <= i < |result.value.proof| ==> Roomy(p, result.value.proof[i].domain)
    {
      hide Encloses, G, CertifiedRegion, RegionOrdered, Chain, Arranged, InProgress, Domains, RootsOf, DomainsOf, Roomy, Wide,
        WideFor, RoomySoFar, Reverse, Pieces, InitialCuts, Outward, AllRoomy, MidsInside, Certificate, HoldsResidual,
        Calm, CalmSoFar, AsJudged, DecisiveSoFar, Judge, Cost, Records, AllDecided;
      ghost var decade := WideDecade(p);
      var whole := Bounds(p.spec.lower, p.spec.upper);
      var pieces := Partition();
      if subdivisions > p.spec.maxSubdivisions {
        subdivisions := 0;
        WorkNeverStarted(p);
        NoMids(p.rounding);
        result := Conclude([], [], [], [whole], false, Some(BudgetExhausted));
        return;
      }
      var work := Work([], Reverse(pieces), [], [], false, subdivisions);
      WorkStarts(p, pieces);
      if Wide(p) {
        RoomyStarts(p, decade, pieces, work);
      }
      CalmStarts(p, scale, pieces, work);
      if Decisive(p) {
        DecisiveStarts(p, pieces, work);
      }
      while work.pending != []
        invariant Valid() && InProgress(p, work) && work.subdivisions == subdivisions
        invariant Wide(p) ==> WideFor(p, decade) && RoomySoFar(p, decade, work)
        invariant Calm(p, scale) ==> CalmSoFar(p, scale, work)
        invariant Decisive(p) ==> DecisiveSoFar(p, work, evaluations)
        decreases Measure(p, work)
      {
        if Decisive(p) {
          DecisiveTop(p, work, evaluations);
        }
        if Wide(p) {
          RoomyTop(p, decade, work);
          RoomyParts(p, decade, work);
          RoomyRegions(p, decade, work.proofs);
        }
        if Calm(p, scale) {
          CalmTop(p, scale, work);
        }
        WorkHalts(p, work);
        WorkParts(p, work);
        var last := |work.pending| - 1;
        var visited := Visit(work, decade, scale);
        match visited {
          case Unordered => return None;
          case Halting(fault) =>
            result := Conclude(work.proofs, work.roots, work.residuals, [work.pending[last]] + work.pending[..last], work.unresolved, Some(fault));
            return;
          case Continuing(next) => work := next;
        }
      }
      WorkEnds(p, work);
      WorkParts(p, work);
      if Decisive(p) {
        DecisiveEnds(p, work, evaluations);
      }
      if Wide(p) {
        RoomyParts(p, decade, work);
        RoomyRegions(p, decade, work.proofs);
      }
      if Calm(p, scale) {
        CalmParts(p, scale, work);
      }
      result := Conclude(work.proofs, work.roots, work.residuals, [], work.unresolved, None);
    }

    /** The state, the headline scalar and the record checks at the end of run(). */
    method Conclude(proofs: seq<Region>, roots: seq<Bounds>, residuals: seq<Bounds>, unvisited: seq<Bounds>,
                    unresolved: bool, fault: Option<Fault>) returns (result: Option<SolveResult>)
      requires p.Valid() && evaluations <= p.spec.maxEvaluations && iterations <= evaluations + 1
      requires subdivisions <= p.spec.maxSubdivisions && |proofs| + |unvisited| == subdivisions + 1
      requires forall i :: 0 <= i < |proofs| ==> CertifiedRegion(p, proofs[i]) && RegionOrdered(proofs[i])
      requires Chain(Domains(proofs) + Arranged(unvisited), p.spec.lower, p.spec.upper)
      requires roots == RootsOf(proofs) && Matched(p, roots, residuals)
      requires unresolved <==> DomainsOf(Unresolved, proofs) != []
      requires forall i :: 0 <= i < |proofs| && proofs[i].disposition.Unresolved? ==> GivenUp(p, proofs[i], subdivisions)
      requires fault.Some? <==> unvisited != []
      requires fault == Some(BudgetExhausted) ==> evaluations == p.spec.maxEvaluations || unvisited == [Bounds(p.spec.lower, p.spec.upper)]
      ensures result.Some? ==> Certificate(p, result.value)
      ensures result.Some? ==> result.value.proof == proofs && result.value.unvisited == unvisited
      ensures AllOrdered(roots) && AllOrdered(residuals) && AllOrdered(unvisited) && MidsInside(p.rounding, roots) ==> result.Some?
    {
      hide Encloses, G, CertifiedRegion, RegionOrdered, Chain, GivenUp, Domains, RootsOf, DomainsOf, Arranged, Mid, Outward, HoldsResidual;
      var reason := match fault
        case Some(BudgetExhausted) => Some(EvaluationBudget)
        case Some(Arithmetic) => Some(NumericPrecision)
        case None => if unresolved then Some(UncertifiedDomain) else None;
      var state :=
        if reason.Some? then Inconclusive
        else if |roots| > 1 then NonUnique
        else if |roots| == 1 then Converged
        else NoSolutionInDomain;
      var chosen := if state.Converged? then Some(roots[0]) else None;
      var middle := if chosen.Some? then Some(Mid(p.rounding, chosen.value.lo, chosen.value.hi)) else None;
      var residual := if chosen.Some? then Some(residuals[0]) else None;
      if !AllOrdered(roots) || !AllOrdered(unvisited) || (residual.Some? && !residual.value.Ordered())
         || (chosen.Some? && !chosen.value.Contains(middle.value)) {
        return None;
      }
      assert AllOrdered(Domains(proofs) + Arranged(unvisited)) by {
        OrderedParts(proofs, unvisited);
      }
      result := Some(SolveResult(state, middle, chosen, residual, roots, unvisited, proofs, evaluations, subdivisions, iterations, reason));
    }
  }

  lemma {:induction false} JudgedAsSuch(p: Problem, b: Bounds, e: Examined)
    requires p.Valid() && e.Judged? && e == Judge(p, b) && e.region.domain == b
    ensures AsJudged(p, e.region)
  {
    hide Judge;
  }

  /** The domain on top of the stack has become the next proof region. */
  ghost predicate Records(w: Work, g: Region, next: Work)
    requires w.pending != []
  {
    next.proofs == w.proofs + [g] && next.pending == w.pending[..|w.pending| - 1] && g.domain == w.pending[|w.pending| - 1]
  }

  /** No initial piece needs a split. */
  ghost predicate Decisive(p: Problem)
    requires p.Valid()
  {
    |Pieces(InitialCuts(p))| - 1 <= p.spec.maxSubdivisions && AllDecided(p, Pieces(InitialCuts(p)), 0)
  }

  /** So far no piece has needed one, and the evaluations still suffice. */
  ghost predicate DecisiveSoFar(p: Problem, w: Work, evaluations: nat)
    requires p.Valid()
  {
    Domains(w.proofs) + Reverse(w.pending) == Pieces(InitialCuts(p)) && AllDecided(p, Reverse(w.pending), evaluations)
  }

  lemma {:induction false} DecisiveTop(p: Problem, w: Work, evaluations: nat)
    requires p.Valid() && DecisiveSoFar(p, w, evaluations) && w.pending != []
    ensures var top := w.pending[|w.pending| - 1];
            && evaluations + Cost(p, top) <= p.spec.maxEvaluations
            && Judge(p, top).Judged? && !Judge(p, top).region.disposition.Unresolved?
            && forall next, used: nat :: Records(w, Judge(p, top).region, next) && used <= evaluations + Cost(p, top) ==> DecisiveSoFar(p, next, used)
  {
    hide Cost, Judge, Pieces, InitialCuts, AllDecided, Domains, Reverse;
    ReversePop(w.pending);
    FirstDecided(p, Reverse(w.pending), evaluations);
    var g := Judge(p, w.pending[|w.pending| - 1]).region;
    AppendRegion(w.proofs, g);
    assert Reverse(w.pending)[1..] == Reverse(w.pending[..|w.pending| - 1]);
    assert Domains(w.proofs) + ([w.pending[|w.pending| - 1]] + Reverse(w.pending[..|w.pending| - 1])) ==
           Domains(w.proofs) + [w.pending[|w.pending| - 1]] + Reverse(w.pending[..|w.pending| - 1]);
  }

  lemma {:induction false} DecisiveStarts(p: Problem, pieces: seq<Bounds>, w: Work)
    requires p.Valid() && Decisive(p) && pieces == Pieces(InitialCuts(p)) && w.proofs == [] && w.pending == Reverse(pieces)
    ensures DecisiveSoFar(p, w, 0)
  {
    hide AllDecided, Pieces, InitialCuts, Reverse;
    ReverseTwice(pieces);
    assert Domains([]) + pieces == pieces;
  }

  lemma {:induction false} DecisiveEnds(p: Problem, w: Work, evaluations: nat)
    requires p.Valid() && DecisiveSoFar(p, w, evaluations) && w.pending == []
    ensures Domains(w.proofs) == Pieces(InitialCuts(p))
  {
    hide AllDecided, Pieces, InitialCuts;
  }

  /** A refinement that was not cut short by the budget ends as the search does. */
  ghost predicate Reports(f: Refinement, sought: Sought) {
    match f
    case Found(bracket, residual) => sought == Accepted(bracket, residual)
    case Abandoned => sought.Stuck?
    case Interrupted(fault) => fault.Arithmetic? ==> sought.Broken?
  }

  datatype Visited = Continuing(work: Work) | Halting(fault: Fault) | Unordered

  ghost predicate KinkEnd(p: Problem, i: nat, v: real)
    requires p.spec.anchorMargin.Some? && i < |p.spec.marginWeights|
  {
    var kink := Kink(p.rounding, p.spec.marginWeights[i], p.spec.anchorMargin.value);
    p.spec.marginWeights[i] > 0.0 && kink.Some? && (v == kink.value.lo || v == kink.value.hi) && p.spec.lower < v < p.spec.upper
  }

  lemma {:induction false} KinkDefined(r: Rounding, weight: real, anchor: real)
    requires weight > 0.0
    ensures Kink(r, weight, anchor).Some?
  {
  }

  lemma {:induction false} SignsOpposite(a: int, b: int)
    requires -1 <= a <= 1 && -1 <= b <= 1 && a * b == -1
    ensures (a == 1 || a == -1) && b == -a
  {
  }

  lemma {:induction false} OppositeSignsChange(p: Problem, b: Bounds, sign: int)
    requires p.Valid() && HasSign(p, b.lo, sign) && HasSign(p, b.hi, -sign)
    ensures SignChange(p, b)
  {
  }

  lemma {:induction false} RefinedOrdered(p: Problem, domain: Bounds, root: Bounds, residual: Bounds)
    requires p.Valid() && RefinedBracket(p, domain, root)
    requires HoldsResidual(p, root, residual)
    ensures root.Ordered() ==> residual.Ordered()
    ensures Roomy(p, domain) ==> root.Ordered() && root.Contains(Mid(p.rounding, root.lo, root.hi))
  {
    hide G, Roomy, Mid, AllKept;
    if root.Ordered() {
      assert root.Contains(root.lo);
    }
  }

  lemma {:induction false} ReverseTwice(s: seq<Bounds>)
    ensures Reverse(Reverse(s)) == s
  {
  }

  lemma {:induction false} AppendRegion(proofs: seq<Region>, region: Region)
    ensures Domains(proofs + [region]) == Domains(proofs) + [region.domain]
    ensures RootsOf(proofs + [region]) == RootsOf(proofs) + if region.disposition.UniqueRoot? && region.root.Some? then [region.root.value] else []
    ensures DomainsOf(Unresolved, proofs + [region]) == DomainsOf(Unresolved, proofs) + if region.disposition.Unresolved? then [region.domain] else []
  {
    assert (proofs + [region])[..|proofs|] == proofs;
  }

  lemma {:induction false} OrderedParts(proofs: seq<Region>, unvisited: seq<Bounds>)
    requires forall i :: 0 <= i < |proofs| ==> RegionOrdered(proofs[i])
    requires AllOrdered(unvisited)
    ensures AllOrdered(Domains(proofs) + Arranged(unvisited))
  {
    forall i | 0 <= i < |proofs|
      ensures Domains(proofs)[i].Ordered()
    {
      assert RegionOrdered(proofs[i]);
    }
  }

  /** Some decade that gives the region room, if there is one. */
  ghost function RoomFor(p: Problem, region: Bounds): (d: real)
    ensures Roomy(p, region) ==> RoomyFor(p, d, region)
  {
    if Roomy(p, region) then var d :| RoomyFor(p, d, region); d else 1.0
  }

  lemma {:induction false} RoomStart(p: Problem, decade: real, region: Bounds)
    requires RoomyFor(p, decade, region)
    ensures RoomLeft(p, decade, region, region, p.spec.maxIterations)
  {
  }

  lemma {:induction false} RoomInside(p: Problem, decade: real, region: Bounds, b: Bounds, left: nat)
    requires RoomyFor(p, decade, region) && RoomLeft(p, decade, region, b, left) && left > 0
    ensures region.lo <= b.lo < b.hi <= region.hi && b.Contains(Mid(p.rounding, b.lo, b.hi))
  {
    hide RoomyFor, Mid;
    HalfKeepsRoom(p, decade, region, b, left);
  }

  lemma {:induction false} EnclosureHolds(p: Problem, b: Bounds, d: Dual)
    requires p.Valid() && Encloses(d, p.forecast, p.spec, p.target, b)
    ensures HoldsResidual(p, b, d.value)
  {
    hide Residual, Times;
    forall x | b.Contains(x)
      ensures d.value.Contains(G(p, x))
    {
      assert Tracks(d, G(p, x), G(p, x), x - x);
    }
  }

  lemma {:induction false} WithinTolerance(p: Problem, b: Bounds, d: Dual, tolerance: real)
    requires p.Valid() && Encloses(d, p.forecast, p.spec, p.target, b)
    requires Max(Abs(d.value.lo), Abs(d.value.hi)) <= tolerance
    ensures HoldsResidual(p, b, d.value) && forall x :: b.Contains(x) ==> Abs(G(p, x)) <= tolerance
    ensures tolerance == Tolerance(p) ==> WithinAll(p, b, d.value)
  {
    hide Residual, Times;
    forall x | b.Contains(x)
      ensures d.value.Contains(G(p, x)) && Abs(G(p, x)) <= tolerance
    {
      assert Tracks(d, G(p, x), G(p, x), x - x);
    }
  }
}
