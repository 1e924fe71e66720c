/**
 What a finished solve claims (the SolveResult and ProofRegion records of
 packages/core/valuation_types.py) and what follows from it about every parameter of the
 declared domain. The solver establishes `Certificate`; the lemmas here read it.
 */
module Certificates {
  import opened Common
  import opened Intervals
  import opened Forecasts
  import opened Residuals
  import Monotone

  datatype Problem = Problem(rounding: Rounding, forecast: Forecast, spec: SolveSpec, target: real) {
    ghost predicate Valid() {
      Solvable(forecast, spec) && Outward(rounding)
    }
  }

  ghost function G(p: Problem, x: real): real
    requires p.Valid()
  {
    Residual(p.forecast, p.spec, p.target, x)
  }

  /** The tolerance on the residual, rounded as the source computes it. */
  function Tolerance(p: Problem): real {
    var near := p.rounding.near;
    near(p.spec.absoluteTolerance + near(Times(p.spec.relativeTolerance, near(Abs(p.target)))))
  }

  /** The rounded midpoint: both the sum and the half are rounded. */
  function Mid(r: Rounding, lo: real, hi: real): real {
    r.near(r.near(lo + hi) / 2.0)
  }

  datatype Disposition = Excluded | UniqueRoot | Unresolved

  datatype Region = Region(
    domain: Bounds,
    residual: Bounds,
    derivative: Bounds,
    disposition: Disposition,
    left: Option<Bounds>,
    right: Option<Bounds>,
    root: Option<Bounds>)

  datatype State = Converged | NoSolutionInDomain | NonUnique | Inconclusive

  datatype Reason = UncertifiedDomain | EvaluationBudget | NumericPrecision

  datatype SolveResult = SolveResult(
    state: State,
    representative: Option<real>,
    interval: Option<Bounds>,
    residual: Option<Bounds>,
    rootIntervals: seq<Bounds>,
    unvisited: seq<Bounds>,
    proof: seq<Region>,
    evaluations: nat,
    subdivisions: nat,
    iterations: nat,
    reason: Option<Reason>)
  {
    /** unresolved_domains: what was never visited, then what was visited in vain. */
    function UnresolvedDomains(): seq<Bounds> {
      unvisited + DomainsOf(Unresolved, proof)
    }
  }

  // ----- the shape of a result

  function Domains(proof: seq<Region>): (s: seq<Bounds>)
    ensures |s| == |proof| && forall i :: 0 <= i < |s| ==> s[i] == proof[i].domain
  {
    if proof == [] then [] else Domains(proof[..|proof| - 1]) + [proof[|proof| - 1].domain]
  }

  function DomainsOf(d: Disposition, proof: seq<Region>): seq<Bounds> {
    if proof == [] then [] else
      var last := proof[|proof| - 1];
      DomainsOf(d, proof[..|proof| - 1]) + if last.disposition == d then [last.domain] else []
  }

  function RootsOf(proof: seq<Region>): seq<Bounds> {
    if proof == [] then [] else
      var last := proof[|proof| - 1];
      RootsOf(proof[..|proof| - 1]) + if last.disposition.UniqueRoot? && last.root.Some? then [last.root.value] else []
  }

  /** Consecutive domains share exactly the end where they meet, from lower to upper. */
  predicate Chain(s: seq<Bounds>, lower: real, upper: real) {
    && |s| > 0 && s[0].lo == lower && s[|s| - 1].hi == upper
    && (forall i :: 0 <= i < |s| ==> s[i].lo != s[i].hi)
    && (forall i :: 0 <= i < |s| - 1 ==> s[i].hi == s[i + 1].lo)
  }

  predicate AllOrdered(s: seq<Bounds>) {
    forall i :: 0 <= i < |s| ==> s[i].Ordered()
  }

  function Reverse(s: seq<Bounds>): (t: seq<Bounds>)
    ensures |t| == |s| && forall i :: 0 <= i < |s| ==> t[i] == s[|s| - 1 - i]
  {
    if s == [] then [] else [s[|s| - 1]] + Reverse(s[..|s| - 1])
  }

  /** Left-to-right order of the unvisited domains: the interrupted one, then the stack from its top. */
  function Arranged(unvisited: seq<Bounds>): (t: seq<Bounds>)
    ensures |t| == |unvisited|
    ensures forall i :: 0 <= i < |t| ==> t[i] == unvisited[if i == 0 then 0 else |unvisited| - i]
  {
    if unvisited == [] then [] else [unvisited[0]] + Reverse(unvisited[1..])
  }

  // ----- what one region certifies

  ghost predicate SignChange(p: Problem, b: Bounds)
    requires p.Valid()
  {
    G(p, b.lo) < 0.0 < G(p, b.hi) || G(p, b.hi) < 0.0 < G(p, b.lo)
  }

  ghost predicate Increasing(p: Problem, b: Bounds)
    requires p.Valid()
  {
    forall x, y :: b.lo <= x < y <= b.hi ==> G(p, x) < G(p, y)
  }

  ghost predicate Decreasing(p: Problem, b: Bounds)
    requires p.Valid()
  {
    forall x, y :: b.lo <= x < y <= b.hi ==> G(p, y) < G(p, x)
  }

  ghost predicate NoZero(p: Problem, b: Bounds)
    requires p.Valid()
  {
    forall x :: b.Contains(x) ==> G(p, x) != 0.0
  }

  /** A refined bracket: opposite signs at its ends, in the direction of its region, and a
      residual that stays within tolerance everywhere between them. */
  ghost predicate RefinedBracket(p: Problem, domain: Bounds, root: Bounds)
    requires p.Valid()
  {
    && (G(p, domain.lo) < 0.0 ==> G(p, root.lo) < 0.0 < G(p, root.hi))
    && (G(p, domain.lo) > 0.0 ==> G(p, root.hi) < 0.0 < G(p, root.lo))
    && p.rounding.near(root.hi - root.lo) <= p.spec.widthTolerance
    && (forall x :: root.Contains(x) ==> Abs(G(p, x)) <= Tolerance(p))
    && AllKept(p, domain, root)
    && (Roomy(p, domain) ==> Inside(root, domain) && root.Contains(Mid(p.rounding, root.lo, root.hi)))
  }

  /** The interval holds the exact residual of every parameter of the domain. */
  ghost predicate HoldsResidual(p: Problem, domain: Bounds, residual: Bounds)
    requires p.Valid()
  {
    forall x :: domain.Contains(x) ==> residual.Contains(G(p, x))
  }

  ghost predicate CertifiedRegion(p: Problem, g: Region)
    requires p.Valid()
  {
    && Encloses(Dual(g.residual, g.derivative), p.forecast, p.spec, p.target, g.domain)
    && (g.left.Some? ==> HoldsResidual(p, Point(g.domain.lo), g.left.value))
    && (g.right.Some? ==> HoldsResidual(p, Point(g.domain.hi), g.right.value))
    && (g.disposition.Excluded? ==> NoZero(p, g.domain))
    && (g.disposition.UniqueRoot? ==>
          && (Increasing(p, g.domain) || Decreasing(p, g.domain))
          && SignChange(p, g.domain)
          && g.root.Some? && RefinedBracket(p, g.domain, g.root.value))
  }

  predicate RegionOrdered(g: Region) {
    && g.domain.Ordered() && g.residual.Ordered() && g.derivative.Ordered()
    && (g.left.Some? ==> g.left.value.Ordered()) && (g.right.Some? ==> g.right.value.Ordered())
    && (g.root.Some? ==> g.root.value.Ordered())
  }

  // ----- room for the rounded midpoint

  /** Powers of ten. */
  ghost predicate Decade(p: real) {
    p > 0.0 && exists k: nat :: p == Pow(10.0, k) || p * Pow(10.0, k) == 1.0
  }

  /** One unit in the 80th significant digit of a number below the decade. */
  ghost function Unit(decade: real): real {
    decade * Ulp80()
  }

  ghost function Ulp80(): (u: real)
    ensures u > 0.0
  {
    PowPositive(0.1, 80);
    Pow(0.1, 80)
  }

  /** What an 80-digit half-even context does up to a power of ten within its exponent range: a number
      stays there and moves by at most half a unit in the last digit, and a sum of two such numbers
      moves by at most five units (see Contexts). */
  ghost predicate EightyDigits(r: Rounding, decade: real) {
    && Decade(decade)
    && NearUpTo(r.near, decade, Unit(decade) / 2.0)
    && NearUpTo(r.near, 2.0 * decade, 5.0 * Unit(decade))
  }

  /** Up to the bound, rounding stays within the bound and moves a number by at most the slip. */
  ghost predicate NearUpTo(near: real -> real, bound: real, slip: real) {
    forall x :: -bound <= x <= bound ==> -bound <= near(x) <= bound && -slip <= near(x) - x <= slip
  }

  /** The domain lies within the decade, and the width tolerance is no finer than the digits. */
  ghost predicate Steady(p: Problem, decade: real) {
    && EightyDigits(p.rounding, decade)
    && -decade <= p.spec.lower && p.spec.upper <= decade
    && p.spec.widthTolerance >= 41.0 * Unit(decade)
  }

  /** A change of sign within the last digits over which the residual interval still misses the tolerance. */
  ghost predicate Blunt(p: Problem, decade: real, b: Bounds)
    requires p.Valid()
  {
    && p.spec.lower <= b.lo < b.hi <= p.spec.upper && b.hi - b.lo <= 36.0 * Unit(decade) && SignChange(p, b)
    && var d := ResidualOver(p.rounding, p.forecast, p.spec, b, p.target);
       d.Some? ==> Max(Abs(d.value.value.lo), Abs(d.value.value.hi)) > Tolerance(p)
  }

  /** Around every zero the tolerance is met before the digits run out. */
  ghost predicate Sharp(p: Problem, decade: real)
    requires p.Valid()
  {
    forall b :: !Blunt(p, decade, b)
  }

  predicate Inside(b: Bounds, domain: Bounds) {
    domain.lo <= b.lo < b.hi <= domain.hi
  }

  /** Refinement stays inside its region, or has come down to fifteen units; and it comes down there only
      where some bracket was blunt. */
  ghost predicate Kept(p: Problem, decade: real, domain: Bounds, b: Bounds)
    requires p.Valid()
  {
    var excused := Steady(p, decade) && Sharp(p, decade) && Inside(domain, Bounds(p.spec.lower, p.spec.upper));
    && -decade <= b.lo <= decade && -decade <= b.hi <= decade
    && (Inside(b, domain) || Abs(b.hi - b.lo) <= 15.0 * Unit(decade))
    && (excused ==> Inside(b, domain) && (b == domain || b.hi - b.lo > 12.0 * Unit(decade)))
  }

  ghost predicate Fits(p: Problem, decade: real, domain: Bounds) {
    EightyDigits(p.rounding, decade) && -decade <= domain.lo < domain.hi <= decade
  }

  /** Kept, at every decade at which the region fits. */
  ghost predicate AllKept(p: Problem, domain: Bounds, b: Bounds)
    requires p.Valid()
  {
    forall decade :: Fits(p, decade, domain) ==> Kept(p, decade, domain, b)
  }

  /** A region so wide that no sequence of halvings the iteration budget allows can bring a
      bracket inside it down to the scale of rounding. */
  ghost predicate RoomyFor(p: Problem, decade: real, b: Bounds) {
    && EightyDigits(p.rounding, decade)
    && -decade <= b.lo < b.hi <= decade
    && b.hi - b.lo + 12.0 * Unit(decade) >= Times(24.0 * Unit(decade), Pow(2.0, p.spec.maxIterations))
  }

  ghost predicate Roomy(p: Problem, b: Bounds) {
    exists decade :: RoomyFor(p, decade, b)
  }

  /** A visited domain is given up only when the split budget, the width or the digits run out. */
  predicate GivenUp(p: Problem, g: Region, subdivisions: nat) {
    || subdivisions == p.spec.maxSubdivisions
    || p.rounding.near(g.domain.hi - g.domain.lo) <= p.spec.widthTolerance
    || Mid(p.rounding, g.domain.lo, g.domain.hi) in {g.domain.lo, g.domain.hi}
  }

  // ----- what a result certifies

  ghost predicate Certificate(p: Problem, s: SolveResult)
    requires p.Valid()
  {
    && (forall i :: 0 <= i < |s.proof| ==> CertifiedRegion(p, s.proof[i]) && RegionOrdered(s.proof[i]))
    && Chain(Domains(s.proof) + Arranged(s.unvisited), p.spec.lower, p.spec.upper)
    && AllOrdered(Domains(s.proof) + Arranged(s.unvisited))
    && |s.proof| + |s.unvisited| == s.subdivisions + 1
    && s.subdivisions <= p.spec.maxSubdivisions
    && s.evaluations <= p.spec.maxEvaluations && s.iterations <= s.evaluations + 1
    && s.rootIntervals == RootsOf(s.proof)
    && (forall i :: 0 <= i < |s.proof| && s.proof[i].disposition.Unresolved? ==> GivenUp(p, s.proof[i], s.subdivisions))
    && (s.reason == Some(EvaluationBudget) ==> s.evaluations == p.spec.maxEvaluations || s.unvisited == [Bounds(p.spec.lower, p.spec.upper)])
    && (s.reason.Some? <==> s.state.Inconclusive?)
    && (s.reason.None? <==> s.UnresolvedDomains() == [])
    && (s.state.Converged? ==> |s.rootIntervals| == 1)
    && (s.state.NoSolutionInDomain? ==> s.rootIntervals == [])
    && (s.state.NonUnique? ==> |s.rootIntervals| > 1)
    && (s.state.Converged? <==> s.interval.Some?) && (s.interval.Some? <==> s.representative.Some?)
    && (s.interval.Some? <==> s.residual.Some?)
    && (s.state.Converged? ==> s.interval.value == s.rootIntervals[0] && s.interval.value.Contains(s.representative.value))
    && (s.state.Converged? ==>
          && s.representative.value == Mid(p.rounding, s.interval.value.lo, s.interval.value.hi)
          && HoldsResidual(p, s.interval.value, s.residual.value))
  }

  // ----- reading the tiling

  /** Every parameter of the declared domain lies in some domain of the chain. */
  lemma {:induction false} ChainCovers(s: seq<Bounds>, lower: real, upper: real, x: real) returns (i: nat)
    requires Chain(s, lower, upper) && lower <= x <= upper
    ensures i < |s| && s[i].Contains(x)
  {
    if x <= s[0].hi {
      i := 0;
    } else {
      var rest := s[1..];
      assert forall j :: 0 <= j < |rest| ==> rest[j] == s[j + 1];
      assert |s| > 1;
      var j := ChainCovers(rest, s[0].hi, upper, x);
      i := j + 1;
    }
  }

  /** Ordered chain domains meet in at most the end they share. */
  lemma {:induction false} ChainApart(s: seq<Bounds>, lower: real, upper: real, i: nat, j: nat)
    requires Chain(s, lower, upper) && AllOrdered(s) && i < j < |s|
    ensures s[i].hi <= s[j].lo
    decreases j
  {
    if i + 1 < j {
      ChainApart(s, lower, upper, i, j - 1);
    }
  }

  lemma {:induction false} ChainWithin(s: seq<Bounds>, lower: real, upper: real, i: nat)
    requires Chain(s, lower, upper) && AllOrdered(s) && i < |s|
    ensures lower <= s[i].lo < s[i].hi <= upper
  {
    if i > 0 {
      ChainApart(s, lower, upper, 0, i);
    }
    if i < |s| - 1 {
      ChainApart(s, lower, upper, i, |s| - 1);
    }
  }

  // ----- reading the list of roots

  ghost predicate RootAt(proof: seq<Region>, k: nat) {
    k < |proof| && proof[k].disposition.UniqueRoot?
  }

  ghost predicate RootsKept(proof: seq<Region>) {
    forall i :: 0 <= i < |proof| && proof[i].disposition.UniqueRoot? ==> proof[i].root.Some?
  }

  lemma {:induction false} NoRoots(proof: seq<Region>)
    requires RootsKept(proof) && RootsOf(proof) == []
    ensures forall i :: 0 <= i < |proof| ==> !proof[i].disposition.UniqueRoot?
  {
    if proof != [] {
      var front := proof[..|proof| - 1];
      NoRoots(front);
      assert forall i :: 0 <= i < |front| ==> front[i] == proof[i];
    }
  }

  lemma {:induction false} SomeRoot(proof: seq<Region>) returns (k: nat)
    requires RootsKept(proof) && RootsOf(proof) != []
    ensures RootAt(proof, k) && proof[k].root.Some? && proof[k].root.value == RootsOf(proof)[0]
    ensures |RootsOf(proof)| == 1 ==> forall i :: 0 <= i < |proof| && i != k ==> !proof[i].disposition.UniqueRoot?
  {
    var front, last := proof[..|proof| - 1], |proof| - 1;
    assert forall i :: 0 <= i < |front| ==> front[i] == proof[i];
    if RootsOf(front) == [] {
      NoRoots(front);
      k := last;
    } else {
      k := SomeRoot(front);
    }
  }

  lemma {:induction false} TwoRoots(proof: seq<Region>) returns (i: nat, j: nat)
    requires RootsKept(proof) && |RootsOf(proof)| > 1
    ensures i < j && RootAt(proof, i) && RootAt(proof, j)
  {
    var front, last := proof[..|proof| - 1], |proof| - 1;
    assert forall i :: 0 <= i < |front| ==> front[i] == proof[i];
    if |RootsOf(front)| > 1 {
      i, j := TwoRoots(front);
    } else {
      i := SomeRoot(front);
      j := last;
    }
  }

  lemma {:induction false} NoneUnresolved(proof: seq<Region>)
    requires DomainsOf(Unresolved, proof) == []
    ensures forall i :: 0 <= i < |proof| ==> !proof[i].disposition.Unresolved?
  {
    if proof != [] {
      var front := proof[..|proof| - 1];
      NoneUnresolved(front);
      assert forall i :: 0 <= i < |front| ==> front[i] == proof[i];
    }
  }

  // ----- what each answer says about the whole domain

  /** A conclusive answer rests on regions that cover the whole domain. */
  lemma {:induction false} Conclusive(p: Problem, s: SolveResult, x: real) returns (i: nat)
    requires p.Valid() && Certificate(p, s) && !s.state.Inconclusive? && p.spec.lower <= x <= p.spec.upper
    ensures i < |s.proof| && s.proof[i].domain.Contains(x) && !s.proof[i].disposition.Unresolved?
    ensures CertifiedRegion(p, s.proof[i])
  {
    hide CertifiedRegion, RegionOrdered;
    assert Domains(s.proof) + Arranged(s.unvisited) == Domains(s.proof);
    i := ChainCovers(Domains(s.proof), p.spec.lower, p.spec.upper, x);
    NoneUnresolved(s.proof);
  }

  lemma {:induction false} CertifiedRootsKept(p: Problem, s: SolveResult)
    requires p.Valid() && Certificate(p, s)
    ensures RootsKept(s.proof)
  {
    forall i | 0 <= i < |s.proof| && s.proof[i].disposition.UniqueRoot?
      ensures s.proof[i].root.Some?
    {
      assert CertifiedRegion(p, s.proof[i]);
    }
  }

  /** "no_solution_in_domain": no parameter of the declared domain zeroes the exact residual. */
  lemma {:induction false} NoSolutionMeansNoZero(p: Problem, s: SolveResult, x: real)
    requires p.Valid() && Certificate(p, s) && s.state.NoSolutionInDomain?
    requires p.spec.lower <= x <= p.spec.upper
    ensures G(p, x) != 0.0
  {
    hide Encloses, G, Domains, Chain, AllOrdered;
    var i := Conclusive(p, s, x);
    CertifiedRootsKept(p, s);
    NoRoots(s.proof);
  }

  /** The region behind the one root of a converged answer. */
  lemma {:induction false} ConvergedRegion(p: Problem, s: SolveResult) returns (k: nat)
    requires p.Valid() && Certificate(p, s) && s.state.Converged?
    ensures k < |s.proof| && s.proof[k].disposition.UniqueRoot? && CertifiedRegion(p, s.proof[k])
    ensures s.interval.Some? && s.proof[k].root == Some(s.interval.value)
    ensures forall x :: p.spec.lower <= x <= p.spec.upper && G(p, x) == 0.0 ==> s.proof[k].domain.Contains(x)
  {
    hide Encloses, G, Domains, Chain, AllOrdered;
    CertifiedRootsKept(p, s);
    k := SomeRoot(s.proof);
    forall x | p.spec.lower <= x <= p.spec.upper && G(p, x) == 0.0
      ensures s.proof[k].domain.Contains(x)
    {
      var i := Conclusive(p, s, x);
    }
  }

  /** "converged": at most one zero in the whole domain, opposite signs at the ends of the
      returned interval, and a residual within tolerance throughout it. */
  lemma {:induction false} ConvergedMeansUnique(p: Problem, s: SolveResult, x: real, y: real)
    requires p.Valid() && Certificate(p, s) && s.state.Converged?
    requires p.spec.lower <= x <= p.spec.upper && p.spec.lower <= y <= p.spec.upper
    ensures G(p, x) == 0.0 && G(p, y) == 0.0 ==> x == y
    ensures s.interval.Some? && s.interval.value.Ordered() && SignChange(p, s.interval.value)
    ensures s.interval.value.Contains(x) ==> Abs(G(p, x)) <= Tolerance(p)
  {
    hide Encloses, G, Domains, Tolerance, Roomy, Chain, AllOrdered;
    var k := ConvergedRegion(p, s);
    assert RegionOrdered(s.proof[k]);
  }

  /** A bracket with opposite signs holds every zero of a residual that moves one way all along. */
  lemma {:induction false} MonotoneBracketHoldsZero(p: Problem, b: Bounds, x: real)
    requires p.Valid() && !p.spec.variable.RevenueCagr? && b.Ordered() && SignChange(p, b) && G(p, x) == 0.0
    ensures b.Contains(x)
  {
    hide Residual;
    MonotoneOn(p, b.lo, b.hi);
    if x < b.lo {
      MonotoneOn(p, x, b.lo);
    } else if b.hi < x {
      MonotoneOn(p, b.hi, x);
    }
  }

  /** Margin and reinvestment solves: the returned interval holds every zero there is, however the
      midpoints were rounded. */
  lemma {:induction false} MonotoneConvergedHoldsZero(p: Problem, s: SolveResult, x: real)
    requires p.Valid() && Certificate(p, s) && s.state.Converged? && !p.spec.variable.RevenueCagr? && G(p, x) == 0.0
    ensures s.interval.Some? && s.interval.value.Contains(x)
  {
    hide Encloses, G, Certificate;
    ConvergedMeansUnique(p, s, p.spec.lower, p.spec.lower);
    MonotoneBracketHoldsZero(p, s.interval.value, x);
  }

  /** A certified region holds the zero, so an interval inside the region holds it too. */
  lemma {:induction false} InsideHoldsZero(p: Problem, domain: Bounds, root: Bounds, x: real)
    requires p.Valid() && (Increasing(p, domain) || Decreasing(p, domain)) && SignChange(p, domain)
    requires RefinedBracket(p, domain, root) && Inside(root, domain) && domain.Contains(x) && G(p, x) == 0.0
    ensures root.Contains(x)
  {
    hide G, AllKept, Roomy, Tolerance;
  }

  /** For any variable: an interval wider than fifteen units in the 80th digit holds every zero of the domain. */
  lemma {:induction false} WideIntervalHoldsZero(p: Problem, s: SolveResult, decade: real, x: real)
    requires p.Valid() && Certificate(p, s) && s.state.Converged?
    requires EightyDigits(p.rounding, decade) && -decade <= p.spec.lower && p.spec.upper <= decade
    requires s.interval.value.hi - s.interval.value.lo > 15.0 * Unit(decade)
    requires p.spec.lower <= x <= p.spec.upper && G(p, x) == 0.0
    ensures s.interval.value.Contains(x)
  {
    hide Encloses, G, Tolerance, Roomy, EightyDigits, Unit, Sharp, Steady, Certificate, Increasing, Decreasing, SignChange;
    var k := RegionOfInterval(p, s);
    var d, root := s.proof[k].domain, s.interval.value;
    assert Fits(p, decade, d);
    assert Kept(p, decade, d, root);
    InsideHoldsZero(p, d, root, x);
  }

  /** For any variable, before the call: if around every zero the tolerance is met before the digits run
      out, a converged interval holds every zero of the domain, whatever the iteration budget. */
  lemma {:induction false} SharpConvergedHoldsZero(p: Problem, s: SolveResult, decade: real, x: real)
    requires p.Valid() && Certificate(p, s) && s.state.Converged? && Steady(p, decade) && Sharp(p, decade)
    requires p.spec.lower <= x <= p.spec.upper && G(p, x) == 0.0
    ensures s.interval.Some? && s.interval.value.Contains(x)
  {
    hide Encloses, G, Tolerance, Roomy, EightyDigits, Unit, Sharp, Steady, Certificate, Increasing, Decreasing, SignChange, AllKept;
    var k := SharpIntervalInside(p, s, decade);
    InsideHoldsZero(p, s.proof[k].domain, s.interval.value, x);
  }

  /** ... and lies inside the region it was refined from, hence inside the declared domain. */
  lemma {:induction false} SharpIntervalInside(p: Problem, s: SolveResult, decade: real) returns (k: nat)
    requires p.Valid() && Certificate(p, s) && s.state.Converged? && Steady(p, decade) && Sharp(p, decade)
    ensures k < |s.proof| && CertifiedRegion(p, s.proof[k]) && s.proof[k].disposition.UniqueRoot?
    ensures s.interval.Some? && s.proof[k].root == Some(s.interval.value) && Inside(s.interval.value, s.proof[k].domain)
    ensures Inside(s.interval.value, Bounds(p.spec.lower, p.spec.upper))
    ensures forall x :: p.spec.lower <= x <= p.spec.upper && G(p, x) == 0.0 ==> s.proof[k].domain.Contains(x)
  {
    hide Encloses, G, Tolerance, Roomy, EightyDigits, Unit, Sharp, Certificate, Increasing, Decreasing, SignChange;
    k := RegionOfInterval(p, s);
    var d, root := s.proof[k].domain, s.interval.value;
    assert Fits(p, decade, d);
    assert Kept(p, decade, d, root);
  }

  /** A converged interval can miss the zero of its region only if the residual changes sign twice more
      outside that region: between the two, and inside the interval. */
  lemma {:induction false} MissedZeroMeansMoreCrossings(p: Problem, s: SolveResult, x: real) returns (k: nat)
    requires p.Valid() && Certificate(p, s) && s.state.Converged?
    requires p.spec.lower <= x <= p.spec.upper && G(p, x) == 0.0 && !s.interval.value.Contains(x)
    ensures k < |s.proof| && s.proof[k].domain.Contains(x) && SignChange(p, s.proof[k].domain) && SignChange(p, s.interval.value)
    ensures CertifiedRegion(p, s.proof[k]) && s.proof[k].disposition.UniqueRoot? && s.proof[k].root == s.interval
    ensures p.spec.lower <= s.proof[k].domain.lo < s.proof[k].domain.hi <= p.spec.upper
    ensures var d, b := s.proof[k].domain, s.interval.value;
            || (d.hi < b.lo && SignChange(p, Bounds(d.hi, b.lo)))
            || (b.hi < d.lo && SignChange(p, Bounds(b.hi, d.lo)))
  {
    hide Encloses, G, Tolerance, Roomy, AllKept, Certificate;
    ConvergedMeansUnique(p, s, x, x);
    k := RegionOfInterval(p, s);
  }

  /** The region behind a converged interval, inside the declared domain. */
  lemma {:induction false} RegionOfInterval(p: Problem, s: SolveResult) returns (k: nat)
    requires p.Valid() && Certificate(p, s) && s.state.Converged?
    ensures k < |s.proof| && CertifiedRegion(p, s.proof[k]) && s.proof[k].disposition.UniqueRoot?
    ensures s.interval.Some? && s.proof[k].root == Some(s.interval.value)
    ensures p.spec.lower <= s.proof[k].domain.lo < s.proof[k].domain.hi <= p.spec.upper
    ensures forall x :: p.spec.lower <= x <= p.spec.upper && G(p, x) == 0.0 ==> s.proof[k].domain.Contains(x)
  {
    hide Encloses, G, Chain, AllOrdered, CertifiedRegion, RegionOrdered;
    k := ConvergedRegion(p, s);
    ChainWithin(Domains(s.proof) + Arranged(s.unvisited), p.spec.lower, p.spec.upper, k);
  }

  /**
   What the certificate alone says of a growth solve: its zero lies in the returned interval exactly when
   that interval reaches the certified region it was refined from. The rounded midpoint of a bracket a few
   last-digit units wide can fall outside the bracket (see Contexts.MidpointEscapes), so the bracket may
   leave its region there.
   */
  lemma {:induction false} ZeroInsideIffIntervalMeetsRegion(p: Problem, s: SolveResult, x: real) returns (k: nat)
    requires p.Valid() && Certificate(p, s) && s.state.Converged?
    requires p.spec.lower <= x <= p.spec.upper && G(p, x) == 0.0
    ensures k < |s.proof| && s.proof[k].disposition.UniqueRoot? && s.proof[k].root == s.interval
    ensures s.interval.value.Contains(x) <==>
            s.interval.value.lo <= s.proof[k].domain.hi && s.proof[k].domain.lo <= s.interval.value.hi
    ensures Roomy(p, s.proof[k].domain) || !p.spec.variable.RevenueCagr? ==> s.interval.value.Contains(x)
  {
    hide Encloses, G, Domains, Tolerance, Roomy, Chain, AllOrdered, AllKept;
    if !p.spec.variable.RevenueCagr? {
      MonotoneConvergedHoldsZero(p, s, x);
    }
    k := ConvergedRegion(p, s);
    var d, root := s.proof[k].domain, s.interval.value;
    assert RegionOrdered(s.proof[k]);
    assert d.Contains(x) && d.lo != x && d.hi != x;
  }

  /** With room in every region, a converged interval holds every zero of the declared domain. */
  lemma {:induction false} RoomyConvergedHoldsZero(p: Problem, s: SolveResult, x: real)
    requires p.Valid() && Certificate(p, s) && s.state.Converged?
    requires forall i :: 0 <= i < |s.proof| ==> Roomy(p, s.proof[i].domain)
    requires p.spec.lower <= x <= p.spec.upper && G(p, x) == 0.0
    ensures s.interval.Some? && s.interval.value.Contains(x)
  {
    hide Encloses, G, CertifiedRegion, Roomy, Chain, AllOrdered, Domains;
    var k := ZeroInsideIffIntervalMeetsRegion(p, s, x);
  }

  /** "non_unique": two regions that share at most an end each hold a change of sign. */
  lemma {:induction false} NonUniqueMeansTwo(p: Problem, s: SolveResult) returns (i: nat, j: nat)
    requires p.Valid() && Certificate(p, s) && s.state.NonUnique?
    ensures i < j < |s.proof| && s.proof[i].domain.hi <= s.proof[j].domain.lo
    ensures p.spec.lower <= s.proof[i].domain.lo && s.proof[j].domain.hi <= p.spec.upper
    ensures SignChange(p, s.proof[i].domain) && SignChange(p, s.proof[j].domain)
    ensures s.proof[i].domain.lo < s.proof[i].domain.hi && s.proof[j].domain.lo < s.proof[j].domain.hi
  {
    hide Encloses, G, RefinedBracket;
    CertifiedRootsKept(p, s);
    i, j := TwoRoots(s.proof);
    assert CertifiedRegion(p, s.proof[i]) && CertifiedRegion(p, s.proof[j]);
    var all := Domains(s.proof) + Arranged(s.unvisited);
    ChainApart(all, p.spec.lower, p.spec.upper, i, j);
    ChainWithin(all, p.spec.lower, p.spec.upper, i);
    ChainWithin(all, p.spec.lower, p.spec.upper, j);
  }

  /** A margin or reinvestment solve can never be answered "non_unique". */
  lemma {:induction false} MonotoneNeverNonUnique(p: Problem, s: SolveResult)
    requires p.Valid() && Certificate(p, s) && !p.spec.variable.RevenueCagr?
    ensures !s.state.NonUnique?
  {
    hide Encloses, Residual, CertifiedRegion, Domains, Chain, AllOrdered;
    if s.state.NonUnique? {
      var i, j := NonUniqueMeansTwo(p, s);
      var a, b := s.proof[i].domain, s.proof[j].domain;
      MonotoneOn(p, a.lo, a.hi);
      MonotoneOn(p, a.hi, b.lo);
      MonotoneOn(p, b.lo, b.hi);
    }
  }

  lemma {:induction false} MonotoneOn(p: Problem, x: real, y: real)
    requires p.Valid() && !p.spec.variable.RevenueCagr? && x <= y
    ensures p.spec.variable.TerminalOperatingMargin? ==> G(p, x) <= G(p, y)
    ensures p.spec.variable.ReinvestmentToRevenue? ==> G(p, y) <= G(p, x)
  {
    if x < y {
      if p.spec.variable.TerminalOperatingMargin? {
        Monotone.StrictInMargin(p.forecast, p.spec, p.target, x, y);
      } else {
        Monotone.StrictInReinvestment(p.forecast, p.spec, p.target, x, y);
      }
    }
  }
}
