/**
 When the solver answers. From numbers a caller can compute before the call (a slope, a bracket width, sizes of
 residual intervals, a number of halvings) it follows that refinement cannot give up and that the budgets last,
 so that the run ends with a conclusive answer.
 */
module Completeness {
  import opened Common
  import opened Intervals
  import opened Forecasts
  import opened Residuals
  import opened Certificates
  import opened Midpoints
  import opened Searching
  import opened Solving
  import opened Sharpness
  import opened Powers
  import C = Contexts

  /** A bracket width that is narrow enough, a bound on the slope, and the halvings down to that width. */
  datatype Plan = Plan(width: real, slope: real, halvings: nat)

  /** Any interval of the given width within the domain. */
  function WithinSize(p: Problem, width: real): Size {
    Size(Max(Abs(p.spec.lower), Abs(p.spec.upper)), width, p.spec.lower)
  }

  /** How wide the residual interval over such an interval can be. */
  function Spread(p: Problem, e: Slip, width: real): Option<real>
    requires Solvable(p.forecast, p.spec)
  {
    var z :- ResidualSize(e, p.forecast, p.spec, WithinSize(p, width), p.target);
    Some(z.wid)
  }

  /** What a caller computes before the call: a bracket of the planned width meets both tolerances; the arithmetic
      never fails; and along a quarter of a wider bracket the residual changes by more than twice what one evaluation
      can blur. */
  predicate Computed(p: Problem, e: Slip, unit: real, plan: Plan)
    requires Solvable(p.forecast, p.spec)
  {
    && Spread(p, e, p.spec.upper - p.spec.lower).Some?
    && 36.0 * unit <= plan.width && plan.width + 5.0 * unit <= p.spec.widthTolerance
    && Spread(p, e, plan.width).Some? && Spread(p, e, plan.width).value <= Tolerance(p)
    && plan.slope > 0.0
    && Spread(p, e, 0.0).Some? && 2.0 * Spread(p, e, 0.0).value < Times(plan.slope, plan.width / 4.0 - 4.5 * unit)
    && plan.halvings < p.spec.maxIterations
  }

  ghost predicate Workable(p: Problem, e: Slip, decade: real, plan: Plan)
    requires p.Valid()
  {
    Steady(p, decade) && Slips(p.rounding, e) && Computed(p, e, Unit(decade), plan)
  }

  /** The derivative interval over the domain is at least as steep as planned. */
  ghost predicate Steep(p: Problem, b: Bounds, slope: real)
    requires p.Valid()
  {
    var d := DualOver(p, b);
    d.Some? && (d.value.derivative.lo >= slope || d.value.derivative.hi <= -slope)
  }

  /** Steep, with known opposite signs at the ends, and narrow enough for the planned halvings. */
  ghost predicate Refinable(p: Problem, decade: real, plan: Plan, b: Bounds)
    requires p.Valid()
  {
    && Changes(p, b) && Steep(p, b, plan.slope) && b.hi - b.lo > 6.0 * Unit(decade)
    && b.hi - b.lo - 12.0 * Unit(decade) <= Times(plan.width - 12.0 * Unit(decade), Pow(2.0, plan.halvings))
  }

  /** No zero over the domain: the residual interval is signed, or the derivative interval is and the ends agree. */
  ghost predicate Excludable(p: Problem, b: Bounds)
    requires p.Valid()
  {
    var d := DualOver(p, b);
    d.Some? && (d.value.value.Sign() != 0
                || (d.value.derivative.Sign() != 0 && SignOf(p, b.lo) == SignOf(p, b.hi) && SignOf(p, b.lo).Some? && SignOf(p, b.lo) != Some(0)))
  }

  ghost predicate Prepared(p: Problem, decade: real, plan: Plan, s: seq<Bounds>)
    requires p.Valid()
  {
    forall i :: 0 <= i < |s| ==> Refinable(p, decade, plan, s[i]) || Excludable(p, s[i])
  }

  // ----- what an evaluation can blur

  lemma {:induction false} SpreadHolds(p: Problem, e: Slip, b: Bounds, width: real)
    requires p.Valid() && Slips(p.rounding, e) && Spread(p, e, width).Some?
    requires p.spec.lower <= b.lo <= b.hi <= p.spec.upper && b.hi - b.lo <= width
    ensures DualOver(p, b).Some? && DualOver(p, b).value.value.hi - DualOver(p, b).value.value.lo <= Spread(p, e, width).value
    ensures Encloses(DualOver(p, b).value, p.forecast, p.spec, p.target, b)
  {
    hide Slips, ResidualSize, Solvable, ResidualOver, Encloses;
    ResidualSized(p.rounding, e, p.forecast, p.spec, b, WithinSize(p, width), p.target);
    Enclosure(p.rounding, p.forecast, p.spec, b, p.target);
  }

  lemma {:induction false} PointHolds(p: Problem, e: Slip, x: real) returns (v: Bounds)
    requires p.Valid() && Slips(p.rounding, e) && Spread(p, e, 0.0).Some? && p.spec.lower <= x <= p.spec.upper
    ensures SignOf(p, x) == Some(v.Sign()) && v.Contains(G(p, x)) && v.hi - v.lo <= Spread(p, e, 0.0).value
  {
    hide Slips, Spread, G, Encloses, DualOver;
    SpreadHolds(p, e, Point(x), 0.0);
    v := DualOver(p, Point(x)).value.value;
    EnclosureHolds(p, Point(x), DualOver(p, Point(x)).value);
  }

  /** An unknown sign means a residual within the blur; a residual beyond it has a known sign. */
  lemma {:induction false} SignKnown(p: Problem, e: Slip, x: real)
    requires p.Valid() && Slips(p.rounding, e) && Spread(p, e, 0.0).Some? && p.spec.lower <= x <= p.spec.upper
    ensures SignOf(p, x).Some? && -1 <= SignOf(p, x).value <= 1
    ensures SignOf(p, x) == Some(0) ==> Abs(G(p, x)) <= Spread(p, e, 0.0).value
    ensures SignOf(p, x) != Some(0) ==> HasSign(p, x, SignOf(p, x).value)
    ensures G(p, x) > Spread(p, e, 0.0).value ==> SignOf(p, x) == Some(1)
    ensures G(p, x) < -Spread(p, e, 0.0).value ==> SignOf(p, x) == Some(-1)
  {
    hide Slips, Spread, G, SignOf;
    var v := PointHolds(p, e, x);
  }

  lemma {:induction false} KnownSign(p: Problem, x: real)
    requires p.Valid() && SignOf(p, x).Some? && SignOf(p, x).value != 0
    ensures HasSign(p, x, SignOf(p, x).value) && (SignOf(p, x).value == 1 || SignOf(p, x).value == -1)
  {
    hide G, Encloses, ResidualOver;
    Enclosure(p.rounding, p.forecast, p.spec, Point(x), p.target);
    PointSign(p, x, DualOver(p, Point(x)).value);
  }

  /** Along a steep domain the residual grows, or falls, by at least the slope. */
  lemma {:induction false} SteepApart(p: Problem, b: Bounds, slope: real, x: real, y: real)
    requires p.Valid() && Steep(p, b, slope) && slope > 0.0 && b.lo <= x <= y <= b.hi
    ensures var rising := DualOver(p, b).value.derivative.lo >= slope;
            if rising then G(p, y) - G(p, x) >= Times(slope, y - x) else G(p, x) - G(p, y) >= Times(slope, y - x)
  {
    hide ResidualOver, Residual, Times, Tracks;
    var d := DualOver(p, b).value;
    Enclosure(p.rounding, p.forecast, p.spec, b, p.target);
    assert Tracks(d, G(p, x), G(p, y), y - x);
    TrackedSlopes(d, G(p, x), G(p, y), y - x);
    if d.derivative.lo >= slope {
      TimesMonotone(slope, d.derivative.lo, y - x);
    } else {
      TimesMonotone(d.derivative.hi, -slope, y - x);
      NegatedTimes(slope, y - x);
    }
  }

  lemma {:induction false} TrackedSlopes(d: Dual, u: real, v: real, h: real)
    requires Tracks(d, u, v, h)
    ensures h >= 0.0 && Times(d.derivative.lo, h) <= v - u <= Times(d.derivative.hi, h)
  {
  }

  lemma {:induction false} NegatedTimes(a: real, b: real)
    ensures Times(-a, b) == -Times(a, b)
  {
  }

  // ----- refinement cannot give up

  ghost predicate InDomain(p: Problem, b: Bounds) {
    p.spec.lower <= b.lo < b.hi <= p.spec.upper
  }

  /** A bracket inside the domain with opposite signs at its ends. */
  ghost predicate Bracketed(p: Problem, b: Bounds, c: Bounds, sign: int)
    requires p.Valid()
  {
    b.lo <= c.lo < c.hi <= b.hi && HasSign(p, c.lo, sign) && HasSign(p, c.hi, -sign)
  }

  /** A bracket of the planned width is accepted. */
  lemma {:induction false} NarrowIsDone(p: Problem, e: Slip, decade: real, plan: Plan, b: Bounds, c: Bounds, sign: int)
    requires p.Valid() && Workable(p, e, decade, plan) && InDomain(p, b) && Bracketed(p, b, c, sign) && c.hi - c.lo <= plan.width
    ensures TurnOf(p, c, sign).Done?
  {
    hide Slips, Spread, G, Encloses, DualOver, Tolerance, EightyDigits, Unit, MiddleTurn, Mid, Abs, Max;
    SpreadHolds(p, e, c, plan.width);
    var d := DualOver(p, c).value;
    EndsInside(p, c, d);
    if sign == -1 {
      AcrossZero(d.value, G(p, c.lo), G(p, c.hi), d.value.hi - d.value.lo);
    } else {
      AcrossZero(d.value, G(p, c.hi), G(p, c.lo), d.value.hi - d.value.lo);
    }
    SumNear(p.rounding, decade, c.hi - c.lo);
  }

  /** Where the sign at the midpoint of a wider bracket is unknown, the quarter points show both signs. */
  lemma {:induction false} QuartersKnown(p: Problem, e: Slip, decade: real, plan: Plan, b: Bounds, c: Bounds, mid: real, low: real, high: real, sign: int)
    requires p.Valid() && Workable(p, e, decade, plan) && InDomain(p, b) && Steep(p, b, plan.slope) && Bracketed(p, b, c, sign)
    requires c.lo < low < mid < high < c.hi && SignOf(p, mid) == Some(0)
    requires mid - low >= plan.width / 4.0 - 4.5 * Unit(decade) && high - mid >= plan.width / 4.0 - 4.5 * Unit(decade)
    ensures SignOf(p, low) == Some(sign) && SignOf(p, high) == Some(-sign)
  {
    hide Slips, Spread, G, SignOf, Tolerance, EightyDigits, Unit, Times, Steady, Steep, DualOver;
    var h := plan.width / 4.0 - 4.5 * Unit(decade);
    SteepApart(p, b, plan.slope, c.lo, c.hi);
    SteepApart(p, b, plan.slope, low, mid);
    SteepApart(p, b, plan.slope, mid, high);
    TimesMonotone(h, mid - low, plan.slope);
    TimesMonotone(h, high - mid, plan.slope);
    TimesPositive(plan.slope, c.hi - c.lo);
    SignKnown(p, e, mid);
    SignKnown(p, e, low);
    SignKnown(p, e, high);
  }

  lemma {:induction false} TimesPositive(a: real, b: real)
    requires a > 0.0 && b > 0.0
    ensures Times(a, b) > 0.0
  {
  }

  /** A wider bracket is accepted too, or narrowed to little more than a half. */
  lemma {:induction false} WideNarrows(p: Problem, e: Slip, decade: real, plan: Plan, b: Bounds, c: Bounds, sign: int)
    requires p.Valid() && Workable(p, e, decade, plan) && InDomain(p, b) && Steep(p, b, plan.slope) && Bracketed(p, b, c, sign)
    requires c.hi - c.lo > plan.width
    ensures var turn := TurnOf(p, c, sign);
            turn.Done? || (turn.Narrow? && Bracketed(p, b, turn.next, sign)
                           && turn.next.hi - turn.next.lo <= (c.hi - c.lo) / 2.0 + 6.0 * Unit(decade))
  {
    hide Slips, Spread, G, SignOf, Tolerance, EightyDigits, Unit, Steep, DualOver, Mid, Meets, Encloses, MiddleTurn, HasSign;
    SpreadHolds(p, e, c, p.spec.upper - p.spec.lower);
    TurnUnfolds(p, c, sign);
    var mid := Mid(p.rounding, c.lo, c.hi);
    HalfNear(p.rounding, decade, decade);
    WideMidpointInside(p.rounding, decade, c.lo, c.hi);
    MiddleNarrows(p, e, decade, plan, b, c, mid, sign);
  }

  lemma {:induction false} MiddleNarrows(p: Problem, e: Slip, decade: real, plan: Plan, b: Bounds, c: Bounds, mid: real, sign: int)
    requires p.Valid() && Workable(p, e, decade, plan) && InDomain(p, b) && Steep(p, b, plan.slope) && Bracketed(p, b, c, sign)
    requires c.hi - c.lo > plan.width && c.lo < mid < c.hi
    requires mid - c.lo >= (c.hi - c.lo) / 2.0 - 3.0 * Unit(decade) && c.hi - mid >= (c.hi - c.lo) / 2.0 - 3.0 * Unit(decade)
    ensures var turn := MiddleTurn(p, c, mid, sign);
            turn.Narrow? && Bracketed(p, b, turn.next, sign) && turn.next.hi - turn.next.lo <= (c.hi - c.lo) / 2.0 + 6.0 * Unit(decade)
  {
    hide Slips, Spread, G, SignOf, Tolerance, EightyDigits, Unit, Steep, DualOver, Mid, Times, HasSign;
    HalfNear(p.rounding, decade, decade);
    SignKnown(p, e, mid);
    SignsAreOne(p, c.lo, sign);
    var middle := SignOf(p, mid).value;
    if middle == 0 {
      var low, high := Mid(p.rounding, c.lo, mid), Mid(p.rounding, mid, c.hi);
      WideMidpointInside(p.rounding, decade, c.lo, mid);
      WideMidpointInside(p.rounding, decade, mid, c.hi);
      MidpointWithinThreeUnits(p.rounding, decade, c.lo, mid);
      MidpointWithinThreeUnits(p.rounding, decade, mid, c.hi);
      QuartersKnown(p, e, decade, plan, b, c, mid, low, high, sign);
      SignKnown(p, e, low);
      SignKnown(p, e, high);
    }
  }

  lemma {:induction false} SignsAreOne(p: Problem, x: real, sign: int)
    requires p.Valid() && HasSign(p, x, sign)
    ensures sign == 1 || sign == -1
  {
  }

  /** After the planned halvings the bracket is narrow enough: refinement finds a root within one iteration more. */
  lemma {:induction false} SearchSucceeds(p: Problem, e: Slip, decade: real, plan: Plan, b: Bounds, c: Bounds, sign: int, left: nat, k: nat)
    requires p.Valid() && Workable(p, e, decade, plan) && InDomain(p, b) && Steep(p, b, plan.slope) && Bracketed(p, b, c, sign)
    requires k < left && c.hi - c.lo - 12.0 * Unit(decade) <= Times(plan.width - 12.0 * Unit(decade), Pow(2.0, k))
    ensures Search(p, c, sign, left).Accepted? && Rounds(p, c, sign, left) <= k + 1
    decreases k
  {
    hide Workable, Steep, Unit, TurnOf, Search, Rounds, Bracketed, Times, InDomain;
    SearchUnfolds(p, c, sign, left);
    if c.hi - c.lo <= plan.width {
      NarrowIsDone(p, e, decade, plan, b, c, sign);
    } else {
      WideNarrows(p, e, decade, plan, b, c, sign);
      if TurnOf(p, c, sign).Narrow? {
        StillToHalve(plan.width - 12.0 * Unit(decade), c.hi - c.lo - 12.0 * Unit(decade), k);
        SearchSucceeds(p, e, decade, plan, b, TurnOf(p, c, sign).next, sign, left - 1, k - 1);
      }
    }
  }

  lemma {:induction false} StillToHalve(unit: real, w: real, k: nat)
    requires unit < w <= Times(unit, Pow(2.0, k))
    ensures k > 0 && w / 2.0 <= Times(unit, Pow(2.0, k - 1))
  {
    if k > 0 {
      var q := Pow(2.0, k - 1);
      assert Pow(2.0, k) == q * 2.0;
      assert unit * (q * 2.0) == 2.0 * (unit * q);
    }
  }

  // ----- one piece

  lemma {:induction false} RefinableIsUnique(p: Problem, e: Slip, decade: real, plan: Plan, b: Bounds)
    requires p.Valid() && Workable(p, e, decade, plan) && InDomain(p, b) && Refinable(p, decade, plan, b)
    ensures Judge(p, b).Judged? && Judge(p, b).region.disposition.UniqueRoot? && Judge(p, b).region.root.Some?
    ensures Cost(p, b) <= 4 * plan.halvings + 7
  {
    hide Slips, Spread, G, Tolerance, Steady, Unit, Steep, DualOver, Times, Search, Rounds, HasSign;
    var left, right := SignOf(p, b.lo).value, SignOf(p, b.hi).value;
    KnownSign(p, b.lo);
    KnownSign(p, b.hi);
    SearchSucceeds(p, e, decade, plan, b, b, left, p.spec.maxIterations, plan.halvings);
    SteepIsSigned(p, b, plan.slope);
    SignedByEnds(p, b, left);
    JudgeFromEnds(p, b, DualOver(p, b).value, DualOver(p, Point(b.lo)).value, DualOver(p, Point(b.hi)).value);
  }

  lemma {:induction false} SignedByEnds(p: Problem, b: Bounds, sign: int)
    requires p.Valid() && b.lo < b.hi && HasSign(p, b.lo, sign) && HasSign(p, b.hi, -sign) && DualOver(p, b).Some?
    ensures DualOver(p, b).value.value.Sign() == 0
  {
    hide G, ResidualOver, Encloses;
    Enclosure(p.rounding, p.forecast, p.spec, b, p.target);
    EndsInside(p, b, DualOver(p, b).value);
  }

  lemma {:induction false} SteepIsSigned(p: Problem, b: Bounds, slope: real)
    requires p.Valid() && b.lo < b.hi && Steep(p, b, slope) && slope > 0.0
    ensures DualOver(p, b).Some? && DualOver(p, b).value.derivative.Sign() != 0
  {
    hide G, ResidualOver, Encloses;
    Enclosure(p.rounding, p.forecast, p.spec, b, p.target);
    EnclosureOrdered(p, b, DualOver(p, b).value);
  }

  lemma {:induction false} ExcludableIsExcluded(p: Problem, b: Bounds)
    requires p.Valid() && b.lo < b.hi && Excludable(p, b)
    ensures Judge(p, b).Judged? && Judge(p, b).region.disposition.Excluded? && !Changes(p, b) && Cost(p, b) == 3
  {
    hide G, DualOver, Search, Rounds, HasSign, Judge;
    JudgeWhole(p, b);
    var d := DualOver(p, b).value;
    if d.value.Sign() != 0 {
      if Changes(p, b) {
        KnownSign(p, b.lo);
        KnownSign(p, b.hi);
        SignedByEnds(p, b, SignOf(p, b.lo).value);
        assert false;
      }
    } else {
      JudgeFromEnds(p, b, d, DualOver(p, Point(b.lo)).value, DualOver(p, Point(b.hi)).value);
    }
  }

  // ----- the run

  /** How many of the domains change sign. */
  ghost function ChangeCount(p: Problem, s: seq<Bounds>): nat
    requires p.Valid()
  {
    if s == [] then 0 else ChangeCount(p, s[..|s| - 1]) + if Changes(p, s[|s| - 1]) then 1 else 0
  }

  lemma {:induction false} PlannedCost(p: Problem, e: Slip, decade: real, plan: Plan, s: seq<Bounds>)
    requires p.Valid() && Workable(p, e, decade, plan) && Prepared(p, decade, plan, s) && forall i :: 0 <= i < |s| ==> InDomain(p, s[i])
    ensures TotalCost(p, s) <= |s| * (4 * plan.halvings + 7)
    ensures forall i :: 0 <= i < |s| ==> Judge(p, s[i]).Judged? && !Judge(p, s[i]).region.disposition.Unresolved?
  {
    hide Workable, Refinable, Excludable, Judge, Cost;
    if s != [] {
      PlannedCost(p, e, decade, plan, s[1..]);
      PlannedPiece(p, e, decade, plan, s[0]);
      assert forall i :: 0 < i < |s| ==> s[i] == s[1..][i - 1];
      CostSum(|s|, 4 * plan.halvings + 7);
    }
  }

  lemma {:induction false} CostSum(n: int, c: int)
    ensures n * c == (n - 1) * c + c
  {
  }

  lemma {:induction false} PlannedPiece(p: Problem, e: Slip, decade: real, plan: Plan, b: Bounds)
    requires p.Valid() && Workable(p, e, decade, plan) && InDomain(p, b) && (Refinable(p, decade, plan, b) || Excludable(p, b))
    ensures Judge(p, b).Judged? && !Judge(p, b).region.disposition.Unresolved? && Cost(p, b) <= 4 * plan.halvings + 7
    ensures Judge(p, b).region.disposition.UniqueRoot? <==> Changes(p, b)
    ensures Judge(p, b).region.disposition.UniqueRoot? ==> Judge(p, b).region.root.Some?
    ensures Changes(p, b) ==> b.hi - b.lo > 6.0 * Unit(decade)
  {
    hide Workable, Judge, Cost, Changes, Steep, DualOver, SignOf, Unit, Times;
    if Excludable(p, b) {
      ExcludableIsExcluded(p, b);
    } else {
      RefinableIsUnique(p, e, decade, plan, b);
      assert Changes(p, b);
    }
  }

  lemma {:induction false} PiecesInDomain(p: Problem)
    requires p.Valid()
    ensures forall i :: 0 <= i < |Pieces(InitialCuts(p))| ==> InDomain(p, Pieces(InitialCuts(p))[i])
  {
    hide InitialCuts;
    var pieces := Pieces(InitialCuts(p));
    PiecesTile(p.spec, InitialCuts(p));
    forall i | 0 <= i < |pieces|
      ensures InDomain(p, pieces[i])
    {
      ChainWithin(pieces, p.spec.lower, p.spec.upper, i);
    }
  }

  /** The plan covers every initial piece, and the budgets cover the plan. */
  ghost predicate Planned(p: Problem, e: Slip, decade: real, plan: Plan)
    requires p.Valid()
  {
    var pieces := Pieces(InitialCuts(p));
    && Workable(p, e, decade, plan) && Prepared(p, decade, plan, pieces)
    && |pieces| - 1 <= p.spec.maxSubdivisions && |pieces| * (4 * plan.halvings + 7) <= p.spec.maxEvaluations
  }

  lemma {:induction false} PlannedIsDecisive(p: Problem, e: Slip, decade: real, plan: Plan)
    requires p.Valid() && Planned(p, e, decade, plan)
    ensures Decisive(p)
  {
    hide Workable, Prepared, Judge, Pieces, InitialCuts, TotalCost;
    PiecesInDomain(p);
    PlannedCost(p, e, decade, plan, Pieces(InitialCuts(p)));
  }

  lemma {:induction false} PlannedIsSharp(p: Problem, e: Slip, decade: real, plan: Plan)
    requires p.Valid() && Workable(p, e, decade, plan)
    ensures Sharp(p, decade)
  {
    hide Slips, Spread, Tolerance, Unit, G, Steady, HasSign, ResidualOver, TurnOf, Abs, Max;
    forall b
      ensures !Blunt(p, decade, b)
    {
      if p.spec.lower <= b.lo < b.hi <= p.spec.upper && b.hi - b.lo <= 36.0 * Unit(decade) && SignChange(p, b) {
        var sign := SignChangeSign(p, b);
        NarrowIsDone(p, e, decade, plan, b, b, sign);
        TurnUnfolds(p, b, sign);
        DoneIsMet(p, b, sign);
      }
    }
  }

  lemma {:induction false} DoneIsMet(p: Problem, b: Bounds, sign: int)
    requires p.Valid() && TurnOf(p, b, sign).Done?
    ensures DualOver(p, b).Some? && Meets(p, b, DualOver(p, b).value.value)
  {
    hide DualOver, Meets, Mid, SignOf;
  }

  lemma {:induction false} SignChangeSign(p: Problem, b: Bounds) returns (sign: int)
    requires p.Valid() && SignChange(p, b)
    ensures HasSign(p, b.lo, sign) && HasSign(p, b.hi, -sign)
  {
    hide G;
    sign := if G(p, b.lo) < 0.0 then -1 else 1;
  }

  lemma {:induction false} PlannedIsCalm(p: Problem, e: Slip, decade: real, plan: Plan)
    requires p.Valid() && Planned(p, e, decade, plan)
    ensures Calm(p, decade)
  {
    hide Prepared, Computed, Slips, Sharp, Pieces, InitialCuts, Unit, Steady, SignChange;
    PlannedIsSharp(p, e, decade, plan);
    var pieces := Pieces(InitialCuts(p));
    PiecesInDomain(p);
    forall b | b in pieces && SignChange(p, b)
      ensures b.hi - b.lo > 6.0 * Unit(decade)
    {
      var i :| 0 <= i < |pieces| && pieces[i] == b;
      PreparedAt(p, decade, plan, pieces, i);
      if Excludable(p, b) {
        ExcludableKeepsSign(p, b);
      }
    }
  }

  lemma {:induction false} PreparedAt(p: Problem, decade: real, plan: Plan, s: seq<Bounds>, i: nat)
    requires p.Valid() && Prepared(p, decade, plan, s) && i < |s|
    ensures Excludable(p, s[i]) || s[i].hi - s[i].lo > 6.0 * Unit(decade)
  {
    hide Excludable, Unit, Changes, Steep, Times;
  }

  lemma {:induction false} ExcludableKeepsSign(p: Problem, b: Bounds)
    requires p.Valid() && b.lo < b.hi && Excludable(p, b)
    ensures !SignChange(p, b)
  {
    hide G, ResidualOver, Encloses;
    if DualOver(p, b).value.value.Sign() != 0 {
      Enclosure(p.rounding, p.forecast, p.spec, b, p.target);
      EndsInside(p, b, DualOver(p, b).value);
    } else {
      KnownSign(p, b.lo);
      KnownSign(p, b.hi);
    }
  }

  // ----- the answer

  lemma {:induction false} PlannedRegions(p: Problem, e: Slip, decade: real, plan: Plan, proof: seq<Region>)
    requires p.Valid() && Workable(p, e, decade, plan) && Prepared(p, decade, plan, Domains(proof))
    requires forall i :: 0 <= i < |proof| ==> AsJudged(p, proof[i]) && InDomain(p, proof[i].domain)
    ensures |RootsOf(proof)| == ChangeCount(p, Domains(proof)) && DomainsOf(Unresolved, proof) == []
  {
    hide Workable, Refinable, Excludable, Judge, Changes, InDomain;
    if proof != [] {
      var front, g := proof[..|proof| - 1], proof[|proof| - 1];
      assert Domains(proof) == Domains(front) + [g.domain];
      assert forall i :: 0 <= i < |front| ==> Domains(front)[i] == Domains(proof)[i];
      PlannedRegions(p, e, decade, plan, front);
      assert Domains(proof)[|front|] == g.domain;
      PlannedPiece(p, e, decade, plan, g.domain);
      assert Domains(proof)[..|front|] == Domains(front);
    }
  }

  /** A planned solve is conclusive: no solution, one, or several, by how many initial pieces change sign. */
  method SolveAsPlanned(p: Problem, ghost e: Slip, ghost decade: real, ghost plan: Plan) returns (s: SolveResult)
    requires p.Valid() && Planned(p, e, decade, plan)
    ensures Certificate(p, s) && s.unvisited == [] && Domains(s.proof) == Pieces(InitialCuts(p))
    ensures s.state == (match ChangeCount(p, Pieces(InitialCuts(p))) case 0 => NoSolutionInDomain case 1 => Converged case _ => NonUnique)
  {
    hide Workable, Prepared, AsJudged, Decisive, Calm, CertifiedRegion, RegionOrdered, Chain, Pieces, InitialCuts, Mid, HoldsResidual, GivenUp,
      ChangeCount, InDomain;
    PlannedIsDecisive(p, e, decade, plan);
    PlannedIsCalm(p, e, decade, plan);
    PiecesInDomain(p);
    var solver := new Solver(p);
    var result := solver.Run(decade);
    s := result.value;
    assert forall i :: 0 <= i < |s.proof| ==> s.proof[i].domain == Domains(s.proof)[i];
    PlannedRegions(p, e, decade, plan, s.proof);
    assert s.UnresolvedDomains() == [];
  }

  /** The one piece of an undivided domain is ready for the plan. */
  ghost predicate OnePlan(p: Problem, unit: real, plan: Plan)
    requires p.Valid()
  {
    var domain := Bounds(p.spec.lower, p.spec.upper);
    && Pieces(InitialCuts(p)) == [domain] && Changes(p, domain) && Steep(p, domain, plan.slope) && p.spec.upper - p.spec.lower > 6.0 * unit
    && p.spec.upper - p.spec.lower - 12.0 * unit <= Times(plan.width - 12.0 * unit, Pow(2.0, plan.halvings))
    && 4 * plan.halvings + 7 <= p.spec.maxEvaluations
  }

  /** In the code's own context: an undivided domain with known opposite end signs, a slope, tolerances the digits
      can meet, and budgets for the halvings is answered with one interval, which holds every zero. */
  method ConvergesInContext(p: Problem, ghost m: int, ghost plan: Plan) returns (s: SolveResult)
    requires p.Valid() && p.rounding == C.Context() && C.EMIN < m < C.EMAX
    requires -Ten(m) <= p.spec.lower && p.spec.upper <= Ten(m)
    requires Computed(p, ContextSlip(), Ten(m - 80), plan) && OnePlan(p, Ten(m - 80), plan)
    ensures Certificate(p, s) && s.state == Converged
    ensures s.interval.Some? && forall x :: p.spec.lower <= x <= p.spec.upper && G(p, x) == 0.0 ==> s.interval.value.Contains(x)
  {
    hide Certificate, Ten, Unit, ContextSlip, C.Context, EightyDigits, Slips, Spread, Changes, Steep, Tolerance, Times, G, Sharp, InitialCuts, Calm,
      Pieces;
    C.ContextHasEightyDigits(m);
    C.UnitOfTen(m);
    ContextSlips();
    ghost var domain := Bounds(p.spec.lower, p.spec.upper);
    assert Prepared(p, Ten(m), plan, [domain]);
    OneChange(p, domain);
    s := SolveAsPlanned(p, ContextSlip(), Ten(m), plan);
    ConvergedHasInterval(p, s);
    PlannedIsSharp(p, ContextSlip(), Ten(m), plan);
    forall x | p.spec.lower <= x <= p.spec.upper && G(p, x) == 0.0
      ensures s.interval.value.Contains(x)
    {
      SharpConvergedHoldsZero(p, s, Ten(m), x);
    }
  }

  lemma {:induction false} OneChange(p: Problem, b: Bounds)
    requires p.Valid() && Changes(p, b)
    ensures ChangeCount(p, [b]) == 1
  {
    hide Changes;
    assert [b][..0] == [];
  }

  lemma {:induction false} ConvergedHasInterval(p: Problem, s: SolveResult)
    requires p.Valid() && Certificate(p, s) && s.state.Converged?
    ensures s.interval.Some?
  {
  }
}
