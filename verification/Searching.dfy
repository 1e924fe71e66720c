/**
 What the search of packages/core/valuation.py (Solver.refine and the body of Solver.run) decides about one
 bracket and about one domain when its budgets last: which bracket is accepted, when refinement gives up, and
 when a domain stays unresolved.
 */
module Searching {
  import opened Common
  import opened Intervals
  import opened Forecasts
  import opened Residuals
  import opened Certificates

  /** The exceptions that run() catches. */
  datatype Fault = BudgetExhausted | Arithmetic

  /** What examining one domain yields. */
  datatype Examined = Judged(region: Region, rootResidual: Bounds) | Halted(fault: Fault)

  /** How one iteration of the refinement ends. */
  datatype Turn = Done(residual: Bounds) | Narrow(next: Bounds) | Stop | Fail

  datatype Sought = Accepted(bracket: Bounds, residual: Bounds) | Stuck | Broken

  // ----- one evaluation

  ghost function DualOver(p: Problem, b: Bounds): Option<Dual>
    requires p.Valid()
  {
    ResidualOver(p.rounding, p.forecast, p.spec, b, p.target)
  }

  /** The certified sign at a point, zero when it is not known; None when the arithmetic fails. */
  ghost function SignOf(p: Problem, x: real): Option<int>
    requires p.Valid()
  {
    match DualOver(p, Point(x))
    case None => None
    case Some(d) => Some(d.value.Sign())
  }

  /** Narrow enough, and small enough throughout. */
  predicate Meets(p: Problem, b: Bounds, residual: Bounds) {
    p.rounding.near(b.hi - b.lo) <= p.spec.widthTolerance && Max(Abs(residual.lo), Abs(residual.hi)) <= Tolerance(p)
  }

  // ----- refinement

  ghost function TurnOf(p: Problem, b: Bounds, sign: int): Turn
    requires p.Valid()
  {
    var whole, mid := DualOver(p, b), Mid(p.rounding, b.lo, b.hi);
    if whole.None? then Fail
    else if Meets(p, b, whole.value.value) then Done(whole.value.value)
    else if mid == b.lo || mid == b.hi then Stop
    else MiddleTurn(p, b, mid, sign)
  }

  /** The sign at the midpoint chooses a half; if it is unknown, the quarter points must show both signs. */
  ghost function MiddleTurn(p: Problem, b: Bounds, mid: real, sign: int): Turn
    requires p.Valid()
  {
    var middle := SignOf(p, mid);
    if middle.None? then Fail
    else if middle.value != 0 then Narrow(if middle.value == sign then Bounds(mid, b.hi) else Bounds(b.lo, mid))
    else
      var low, high := Mid(p.rounding, b.lo, mid), Mid(p.rounding, mid, b.hi);
      var first, second := SignOf(p, low), SignOf(p, high);
      if first.None? || second.None? then Fail
      else if first.value == sign && second.value == -sign then Narrow(Bounds(low, high))
      else Stop
  }

  ghost function Search(p: Problem, b: Bounds, sign: int, left: nat): Sought
    requires p.Valid()
    decreases left
  {
    if left == 0 then Stuck else
      match TurnOf(p, b, sign)
      case Done(residual) => Accepted(b, residual)
      case Narrow(next) => Search(p, next, sign, left - 1)
      case Stop => Stuck
      case Fail => Broken
  }

  /** How many iterations that takes; each needs at most four evaluations. */
  ghost function Rounds(p: Problem, b: Bounds, sign: int, left: nat): nat
    requires p.Valid()
    decreases left
  {
    if left == 0 then 0 else
      var turn := TurnOf(p, b, sign);
      1 + if turn.Narrow? then Rounds(p, turn.next, sign, left - 1) else 0
  }

  lemma {:induction false} SearchUnfolds(p: Problem, b: Bounds, sign: int, left: nat)
    requires p.Valid() && left > 0
    ensures var turn := TurnOf(p, b, sign);
            && Search(p, b, sign, left) == (match turn
                                            case Done(residual) => Accepted(b, residual)
                                            case Narrow(next) => Search(p, next, sign, left - 1)
                                            case Stop => Stuck
                                            case Fail => Broken)
            && Rounds(p, b, sign, left) == 1 + if turn.Narrow? then Rounds(p, turn.next, sign, left - 1) else 0
  {
    hide TurnOf;
  }

  lemma {:induction false} TurnUnfolds(p: Problem, b: Bounds, sign: int)
    requires p.Valid()
    ensures var turn, whole, mid := TurnOf(p, b, sign), DualOver(p, b), Mid(p.rounding, b.lo, b.hi);
            if whole.None? then turn == Fail
            else if Meets(p, b, whole.value.value) then turn == Done(whole.value.value)
            else if mid == b.lo || mid == b.hi then turn == Stop
            else turn == MiddleTurn(p, b, mid, sign)
    ensures var mid := Mid(p.rounding, b.lo, b.hi);
            var turn, middle := MiddleTurn(p, b, mid, sign), SignOf(p, mid);
            && (middle.None? ==> turn == Fail)
            && (middle.Some? && middle.value != 0 ==> turn == Narrow(if middle.value == sign then Bounds(mid, b.hi) else Bounds(b.lo, mid)))
            && (middle == Some(0) ==>
                  var low, high := Mid(p.rounding, b.lo, mid), Mid(p.rounding, mid, b.hi);
                  var first, second := SignOf(p, low), SignOf(p, high);
                  turn == if first.None? || second.None? then Fail
                          else if first.value == sign && second.value == -sign then Narrow(Bounds(low, high)) else Stop)
  {
    hide DualOver, SignOf, Mid, Meets;
  }

  lemma {:induction false} SearchEnds(p: Problem, b: Bounds, sign: int)
    requires p.Valid()
    ensures Search(p, b, sign, 0).Stuck? && Rounds(p, b, sign, 0) == 0
  {
  }

  // ----- the ways out of refinement, without the loop

  /** The bracket is evaluated and meets the tolerances. */
  ghost predicate Settles(p: Problem, b: Bounds, residual: Bounds)
    requires p.Valid()
  {
    var d := DualOver(p, b);
    d.Some? && residual == d.value.value && p.rounding.near(b.hi - b.lo) <= p.spec.widthTolerance
    && -Tolerance(p) <= residual.lo <= Tolerance(p) && -Tolerance(p) <= residual.hi <= Tolerance(p)
  }

  /** The bracket is evaluated and misses a tolerance. */
  ghost predicate Misses(p: Problem, b: Bounds)
    requires p.Valid()
  {
    DualOver(p, b).Some? && !Settles(p, b, DualOver(p, b).value.value)
  }

  /** c is the half of b that keeps the change of sign, or the span of its quarter points. */
  ghost predicate Follows(p: Problem, b: Bounds, c: Bounds, sign: int)
    requires p.Valid()
  {
    var mid := Mid(p.rounding, b.lo, b.hi);
    var low, high := Mid(p.rounding, b.lo, mid), Mid(p.rounding, mid, b.hi);
    && Misses(p, b) && mid != b.lo && mid != b.hi
    && (|| (SignOf(p, mid) == Some(sign) && c == Bounds(mid, b.hi))
        || (SignOf(p, mid) == Some(-sign) && c == Bounds(b.lo, mid))
        || (SignOf(p, mid) == Some(0) && SignOf(p, low) == Some(sign) && SignOf(p, high) == Some(-sign) && c == Bounds(low, high)))
  }

  /** The midpoint is an end, or its sign is unknown and the quarter points lack the two signs. */
  ghost predicate Deadlocked(p: Problem, b: Bounds, sign: int)
    requires p.Valid()
  {
    var mid := Mid(p.rounding, b.lo, b.hi);
    var low, high := SignOf(p, Mid(p.rounding, b.lo, mid)), SignOf(p, Mid(p.rounding, mid, b.hi));
    && Misses(p, b)
    && (mid == b.lo || mid == b.hi || (SignOf(p, mid) == Some(0) && low.Some? && high.Some? && !(low.value == sign && high.value == -sign)))
  }

  ghost predicate Descent(p: Problem, path: seq<Bounds>, sign: int)
    requires p.Valid()
  {
    path != [] && forall i :: 0 <= i < |path| - 1 ==> Follows(p, path[i], path[i + 1], sign)
  }

  /** Bracket after bracket, until the iterations are used up or a bracket is deadlocked. */
  ghost predicate GivesUpAlong(p: Problem, path: seq<Bounds>, b: Bounds, sign: int, left: nat)
    requires p.Valid()
  {
    && Descent(p, path, sign) && path[0] == b
    && (|path| == left + 1 || (|path| <= left && Deadlocked(p, path[|path| - 1], sign)))
  }

  ghost predicate GivesUp(p: Problem, b: Bounds, sign: int, left: nat)
    requires p.Valid()
  {
    exists path :: GivesUpAlong(p, path, b, sign, left)
  }

  lemma {:induction false} TurnExactly(p: Problem, b: Bounds, sign: int)
    requires p.Valid() && (sign == 1 || sign == -1)
    ensures forall r :: TurnOf(p, b, sign) == Done(r) <==> Settles(p, b, r)
    ensures forall c :: TurnOf(p, b, sign) == Narrow(c) <==> Follows(p, b, c, sign)
    ensures TurnOf(p, b, sign) == Stop <==> Deadlocked(p, b, sign)
  {
    hide Tolerance, Mid, DualOver;
    SignRange(p, Mid(p.rounding, b.lo, b.hi));
  }

  lemma {:induction false} SignRange(p: Problem, x: real)
    requires p.Valid()
    ensures SignOf(p, x).Some? ==> -1 <= SignOf(p, x).value <= 1
  {
    hide DualOver;
  }

  lemma {:induction false} DescentGrows(p: Problem, b: Bounds, path: seq<Bounds>, sign: int)
    requires p.Valid() && path != []
    ensures Descent(p, [b] + path, sign) <==> Follows(p, b, path[0], sign) && Descent(p, path, sign)
  {
    hide Follows;
    var all := [b] + path;
    if Descent(p, all, sign) {
      assert Follows(p, all[0], all[1], sign);
      forall i | 0 <= i < |path| - 1
        ensures Follows(p, path[i], path[i + 1], sign)
      {
        assert Follows(p, all[i + 1], all[i + 1 + 1], sign);
      }
    }
    if Follows(p, b, path[0], sign) && Descent(p, path, sign) {
      forall i | 0 <= i < |all| - 1
        ensures Follows(p, all[i], all[i + 1], sign)
      {
        assert i > 0 ==> all[i] == path[i - 1] && all[i + 1] == path[i - 1 + 1];
      }
    }
  }

  /** Refinement gives up exactly when a descent comes to a deadlock or uses up its iterations. */
  lemma {:induction false} StuckExactly(p: Problem, b: Bounds, sign: int, left: nat)
    requires p.Valid() && (sign == 1 || sign == -1)
    ensures Search(p, b, sign, left).Stuck? <==> GivesUp(p, b, sign, left)
    decreases left
  {
    hide TurnOf, Deadlocked, Follows;
    TurnExactly(p, b, sign);
    if left == 0 {
      assert GivesUpAlong(p, [b], b, sign, left);
    } else {
      var turn := TurnOf(p, b, sign);
      if turn.Narrow? {
        StuckExactly(p, turn.next, sign, left - 1);
        OneFurther(p, b, turn.next, sign, left);
      } else {
        OnlyTheStart(p, b, sign, left);
      }
    }
  }

  lemma {:induction false} OneFurther(p: Problem, b: Bounds, c: Bounds, sign: int, left: nat)
    requires p.Valid() && (sign == 1 || sign == -1) && left > 0 && Follows(p, b, c, sign)
    ensures GivesUp(p, b, sign, left) <==> GivesUp(p, c, sign, left - 1)
  {
    hide Deadlocked, Follows, Descent, GivesUpAlong;
    if GivesUp(p, c, sign, left - 1) {
      var path :| GivesUpAlong(p, path, c, sign, left - 1);
      PathGrows(p, b, c, path, sign, left);
    }
    if GivesUp(p, b, sign, left) {
      var path :| GivesUpAlong(p, path, b, sign, left);
      PathShrinks(p, b, c, path, sign, left);
    }
  }

  lemma {:induction false} PathGrows(p: Problem, b: Bounds, c: Bounds, path: seq<Bounds>, sign: int, left: nat)
    requires p.Valid() && left > 0 && Follows(p, b, c, sign) && GivesUpAlong(p, path, c, sign, left - 1)
    ensures GivesUpAlong(p, [b] + path, b, sign, left)
  {
    hide Deadlocked, Follows, Descent;
    assert path != [] by {
      NonemptyDescent(p, path, sign);
    }
    DescentGrows(p, b, path, sign);
    assert ([b] + path)[|path|] == path[|path| - 1];
  }

  lemma {:induction false} NonemptyDescent(p: Problem, path: seq<Bounds>, sign: int)
    requires p.Valid() && Descent(p, path, sign)
    ensures path != [] && (|path| >= 2 ==> Follows(p, path[0], path[1], sign))
  {
    hide Follows;
  }

  lemma {:induction false} PathShrinks(p: Problem, b: Bounds, c: Bounds, path: seq<Bounds>, sign: int, left: nat)
    requires p.Valid() && (sign == 1 || sign == -1) && left > 0 && Follows(p, b, c, sign) && GivesUpAlong(p, path, b, sign, left)
    ensures |path| >= 2 && GivesUpAlong(p, path[1..], c, sign, left - 1)
  {
    hide Deadlocked, Follows, Descent, TurnOf;
    NonemptyDescent(p, path, sign);
    TurnExactly(p, b, sign);
    assert |path| >= 2 && path[1] == c;
    var rest := path[1..];
    assert [b] + rest == path;
    DescentGrows(p, b, rest, sign);
    assert rest[|rest| - 1] == path[|path| - 1];
  }

  lemma {:induction false} OnlyTheStart(p: Problem, b: Bounds, sign: int, left: nat)
    requires p.Valid() && (sign == 1 || sign == -1) && left > 0 && forall c :: !Follows(p, b, c, sign)
    ensures GivesUp(p, b, sign, left) <==> Deadlocked(p, b, sign)
  {
    hide Deadlocked, Follows, Descent;
    if Deadlocked(p, b, sign) {
      AloneDescends(p, b, sign);
      assert GivesUpAlong(p, [b], b, sign, left);
    }
    if GivesUp(p, b, sign, left) {
      var path :| GivesUpAlong(p, path, b, sign, left);
      NonemptyDescent(p, path, sign);
      assert |path| == 1;
    }
  }

  lemma {:induction false} AloneDescends(p: Problem, b: Bounds, sign: int)
    requires p.Valid()
    ensures Descent(p, [b], sign)
  {
  }

  // ----- one domain

  /** Evaluate, exclude, or refine the one root there must be. */
  ghost function Judge(p: Problem, b: Bounds): Examined
    requires p.Valid()
  {
    var whole := DualOver(p, b);
    if whole.None? then Halted(Arithmetic)
    else
      var d := whole.value;
      var plain := Region(b, d.value, d.derivative, Unresolved, None, None, None);
      if d.value.Sign() != 0 then Judged(plain.(disposition := Excluded), d.value)
      else if d.derivative.Sign() == 0 then Judged(plain, d.value)
      else
        var left, right := DualOver(p, Point(b.lo)), DualOver(p, Point(b.hi));
        if left.None? || right.None? then Halted(Arithmetic)
        else
          var ended := plain.(left := Some(left.value.value), right := Some(right.value.value));
          JudgeEnded(p, b, ended, left.value.value.Sign(), right.value.value.Sign())
  }

  ghost function JudgeEnded(p: Problem, b: Bounds, ended: Region, ls: int, rs: int): Examined
    requires p.Valid()
  {
    if ls != 0 && ls == rs then Judged(ended.(disposition := Excluded), ended.residual)
    else if ls == 0 || rs == 0 then Judged(ended, ended.residual)
    else
      JudgeRefined(ended, Search(p, b, ls, p.spec.maxIterations))
  }

  function JudgeRefined(ended: Region, sought: Sought): Examined {
    match sought
    case Accepted(root, residual) => Judged(ended.(disposition := UniqueRoot, root := Some(root)), residual)
    case Stuck => Judged(ended, ended.residual)
    case Broken => Halted(Arithmetic)
  }

  /** Evaluations that certainly suffice: the domain, its ends, and four an iteration. */
  ghost function Cost(p: Problem, b: Bounds): nat
    requires p.Valid()
  {
    3 + if Changes(p, b) then 4 * Rounds(p, b, SignOf(p, b.lo).value, p.spec.maxIterations) else 0
  }

  /** The ends have known and opposite signs. */
  ghost predicate Changes(p: Problem, b: Bounds)
    requires p.Valid()
  {
    var left, right := SignOf(p, b.lo), SignOf(p, b.hi);
    left.Some? && right.Some? && left.value != 0 && right.value == -left.value
  }

  lemma {:induction false} JudgeWhole(p: Problem, b: Bounds)
    requires p.Valid()
    ensures Cost(p, b) >= 3
    ensures var d := DualOver(p, b);
            && (d.None? ==> Judge(p, b) == Halted(Arithmetic))
            && (d.Some? && d.value.value.Sign() != 0 ==>
                  Judge(p, b) == Judged(Region(b, d.value.value, d.value.derivative, Excluded, None, None, None), d.value.value))
            && (d.Some? && d.value.value.Sign() == 0 && d.value.derivative.Sign() == 0 ==>
                  Judge(p, b) == Judged(Region(b, d.value.value, d.value.derivative, Unresolved, None, None, None), d.value.value))
            && (d.Some? && d.value.value.Sign() == 0 && d.value.derivative.Sign() != 0 &&
                  (DualOver(p, Point(b.lo)).None? || DualOver(p, Point(b.hi)).None?) ==>
                  Judge(p, b) == Halted(Arithmetic))
  {
    hide DualOver, Rounds, JudgeEnded;
  }

  lemma {:induction false} JudgeFromEnds(p: Problem, b: Bounds, d: Dual, left: Dual, right: Dual)
    requires p.Valid() && DualOver(p, b) == Some(d) && d.value.Sign() == 0 && d.derivative.Sign() != 0
    requires DualOver(p, Point(b.lo)) == Some(left) && DualOver(p, Point(b.hi)) == Some(right)
    ensures var ended := Region(b, d.value, d.derivative, Unresolved, Some(left.value), Some(right.value), None);
            var ls, rs := left.value.Sign(), right.value.Sign();
            && (ls != 0 && ls == rs ==> Judge(p, b) == Judged(ended.(disposition := Excluded), d.value))
            && (ls == 0 || rs == 0 ==> Judge(p, b) == Judged(ended, d.value))
            && (ls == -rs && ls != 0 ==>
                  && Judge(p, b) == JudgeRefined(ended, Search(p, b, ls, p.spec.maxIterations))
                  && Cost(p, b) == 3 + 4 * Rounds(p, b, ls, p.spec.maxIterations))
  {
    hide DualOver, Rounds, Search;
  }

  /** Why a domain stays unresolved: the residual interval holds zero and the derivative interval too, or the sign at
      an end is unknown, or a refinement between opposite signs gives up. */
  ghost predicate Undecided(p: Problem, g: Region)
    requires p.Valid()
  {
    && !(g.residual.lo > 0.0) && !(g.residual.hi < 0.0)
    && (|| (!(g.derivative.lo > 0.0) && !(g.derivative.hi < 0.0))
        || SignOf(p, g.domain.lo) == Some(0)
        || SignOf(p, g.domain.hi) == Some(0)
        || (exists sign :: sign != 0 && SignOf(p, g.domain.lo) == Some(sign) && SignOf(p, g.domain.hi) == Some(-sign)
                           && GivesUp(p, g.domain, sign, p.spec.maxIterations)))
  }

  /** A domain is left unresolved exactly for one of these reasons. */
  lemma {:induction false} UnresolvedExactly(p: Problem, b: Bounds)
    requires p.Valid() && Judge(p, b).Judged?
    ensures Judge(p, b).region.domain == b
    ensures Judge(p, b).region.disposition.Unresolved? <==> Undecided(p, Judge(p, b).region)
  {
    hide DualOver, GivesUp, Search;
    var l, r := SignOf(p, b.lo), SignOf(p, b.hi);
    SignRange(p, b.lo);
    SignRange(p, b.hi);
    if l.Some? && l.value != 0 {
      StuckExactly(p, b, l.value, p.spec.maxIterations);
    }
  }

  /** The region is what the search says of its domain. */
  ghost predicate AsJudged(p: Problem, g: Region)
    requires p.Valid()
  {
    Judge(p, g.domain).Judged? && Judge(p, g.domain).region == g
  }

  // ----- a search that needs no split

  ghost function TotalCost(p: Problem, s: seq<Bounds>): nat
    requires p.Valid()
  {
    if s == [] then 0 else Cost(p, s[0]) + TotalCost(p, s[1..])
  }

  /** Every one of these domains is excluded or has its root refined, within the evaluations there are. */
  ghost predicate AllDecided(p: Problem, s: seq<Bounds>, evaluations: nat)
    requires p.Valid()
  {
    && evaluations + TotalCost(p, s) <= p.spec.maxEvaluations
    && forall i :: 0 <= i < |s| ==> Judge(p, s[i]).Judged? && !Judge(p, s[i]).region.disposition.Unresolved?
  }

  lemma {:induction false} FirstDecided(p: Problem, s: seq<Bounds>, evaluations: nat)
    requires p.Valid() && s != [] && AllDecided(p, s, evaluations)
    ensures evaluations + Cost(p, s[0]) <= p.spec.maxEvaluations
    ensures Judge(p, s[0]).Judged? && !Judge(p, s[0]).region.disposition.Unresolved?
    ensures forall used: nat :: used <= evaluations + Cost(p, s[0]) ==> AllDecided(p, s[1..], used)
  {
    hide Cost, Judge;
  }
}
