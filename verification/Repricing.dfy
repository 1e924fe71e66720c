/**
 From a quoted price to the implied parameter and back (packages/core/valuation_payload.py,
 the arithmetic of bridge, and calculate_scenario).
 */
module Repricing {
  import opened Common
  import opened Intervals
  import opened Forecasts
  import opened Residuals
  import opened Certificates
  import opened Solving
  import C = Contexts
  import T = Powers
  import D = Decimals

  datatype ClaimKind = Cash | NonoperatingAssets | Debt | Leases | Preferred | Nci | Other

  datatype Claim = Claim(kind: ClaimKind, amount: real) {
    /** What the claim adds to the value of the common shares. */
    function Signed(): real {
      if kind.Cash? || kind.NonoperatingAssets? then amount else -amount
    }
  }

  datatype Bridge =
    | Ineligible
    | Eligible(market: real, adjustment: real, target: real, shares: real)

  /** The running sum over the claims, rounded after every addition. */
  function RoundedTotal(r: Rounding, claims: seq<Claim>): real {
    if claims == [] then 0.0 else r.near(RoundedTotal(r, claims[..|claims| - 1]) + claims[|claims| - 1].Signed())
  }

  function ExactTotal(claims: seq<Claim>): real {
    if claims == [] then 0.0 else ExactTotal(claims[..|claims| - 1]) + claims[|claims| - 1].Signed()
  }

  /** What the claims of one kind add up to. */
  function TotalOf(claims: seq<Claim>, kind: ClaimKind): real {
    if claims == [] then 0.0 else
      TotalOf(claims[..|claims| - 1], kind) + (if claims[|claims| - 1].kind == kind then claims[|claims| - 1].amount else 0.0)
  }

  /** The adjustment adds cash and nonoperating assets and takes off every other claim. */
  lemma {:induction false} AdjustmentByKind(claims: seq<Claim>)
    ensures ExactTotal(claims)
         == TotalOf(claims, Cash) + TotalOf(claims, NonoperatingAssets)
            - TotalOf(claims, Debt) - TotalOf(claims, Leases) - TotalOf(claims, Preferred) - TotalOf(claims, Nci) - TotalOf(claims, Other)
  {
    if claims != [] {
      AdjustmentByKind(claims[..|claims| - 1]);
    }
  }

  /** With exact arithmetic the target is what the market pays for the shares, less the cash and other assets
      it gets with them, plus every senior claim it takes over. */
  lemma {:induction false} TargetByKind(price: real, shares: real, claims: seq<Claim>, b: Bridge)
    requires b.Eligible? && b.target == Times(price, shares) - ExactTotal(claims)
    ensures b.target == Times(price, shares) - TotalOf(claims, Cash) - TotalOf(claims, NonoperatingAssets)
            + TotalOf(claims, Debt) + TotalOf(claims, Leases) + TotalOf(claims, Preferred) + TotalOf(claims, Nci) + TotalOf(claims, Other)
  {
    AdjustmentByKind(claims);
  }

  /** The eligible branch of bridge(); the evidence gate itself is an input. */
  method BuildBridge(r: Rounding, gate: bool, price: real, shares: real, claims: seq<Claim>) returns (b: Bridge)
    requires gate ==> price > 0.0 && shares > 0.0
    ensures b.Eligible? <==> gate
    ensures b.Eligible? ==> b.shares == shares && b.adjustment == RoundedTotal(r, claims)
    ensures b.Eligible? && (forall x :: r.near(x) == x) ==>
              && b.market == Times(price, shares)
              && b.adjustment == TotalOf(claims, Cash) + TotalOf(claims, NonoperatingAssets)
                 - TotalOf(claims, Debt) - TotalOf(claims, Leases) - TotalOf(claims, Preferred) - TotalOf(claims, Nci) - TotalOf(claims, Other)
              && b.target == b.market - b.adjustment
    ensures b.Eligible? ==> b.market == r.near(Times(price, shares)) && b.target == r.near(b.market - b.adjustment)
  {
    if !gate {
      return Ineligible;
    }
    var adjustment := 0.0;
    for i := 0 to |claims|
      invariant adjustment == RoundedTotal(r, claims[..i])
      invariant (forall x :: r.near(x) == x) ==> adjustment == ExactTotal(claims[..i])
    {
      assert claims[..i + 1][..i] == claims[..i];
      adjustment := r.near(adjustment + claims[i].Signed());
    }
    assert claims[..|claims|] == claims;
    AdjustmentByKind(claims);
    var market := r.near(Times(price, shares));
    b := Eligible(market, adjustment, r.near(market - adjustment), shares);
  }

  datatype ScenarioResult =
    | Unavailable
    | Solved(solve: SolveResult, evaluation: Option<Evaluation>, equity: Option<real>, perShare: Option<real>)

  /** How far the rounded target is from the exact enterprise value the market pays. */
  function Slack(price: real, b: Bridge): real
    requires b.Eligible?
  {
    Abs(b.target - (Times(price, b.shares) - b.adjustment))
  }

  /** The problem that a scenario hands to the solver; `base` fills the solved slot arbitrarily. */
  function ScenarioProblem(r: Rounding, base: Forecast, s: SolveSpec, b: Bridge): Problem
    requires Solvable(base, s) && b.Eligible?
  {
    Problem(r, Resolve(base, s, s.lower), s, b.target)
  }

  lemma {:induction false} ScenarioProblemValid(r: Rounding, base: Forecast, s: SolveSpec, b: Bridge)
    requires Solvable(base, s) && b.Eligible? && Outward(r)
    ensures ScenarioProblem(r, base, s, b).Valid()
  {
    ResolveValid(base, s, s.lower);
  }

  /** Repricing round trip: valuing the implied forecast returns the quoted price within tolerance. */
  lemma {:induction false} RoundTrip(r: Rounding, base: Forecast, s: SolveSpec, b: Bridge, price: real, solved: SolveResult, x: real)
    requires Outward(r) && Solvable(base, s) && b.Eligible? && b.shares > 0.0
    requires ScenarioProblem(r, base, s, b).Valid() && Certificate(ScenarioProblem(r, base, s, b), solved)
    requires solved.state.Converged? && solved.representative == Some(x)
    ensures Abs(OperatingValue(Resolve(base, s, x)) + b.adjustment - Times(price, b.shares))
            <= Tolerance(ScenarioProblem(r, base, s, b)) + Slack(price, b)
    ensures Abs(Over(OperatingValue(Resolve(base, s, x)) + b.adjustment, b.shares) - price)
            <= Over(Tolerance(ScenarioProblem(r, base, s, b)) + Slack(price, b), b.shares)
  {
    hide Encloses, OperatingValue, Chain, AllOrdered, Domains, Tolerance, RegionOrdered, Times, Over, Roomy, AllKept, HoldsResidual, Outward;
    var p := ScenarioProblem(r, base, s, b);
    var k := ConvergedRegion(p, solved);
    ResolveTwice(base, s, s.lower, x);
    assert solved.interval.value.Contains(x);
    assert G(p, x) == OperatingValue(Resolve(base, s, x)) - b.target;
    assert Abs(G(p, x)) <= Tolerance(p);
    PerShare(OperatingValue(Resolve(base, s, x)) + b.adjustment, price, b.shares, Tolerance(p) + Slack(price, b));
  }

  lemma {:induction false} PerShare(equity: real, price: real, shares: real, slack: real)
    requires shares > 0.0 && Abs(equity - Times(price, shares)) <= slack
    ensures Abs(Over(equity, shares) - price) <= Over(slack, shares)
  {
    var q, t := equity / shares, slack / shares;
    assert equity == q * shares && slack == t * shares;
    assert (q - price) * shares == equity - price * shares;
    if q - price > t {
      assert (q - price - t) * shares > 0.0;
    } else if price - q > t {
      assert (price - q - t) * shares > 0.0;
    }
  }

  // ----- operands the context carries exactly

  /** The bound on every financial input: forty digits and exponents within a hundred. */
  predicate Input(d: D.Decimal) {
    D.Digits(D.AbsInt(d.coefficient)) <= 40 && -100 <= d.exponent <= 100
  }

  lemma {:induction false} InputCarried(d: D.Decimal)
    requires Input(d)
    ensures C.Carried(T.Value(d), d.coefficient, d.exponent, 40)
  {
    hide T.Ten, Times, D.Pow10, D.Digits;
    D.PowGrows(D.Digits(D.AbsInt(d.coefficient)), 40);
  }

  /** Price times shares fits the eighty digits: the market value is not rounded. */
  lemma {:induction false} MarketIsExact(price: D.Decimal, shares: D.Decimal)
    requires Input(price) && Input(shares)
    ensures C.Carried(Times(T.Value(price), T.Value(shares)), price.coefficient * shares.coefficient, price.exponent + shares.exponent, 80)
    ensures C.Near(Times(T.Value(price), T.Value(shares))) == Times(T.Value(price), T.Value(shares))
  {
    hide C.Carried, T.Value, Times, C.Near;
    InputCarried(price);
    InputCarried(shares);
    C.CarriedProduct(T.Value(price), price.coefficient, price.exponent, T.Value(shares), shares.coefficient, shares.exponent, 40);
    C.CarriedIsExact(Times(T.Value(price), T.Value(shares)), price.coefficient * shares.coefficient, price.exponent + shares.exponent);
  }

  /** The sum of absolute units. */
  function Magnitude(units: seq<int>): nat {
    if units == [] then 0 else Magnitude(units[..|units| - 1]) + D.AbsInt(units[|units| - 1])
  }

  function TotalUnits(units: seq<int>): (t: int)
    ensures D.AbsInt(t) <= Magnitude(units)
  {
    if units == [] then 0 else TotalUnits(units[..|units| - 1]) + units[|units| - 1]
  }

  /** Claims in whole units whose magnitudes add up to at most eighty digits are summed without rounding. */
  lemma {:induction false} ClaimsAreExact(claims: seq<Claim>, units: seq<int>, e: int)
    requires |claims| == |units| && -9000 <= e <= 9000 && Magnitude(units) < D.Pow10(80)
    requires forall i :: 0 <= i < |claims| ==> claims[i].Signed() == Times(units[i] as real, T.Ten(e))
    ensures RoundedTotal(C.Context(), claims) == ExactTotal(claims) == Times(TotalUnits(units) as real, T.Ten(e))
  {
    hide T.Ten, Times, D.Pow10, C.Near, C.Carried;
    if claims == [] {
      T.Whole(T.Ten(e));
    } else {
      var n := |claims| - 1;
      ClaimsAreExact(claims[..n], units[..n], e);
      var before, last := ExactTotal(claims[..n]), claims[n].Signed();
      C.CarriedSum(before, TotalUnits(units[..n]), last, units[n], e, 80);
      C.CarriedIsExact(before + last, TotalUnits(units), e);
      CarriedValue(before + last, TotalUnits(units), e);
    }
  }

  lemma {:induction false} CarriedValue(x: real, n: int, e: int)
    requires C.Carried(x, n, e, 80)
    ensures x == Times(n as real, T.Ten(e))
  {
  }

  /** Market value in units of a lower power of ten. */
  function MarketUnits(price: D.Decimal, shares: D.Decimal, e: int): int
    requires e <= price.exponent + shares.exponent
  {
    (price.coefficient * shares.coefficient) * D.Pow10(price.exponent + shares.exponent - e)
  }

  /** Financial inputs whose market value and claims together fit eighty digits leave no slack: the target
      is the exact enterprise value the market pays. */
  lemma {:induction false} ExactBridgeHasNoSlack(price: D.Decimal, shares: D.Decimal, claims: seq<Claim>, units: seq<int>, e: int, b: Bridge)
    requires ExactBridge(price, shares, claims, units, e, b)
    ensures b.target == Times(T.Value(price), T.Value(shares)) - ExactTotal(claims)
    ensures Slack(T.Value(price), b) == 0.0
  {
    hide T.Ten, Times, D.Pow10, C.Near, T.Value, MarketUnits;
    MarketIsExact(price, shares);
    ClaimsAreExact(claims, units, e);
    MarketInUnits(price, shares, e);
    C.CarriedSum(b.market, MarketUnits(price, shares, e), b.adjustment, TotalUnits(units), e, 80);
    C.CarriedIsExact(b.market - b.adjustment, MarketUnits(price, shares, e) - TotalUnits(units), e);
  }

  lemma {:induction false} MarketInUnits(price: D.Decimal, shares: D.Decimal, e: int)
    requires Input(price) && Input(shares) && e <= price.exponent + shares.exponent
    ensures Times(T.Value(price), T.Value(shares)) == Times(MarketUnits(price, shares, e) as real, T.Ten(e))
  {
    hide T.Ten, Times, D.Pow10, T.Value;
    MarketIsExact(price, shares);
    CarriedValue(Times(T.Value(price), T.Value(shares)), price.coefficient * shares.coefficient, price.exponent + shares.exponent);
    T.TenAdds(e, price.exponent + shares.exponent - e);
    T.Regroup(price.coefficient * shares.coefficient, D.Pow10(price.exponent + shares.exponent - e), T.Ten(e));
  }

  /** A product that fits eighty digits is not rounded. */
  lemma {:induction false} ProductIsExact(a: D.Decimal, b: D.Decimal)
    requires -2000 <= a.exponent <= 2000 && -2000 <= b.exponent <= 2000 && D.AbsInt(a.coefficient * b.coefficient) < D.Pow10(80)
    ensures C.Carried(Times(T.Value(a), T.Value(b)), a.coefficient * b.coefficient, a.exponent + b.exponent, 80)
    ensures C.Near(Times(T.Value(a), T.Value(b))) == Times(T.Value(a), T.Value(b))
  {
    hide T.Ten, Times, D.Pow10, C.Near;
    T.TenSum(a.exponent, b.exponent);
    T.RegroupProduct(a.coefficient, b.coefficient, T.Ten(a.exponent), T.Ten(b.exponent));
    C.CarriedIsExact(Times(T.Value(a), T.Value(b)), a.coefficient * b.coefficient, a.exponent + b.exponent);
  }

  /** Whenever its product and sum fit eighty digits, the tolerance is the declared one, not a rounded one. */
  lemma {:induction false} ToleranceIsExact(p: Problem, relative: D.Decimal, size: D.Decimal, k: int)
    requires p.rounding == C.Context() && Settings(p, relative, size, k)
    ensures Tolerance(p) == p.spec.absoluteTolerance + Times(p.spec.relativeTolerance, Abs(p.target))
  {
    hide T.Ten, Times, D.Pow10, C.Near, T.Value, Abs, C.Carried;
    var e, n := relative.exponent + size.exponent, relative.coefficient * size.coefficient;
    var product := Times(T.Value(relative), T.Value(size));
    TargetCarried(size);
    C.CarriedIsExact(T.Value(size), size.coefficient, size.exponent);
    ProductIsExact(relative, size);
    CarriedValue(product, n, e);
    C.CarriedSum(p.spec.absoluteTolerance, k, product, n, e, 80);
    C.CarriedIsExact(p.spec.absoluteTolerance + product, k + n, e);
  }

  /** The solver's settings and the size of its target as decimals whose tolerance fits eighty digits; the
      absolute part is k units of the product's last digit. */
  ghost predicate Settings(p: Problem, relative: D.Decimal, size: D.Decimal, k: int) {
    && -2000 <= relative.exponent <= 2000 && -2000 <= size.exponent <= 2000 && D.AbsInt(size.coefficient) < D.Pow10(80)
    && p.spec.relativeTolerance == T.Value(relative) && Abs(p.target) == T.Value(size)
    && p.spec.absoluteTolerance == Times(k as real, T.Ten(relative.exponent + size.exponent))
    && D.AbsInt(k) + D.AbsInt(relative.coefficient * size.coefficient) < D.Pow10(80)
  }

  lemma {:induction false} TargetCarried(size: D.Decimal)
    requires -2000 <= size.exponent <= 2000 && D.AbsInt(size.coefficient) < D.Pow10(80)
    ensures C.Carried(T.Value(size), size.coefficient, size.exponent, 80)
  {
    hide T.Ten, Times, D.Pow10;
  }

  /** Financial inputs whose market value and claims together fit eighty digits. */
  ghost predicate ExactBridge(price: D.Decimal, shares: D.Decimal, claims: seq<Claim>, units: seq<int>, e: int, b: Bridge) {
    && Input(price) && Input(shares) && -9000 <= e <= price.exponent + shares.exponent && |claims| == |units|
    && (forall i :: 0 <= i < |claims| ==> claims[i].Signed() == Times(units[i] as real, T.Ten(e)))
    && D.AbsInt(MarketUnits(price, shares, e)) + Magnitude(units) < D.Pow10(80)
    && b.Eligible? && b.shares == T.Value(shares) && b.market == C.Near(Times(T.Value(price), T.Value(shares)))
    && b.adjustment == RoundedTotal(C.Context(), claims) && b.target == C.Near(b.market - b.adjustment)
  }

  /** Joined: for such inputs and settings, valuing the implied forecast returns the quoted price to within
      (absolute + relative * |target|) / shares, and nothing else. */
  lemma {:induction false} DeclaredRoundTrip(price: D.Decimal, shares: D.Decimal, claims: seq<Claim>, units: seq<int>, e: int, b: Bridge,
                                             base: Forecast, s: SolveSpec, relative: D.Decimal, size: D.Decimal, k: int, solved: SolveResult, x: real)
    requires ExactBridge(price, shares, claims, units, e, b) && b.shares > 0.0 && Solvable(base, s)
    requires var p := ScenarioProblem(C.Context(), base, s, b);
             p.Valid() && Settings(p, relative, size, k) && Certificate(p, solved)
    requires solved.state.Converged? && solved.representative == Some(x)
    ensures b.target == Times(T.Value(price), T.Value(shares)) - TotalOf(claims, Cash) - TotalOf(claims, NonoperatingAssets)
            + TotalOf(claims, Debt) + TotalOf(claims, Leases) + TotalOf(claims, Preferred) + TotalOf(claims, Nci) + TotalOf(claims, Other)
    ensures Abs(Over(OperatingValue(Resolve(base, s, x)) + b.adjustment, b.shares) - T.Value(price))
            <= Over(s.absoluteTolerance + Times(s.relativeTolerance, Abs(b.target)), b.shares)
  {
    hide Settings, Certificate, Solvable, OperatingValue, Tolerance, Times, Over, T.Value, C.Context, Resolve, Slack, D.Pow10, T.Ten, C.Near,
      MarketUnits, Magnitude, Input, RoundedTotal, ExactTotal, Outward, TotalOf;
    var p := ScenarioProblem(C.Context(), base, s, b);
    ExactBridgeHasNoSlack(price, shares, claims, units, e, b);
    TargetByKind(T.Value(price), T.Value(shares), claims, b);
    ToleranceIsExact(p, relative, size, k);
    RoundTrip(C.Context(), base, s, b, T.Value(price), solved, x);
  }

  ghost predicate CalmScenario(r: Rounding, base: Forecast, s: SolveSpec, b: Bridge, scale: real)
    requires Solvable(base, s) && b.Eligible?
  {
    var p := ScenarioProblem(r, base, s, b);
    p.Valid() && Calm(p, scale)
  }

  /** Where the problem is calm at the given scale, no refused record stands in the way of a result. */
  method CalculateScenario(r: Rounding, base: Forecast, s: SolveSpec, b: Bridge, ghost scale: real) returns (result: ScenarioResult)
    requires Outward(r) && (b.Eligible? ==> b.shares > 0.0)
    ensures b.Ineligible? || !Solvable(base, s) ==> result.Unavailable?
    ensures b.Eligible? && Solvable(base, s) && CalmScenario(r, base, s, b, scale) ==> result.Solved?
    ensures result.Solved? && result.evaluation.Some? ==>
              result.solve.representative.Some? && ValidForecast(Resolve(base, s, result.solve.representative.value))
    ensures result.Solved? ==> b.Eligible? && Solvable(base, s) && ScenarioProblem(r, base, s, b).Valid()
    ensures result.Solved? ==> Certificate(ScenarioProblem(r, base, s, b), result.solve)
    ensures result.Solved? ==> (result.evaluation.Some? <==> result.solve.state.Converged?)
    ensures result.Solved? ==> (result.evaluation.Some? <==> result.perShare.Some?)
    ensures result.Solved? && result.perShare.Some? ==>
              forall price :: Abs(result.perShare.value - price) <= Over(Tolerance(ScenarioProblem(r, base, s, b)) + Slack(price, b), b.shares)
  {
    hide Encloses, OperatingValue, Chain, AllOrdered, Domains, Tolerance, RegionOrdered, Times, Over, Outward, Certificate, Resolve,
      Solvable, Wide, Slack, ValidForecast, Calm;
    if b.Ineligible? || !Solvable(base, s) {
      return Unavailable;
    }
    ScenarioProblemValid(r, base, s, b);
    var solver := new Solver(ScenarioProblem(r, base, s, b));
    var solved := solver.Run(scale);
    if solved.None? {
      return Unavailable;
    }
    CertificateHeadline(solver.p, solved.value);
    if solved.value.representative.None? {
      return Solved(solved.value, None, None, None);
    }
    var x := solved.value.representative.value;
    if Calm(solver.p, scale) {
      CalmRepresentative(solver.p, solved.value, scale);
      ResolveValid(base, s, x);
    }
    if !ValidForecast(Resolve(base, s, x)) {
      return Unavailable;
    }
    var evaluation := Evaluate(Resolve(base, s, x));
    var equity := evaluation.operatingEv + b.adjustment;
    result := Solved(solved.value, Some(evaluation), Some(equity), Some(Over(equity, b.shares)));
    forall price: real
      ensures Abs(result.perShare.value - price) <= Over(Tolerance(ScenarioProblem(r, base, s, b)) + Slack(price, b), b.shares)
    {
      ResolveEvaluable(base, s, x);
      RoundTrip(r, base, s, b, price, solved.value, x);
    }
  }

  lemma {:induction false} ResolveEvaluable(base: Forecast, s: SolveSpec, x: real)
    requires Solvable(base, s)
    ensures Evaluable(Resolve(base, s, x))
  {
  }

  lemma {:induction false} CalmRepresentative(p: Problem, s: SolveResult, decade: real)
    requires p.Valid() && Certificate(p, s) && s.representative.Some? && Calm(p, decade)
    ensures p.spec.lower <= s.representative.value <= p.spec.upper
  {
    hide Encloses, G, Chain, CertifiedRegion, RegionOrdered, Steady, Sharp;
    var k := SharpIntervalInside(p, s, decade);
  }

  lemma {:induction false} CertificateHeadline(p: Problem, s: SolveResult)
    requires p.Valid() && Certificate(p, s)
    ensures s.representative.Some? <==> s.state.Converged?
  {
  }
}
