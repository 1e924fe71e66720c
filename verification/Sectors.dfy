/**
 Sector roster accounting and histograms (packages/core/sectors.py): every distinct issuer of the
 roster is accounted for once, and every observation falls into one bin.
 */
module Sectors {
  import opened Common
  import D = Decimals

  /** The company's own ratio for the metric, as _company_metric hands it over. */
  datatype Ratio = Ratio(value: real) | Unavailable(reasons: set<string>)

  /** A company's evaluated evidence for one metric. `issues` are its input findings, `sign` the input
      whose sign is counted, `denominator` and `error` the divisor and its stated error. */
  datatype Snapshot = Snapshot(
    issuer: string,
    id: string,
    inContext: bool,
    issues: set<string>,
    sign: real,
    denominator: real,
    error: real,
    ratio: Ratio,
    cap: Option<real>)

  /** Whether the metric has a company ratio, whether it is a growth metric, whether it is totalled. */
  datatype Metric = Metric(ratio: bool, growth: bool, total: bool)

  predicate ValidMetric(m: Metric) {
    m.growth ==> m.ratio
  }

  datatype Selection = Selected(company: Snapshot) | Rejected(reasons: set<string>)

  function Matches(companies: seq<Snapshot>, issuer: string): seq<Snapshot> {
    if companies == [] then [] else
      Matches(companies[..|companies| - 1], issuer) + (if companies[|companies| - 1].issuer == issuer then [companies[|companies| - 1]] else [])
  }

  /** _companies for one issuer: exactly one story, in the roster's context, or a reason. */
  function Select(companies: seq<Snapshot>, issuer: string): Selection {
    var matches := Matches(companies, issuer);
    if matches == [] then Rejected({"company_snapshot_missing"})
    else if exists i :: 0 <= i < |matches| && matches[i] != matches[0] then Rejected({"conflicting_issuer_snapshots"})
    else if matches[0].id == "" || !matches[0].inContext then Rejected({"company_context_mismatch"})
    else Selected(matches[0])
  }

  lemma {:induction false} MatchesMembers(companies: seq<Snapshot>, issuer: string, c: Snapshot)
    ensures c in Matches(companies, issuer) <==> c in companies && c.issuer == issuer
  {
    if companies != [] {
      MatchesMembers(companies[..|companies| - 1], issuer, c);
      assert companies == companies[..|companies| - 1] + [companies[|companies| - 1]];
    }
  }

  /** The order and the exact repetition of snapshots do not matter to any issuer's selection. */
  lemma {:induction false} SelectOfSet(companies: seq<Snapshot>, other: seq<Snapshot>, issuer: string)
    requires forall c :: c in companies <==> c in other
    ensures Select(companies, issuer) == Select(other, issuer)
  {
    var a, b := Matches(companies, issuer), Matches(other, issuer);
    forall c
      ensures c in a <==> c in b
    {
      MatchesMembers(companies, issuer, c);
      MatchesMembers(other, issuer, c);
    }
    if a != [] {
      assert a[0] in a;
      assert a[0] in b;
    }
    if b != [] {
      assert b[0] in b;
      assert b[0] in a;
    }
    assert a == [] <==> b == [];
    if a != [] {
      OneStory(a, b);
      OneStory(b, a);
    }
  }

  lemma {:induction false} OneStory(a: seq<Snapshot>, b: seq<Snapshot>)
    requires a != [] && b != [] && forall c :: c in a <==> c in b
    ensures (forall i :: 0 <= i < |a| ==> a[i] == a[0]) ==> b[0] == a[0] && forall i :: 0 <= i < |b| ==> b[i] == b[0]
  {
    if forall i :: 0 <= i < |a| ==> a[i] == a[0] {
      forall i | 0 <= i < |b|
        ensures b[i] == a[0]
      {
        assert b[i] in b;
        assert b[i] in a;
      }
    }
  }

  // ----- accounting

  /** The issuer lists of the result; `distribution` holds the observed ratios. */
  datatype Groups = Groups(
    complete: set<string>,
    contributing: set<string>,
    excluded: map<string, set<string>>,
    distribution: map<string, real>,
    undistributed: map<string, set<string>>)

  datatype Signs = Signs(positive: nat, zero: nat, negative: nat, zeroDenominators: nat)

  predicate IsComplete(s: Selection) {
    s.Selected? && s.company.issues == {}
  }

  /** The company's ratio, if its denominator can carry one. */
  function Observe(c: Snapshot): Ratio {
    if c.denominator <= 0.0 then Unavailable({"company_denominator_nonpositive"})
    else if c.denominator <= c.error then Unavailable({"company_denominator_indistinguishable_from_zero"})
    else c.ratio
  }

  predicate IsObserved(m: Metric, s: Selection) {
    IsComplete(s) && m.ratio && Observe(s.company).Ratio?
  }

  /** A growth metric takes only observed companies; so does any averaged ratio. */
  predicate DoesContribute(m: Metric, s: Selection) {
    IsComplete(s) && (IsObserved(m, s) || !m.ratio || (m.total && !m.growth))
  }

  /** Why an issuer is missing from the ratios, and hence from the aggregate if it is missing there. */
  function Reasons(s: Selection): set<string> {
    match s
    case Rejected(reasons) => reasons
    case Selected(c) => if c.issues != {} then c.issues else if Observe(c).Unavailable? then Observe(c).reasons else {}
  }

  datatype Class = Positive | Zero | Negative

  function ClassOf(x: real): Class {
    if x > 0.0 then Positive else if x == 0.0 then Zero else Negative
  }

  /** A growth metric counts the sign of the observed growth, any other the sign of its input. */
  predicate Counted(m: Metric, s: Selection, c: Class) {
    && IsComplete(s)
    && if m.growth then IsObserved(m, s) && ClassOf(Observe(s.company).value) == c else ClassOf(s.company.sign) == c
  }

  predicate ZeroDenominator(m: Metric, s: Selection) {
    IsComplete(s) && m.ratio && s.company.denominator == 0.0
  }

  function CountedSet(companies: seq<Snapshot>, m: Metric, issuers: set<string>, c: Class): set<string> {
    set i | i in issuers && Counted(m, Select(companies, i), c)
  }

  function ZeroSet(companies: seq<Snapshot>, m: Metric, issuers: set<string>): set<string> {
    set i | i in issuers && ZeroDenominator(m, Select(companies, i))
  }

  /** What every list of the result says about the issuers. */
  ghost predicate Grouped(companies: seq<Snapshot>, m: Metric, issuers: set<string>, g: Groups) {
    && g.complete == (set i | i in issuers && IsComplete(Select(companies, i)))
    && g.contributing == (set i | i in issuers && DoesContribute(m, Select(companies, i)))
    && g.excluded == (map i | i in issuers && !DoesContribute(m, Select(companies, i)) :: Reasons(Select(companies, i)))
    && g.distribution == (map i | i in issuers && IsObserved(m, Select(companies, i)) :: Observe(Select(companies, i).company).value)
    && g.undistributed == (map i | i in issuers && IsUnobserved(m, Select(companies, i)) :: Reasons(Select(companies, i)))
  }

  predicate IsUnobserved(m: Metric, s: Selection) {
    !IsComplete(s) || (m.ratio && !IsObserved(m, s))
  }

  /** What every count of the result says. */
  ghost predicate Signed(companies: seq<Snapshot>, m: Metric, issuers: set<string>, n: Signs) {
    && n.positive == |CountedSet(companies, m, issuers, Positive)|
    && n.zero == |CountedSet(companies, m, issuers, Zero)|
    && n.negative == |CountedSet(companies, m, issuers, Negative)|
    && n.zeroDenominators == |ZeroSet(companies, m, issuers)|
  }

  /** The lists after one more issuer. */
  ghost predicate Joined(m: Metric, s: Selection, issuer: string, before: Groups, after: Groups) {
    && after.complete == before.complete + (if IsComplete(s) then {issuer} else {})
    && after.contributing == before.contributing + (if DoesContribute(m, s) then {issuer} else {})
    && after.excluded == (if DoesContribute(m, s) then before.excluded else before.excluded[issuer := Reasons(s)])
    && after.distribution == (if IsObserved(m, s) then before.distribution[issuer := Observe(s.company).value] else before.distribution)
    && after.undistributed == (if IsUnobserved(m, s) then before.undistributed[issuer := Reasons(s)] else before.undistributed)
  }

  /** The counts after one more issuer. */
  ghost predicate Tallied(m: Metric, s: Selection, before: Signs, after: Signs) {
    && after.positive == before.positive + (if Counted(m, s, Positive) then 1 else 0)
    && after.zero == before.zero + (if Counted(m, s, Zero) then 1 else 0)
    && after.negative == before.negative + (if Counted(m, s, Negative) then 1 else 0)
    && after.zeroDenominators == before.zeroDenominators + (if ZeroDenominator(m, s) then 1 else 0)
  }

  /** One turn of the loop of calculate_sector, with its branches. */
  method Visit(m: Metric, selection: Selection, issuer: string, groups: Groups, signs: Signs) returns (g: Groups, n: Signs)
    requires ValidMetric(m)
    ensures Joined(m, selection, issuer, groups, g) && Tallied(m, selection, signs, n)
  {
    g, n := groups, signs;
    if selection.Rejected? {
      g := g.(excluded := g.excluded[issuer := selection.reasons], undistributed := g.undistributed[issuer := selection.reasons]);
      return;
    }
    var c := selection.company;
    if c.issues != {} {
      g := g.(excluded := g.excluded[issuer := c.issues], undistributed := g.undistributed[issuer := c.issues]);
      return;
    }
    g, n := Accept(m, c, issuer, groups, signs);
  }

  /** The rest of the turn, for a company without input findings. */
  method Accept(m: Metric, c: Snapshot, issuer: string, groups: Groups, signs: Signs) returns (g: Groups, n: Signs)
    requires ValidMetric(m) && c.issues == {}
    ensures Joined(m, Selected(c), issuer, groups, g) && Tallied(m, Selected(c), signs, n)
  {
    AcceptFacts(m, c);
    hide Observe, IsComplete, IsObserved, IsUnobserved, DoesContribute, Reasons, Counted, ZeroDenominator;
    g, n := groups.(complete := groups.complete + {issuer}), signs;
    var sign := c.sign;
    var ratio := Observe(c);
    if m.ratio {
      if c.denominator == 0.0 {
        n := n.(zeroDenominators := n.zeroDenominators + 1);
      }
      if ratio.Ratio? {
        g := g.(distribution := g.distribution[issuer := ratio.value]);
      } else {
        g := g.(undistributed := g.undistributed[issuer := ratio.reasons]);
      }
      if m.growth && ratio.Unavailable? {
        g := g.(excluded := g.excluded[issuer := ratio.reasons]);
        return;
      }
      if m.growth {
        sign := ratio.value;
      }
    }
    n := OneMoreSign(n, sign);
    if !m.ratio || m.total || ratio.Ratio? {
      g := g.(contributing := g.contributing + {issuer});
    } else {
      g := g.(excluded := g.excluded[issuer := ratio.reasons]);
    }
  }

  /** What the words of the account say of a company without input findings. */
  lemma {:induction false} AcceptFacts(m: Metric, c: Snapshot)
    requires ValidMetric(m) && c.issues == {}
    ensures IsComplete(Selected(c))
    ensures IsObserved(m, Selected(c)) <==> m.ratio && Observe(c).Ratio?
    ensures IsUnobserved(m, Selected(c)) <==> m.ratio && Observe(c).Unavailable?
    ensures DoesContribute(m, Selected(c)) <==> !m.ratio || Observe(c).Ratio? || (m.total && !m.growth)
    ensures Observe(c).Unavailable? ==> Reasons(Selected(c)) == Observe(c).reasons
    ensures ZeroDenominator(m, Selected(c)) <==> m.ratio && c.denominator == 0.0
    ensures m.growth && Observe(c).Unavailable? ==> forall k :: !Counted(m, Selected(c), k)
    ensures m.growth && Observe(c).Ratio? ==> forall k :: Counted(m, Selected(c), k) <==> ClassOf(Observe(c).value) == k
    ensures !m.growth ==> forall k :: Counted(m, Selected(c), k) <==> ClassOf(c.sign) == k
  {
  }

  function OneMoreSign(n: Signs, sign: real): Signs {
    match ClassOf(sign)
    case Positive => n.(positive := n.positive + 1)
    case Zero => n.(zero := n.zero + 1)
    case Negative => n.(negative := n.negative + 1)
  }

  /** The main loop of calculate_sector over the distinct issuers, in whatever order it visits them. */
  method AccountRoster(roster: seq<string>, companies: seq<Snapshot>, m: Metric) returns (issuers: set<string>, g: Groups, n: Signs)
    requires ValidMetric(m)
    ensures issuers == (set i | i in roster)
    ensures Grouped(companies, m, issuers, g) && Signed(companies, m, issuers, n)
  {
    hide Select, Grouped, Signed, Joined, Tallied;
    issuers := set i | i in roster;
    g, n := Groups({}, {}, map[], map[], map[]), Signs(0, 0, 0, 0);
    var todo := issuers;
    NothingYet(companies, m, g, n);
    assert issuers - todo == {};
    while todo != {}
      invariant todo <= issuers && Grouped(companies, m, issuers - todo, g) && Signed(companies, m, issuers - todo, n)
    {
      var issuer :| issuer in todo;
      var groups, signs := Visit(m, Select(companies, issuer), issuer, g, n);
      OneMoreGrouped(companies, m, issuers - todo, issuer, g, groups);
      OneMoreSigned(companies, m, issuers - todo, issuer, n, signs);
      assert issuers - (todo - {issuer}) == issuers - todo + {issuer};
      g, n, todo := groups, signs, todo - {issuer};
    }
    assert issuers - todo == issuers;
  }

  lemma {:induction false} NothingYet(companies: seq<Snapshot>, m: Metric, g: Groups, n: Signs)
    requires g == Groups({}, {}, map[], map[], map[]) && n == Signs(0, 0, 0, 0)
    ensures Grouped(companies, m, {}, g) && Signed(companies, m, {}, n)
  {
    hide Select;
    forall c: Class
      ensures CountedSet(companies, m, {}, c) == {}
    {
    }
    assert ZeroSet(companies, m, {}) == {};
  }

  lemma {:induction false} OneMoreGrouped(companies: seq<Snapshot>, m: Metric, issuers: set<string>, issuer: string, before: Groups, after: Groups)
    requires Grouped(companies, m, issuers, before) && issuer !in issuers
    requires Joined(m, Select(companies, issuer), issuer, before, after)
    ensures Grouped(companies, m, issuers + {issuer}, after)
  {
    hide Select, DoesContribute, Observe, IsObserved, IsUnobserved, IsComplete, Reasons;
  }

  lemma {:induction false} OneMoreSigned(companies: seq<Snapshot>, m: Metric, issuers: set<string>, issuer: string, before: Signs, after: Signs)
    requires Signed(companies, m, issuers, before) && issuer !in issuers
    requires Tallied(m, Select(companies, issuer), before, after)
    ensures Signed(companies, m, issuers + {issuer}, after)
  {
    hide Select, Counted, ZeroDenominator, CountedSet, ZeroSet;
    OneMoreCounted(companies, m, issuers, issuer, Positive);
    OneMoreCounted(companies, m, issuers, issuer, Zero);
    OneMoreCounted(companies, m, issuers, issuer, Negative);
    OneMoreZero(companies, m, issuers, issuer);
  }

  lemma {:induction false} OneMoreCounted(companies: seq<Snapshot>, m: Metric, issuers: set<string>, issuer: string, c: Class)
    requires issuer !in issuers
    ensures |CountedSet(companies, m, issuers + {issuer}, c)|
         == |CountedSet(companies, m, issuers, c)| + (if Counted(m, Select(companies, issuer), c) then 1 else 0)
  {
    hide Select, Counted;
    assert CountedSet(companies, m, issuers + {issuer}, c)
        == CountedSet(companies, m, issuers, c) + (if Counted(m, Select(companies, issuer), c) then {issuer} else {});
  }

  lemma {:induction false} OneMoreZero(companies: seq<Snapshot>, m: Metric, issuers: set<string>, issuer: string)
    requires issuer !in issuers
    ensures |ZeroSet(companies, m, issuers + {issuer})|
         == |ZeroSet(companies, m, issuers)| + (if ZeroDenominator(m, Select(companies, issuer)) then 1 else 0)
  {
    hide Select, ZeroDenominator;
    assert ZeroSet(companies, m, issuers + {issuer})
        == ZeroSet(companies, m, issuers) + (if ZeroDenominator(m, Select(companies, issuer)) then {issuer} else {});
  }

  /** Every distinct issuer is in exactly one of contributing and excluded, v <= k <= n, and a ratio
      metric's observations and their exclusions partition the roster too. */
  lemma {:induction false} RosterConserved(companies: seq<Snapshot>, m: Metric, issuers: set<string>, g: Groups)
    requires Grouped(companies, m, issuers, g)
    ensures g.contributing + g.excluded.Keys == issuers && g.contributing !! g.excluded.Keys
    ensures |g.contributing| + |g.excluded| == |issuers|
    ensures |g.contributing| <= |g.complete| <= |issuers|
    ensures m.ratio ==> g.distribution.Keys + g.undistributed.Keys == issuers && g.distribution.Keys !! g.undistributed.Keys
  {
    GroupKeys(companies, m, issuers, g);
    assert |g.excluded| == |g.excluded.Keys|;
    Disjoint(g.contributing, g.excluded.Keys);
    SubsetCard(g.contributing, g.complete);
    SubsetCard(g.complete, issuers);
  }

  lemma {:induction false} GroupKeys(companies: seq<Snapshot>, m: Metric, issuers: set<string>, g: Groups)
    requires Grouped(companies, m, issuers, g)
    ensures g.contributing + g.excluded.Keys == issuers && g.contributing !! g.excluded.Keys
    ensures g.contributing <= g.complete <= issuers
    ensures m.ratio ==> g.distribution.Keys + g.undistributed.Keys == issuers && g.distribution.Keys !! g.undistributed.Keys
  {
    hide Select, Observe, Reasons;
  }

  /** The three sign counts total v for a growth metric and k for any other, and breadth never exceeds
      its base. */
  lemma {:induction false} SignsTotal(companies: seq<Snapshot>, m: Metric, issuers: set<string>, g: Groups, n: Signs)
    requires ValidMetric(m) && Grouped(companies, m, issuers, g) && Signed(companies, m, issuers, n)
    ensures n.positive + n.zero + n.negative == (if m.growth then |g.contributing| else |g.complete|)
    ensures m.growth || !m.ratio ==> n.positive <= |g.contributing|
  {
    var p, z, q := CountedSet(companies, m, issuers, Positive), CountedSet(companies, m, issuers, Zero), CountedSet(companies, m, issuers, Negative);
    SignSets(companies, m, issuers, g, p, z, q);
    Disjoint(p, z);
    Disjoint(p + z, q);
  }

  lemma {:induction false} SignSets(companies: seq<Snapshot>, m: Metric, issuers: set<string>, g: Groups, p: set<string>, z: set<string>, q: set<string>)
    requires ValidMetric(m) && Grouped(companies, m, issuers, g)
    requires p == CountedSet(companies, m, issuers, Positive) && z == CountedSet(companies, m, issuers, Zero) && q == CountedSet(companies, m, issuers, Negative)
    ensures p !! z && p + z !! q
    ensures p + z + q == (if m.growth then g.contributing else g.complete)
    ensures !m.ratio ==> g.contributing == g.complete
  {
    hide Select, Observe, Reasons;
  }

  lemma {:induction false} Disjoint(s: set<string>, t: set<string>)
    requires s !! t
    ensures |s + t| == |s| + |t|
  {
  }

  /** The result is a function of the set of issuers and the set of snapshots: neither order nor exact
      repetition changes any field. */
  lemma {:induction false} AccountOfSets(companies: seq<Snapshot>, other: seq<Snapshot>, m: Metric, issuers: set<string>, g: Groups, h: Groups, n: Signs, k: Signs)
    requires Grouped(companies, m, issuers, g) && Signed(companies, m, issuers, n)
    requires Grouped(other, m, issuers, h) && Signed(other, m, issuers, k)
    requires forall c :: c in companies <==> c in other
    ensures g == h && n == k
  {
    hide Select, Grouped, CountedSet, ZeroSet;
    forall i
      ensures Select(companies, i) == Select(other, i)
    {
      SelectOfSet(companies, other, i);
    }
    SameGroups(companies, other, m, issuers, g, h);
    SameSigns(companies, other, m, issuers);
  }

  lemma {:induction false} SameGroups(companies: seq<Snapshot>, other: seq<Snapshot>, m: Metric, issuers: set<string>, g: Groups, h: Groups)
    requires Grouped(companies, m, issuers, g) && Grouped(other, m, issuers, h)
    requires forall i :: Select(companies, i) == Select(other, i)
    ensures g == h
  {
    hide Select, DoesContribute, Observe, IsObserved, IsUnobserved, IsComplete, Reasons;
    assert g.complete == h.complete;
    assert g.contributing == h.contributing;
    assert g.excluded == h.excluded;
    assert g.distribution == h.distribution;
    assert g.undistributed == h.undistributed;
  }

  lemma {:induction false} SameSigns(companies: seq<Snapshot>, other: seq<Snapshot>, m: Metric, issuers: set<string>)
    requires forall i :: Select(companies, i) == Select(other, i)
    ensures forall c :: CountedSet(companies, m, issuers, c) == CountedSet(other, m, issuers, c)
    ensures ZeroSet(companies, m, issuers) == ZeroSet(other, m, issuers)
  {
    hide Select, Counted, ZeroDenominator;
  }

  // ----- capitalization coverage

  ghost predicate KeepsOrder(near: real -> real) {
    forall x, y :: x <= y ==> near(x) <= near(y)
  }

  lemma {:induction false} Keeps(near: real -> real, x: real, y: real)
    requires KeepsOrder(near) && x <= y
    ensures near(x) <= near(y)
  {
  }

  /** Shares of a whole lie between zero and one, under any rounding that keeps order and
      leaves zero and one alone. */
  lemma {:induction false} ShareInUnit(near: real -> real, part: real, whole: real)
    requires KeepsOrder(near) && near(0.0) == 0.0 && near(1.0) == 1.0
    requires 0.0 <= part <= whole && whole > 0.0
    ensures 0.0 <= near(part / whole) <= 1.0
    ensures part == whole ==> near(part / whole) == 1.0
  {
    var rest := whole - part;
    assert part / whole + rest / whole == 1.0 && rest / whole >= 0.0 && part / whole >= 0.0;
    Keeps(near, 0.0, part / whole);
    Keeps(near, part / whole, 1.0);
  }

  datatype Shares = Shares(breadth: Option<real>, coverage: Option<real>, eligibility: Option<real>)

  /** A rounded count over a count, if there is anything to divide by. */
  function Share(near: real -> real, part: nat, whole: nat): Option<real> {
    if whole == 0 then None else Some(near(part as real / whole as real))
  }

  predicate InUnit(share: Option<real>) {
    share.Some? ==> 0.0 <= share.value <= 1.0
  }

  /** The three ratios of counts: positive signs over contributors for a breadth metric, complete companies
      over issuers, and observed ratios over complete companies for a ratio metric. */
  method CountShares(near: real -> real, companies: seq<Snapshot>, m: Metric, breadth: bool, issuers: set<string>, g: Groups, n: Signs)
    returns (s: Shares)
    requires KeepsOrder(near) && near(0.0) == 0.0 && near(1.0) == 1.0
    requires ValidMetric(m) && Grouped(companies, m, issuers, g) && Signed(companies, m, issuers, n)
    requires breadth ==> m.growth || !m.ratio
    ensures s.breadth == (if breadth then Share(near, n.positive, |g.contributing|) else None)
    ensures s.coverage == Share(near, |g.complete|, |issuers|)
    ensures s.eligibility == (if m.ratio then Share(near, |g.distribution|, |g.complete|) else None)
    ensures InUnit(s.breadth) && InUnit(s.coverage) && InUnit(s.eligibility)
    ensures issuers != {} && g.complete == issuers ==> s.coverage == Some(1.0)
  {
    hide Grouped, Signed, Share, InUnit, KeepsOrder;
    RosterConserved(companies, m, issuers, g);
    SignsTotal(companies, m, issuers, g, n);
    ObservedAreComplete(companies, m, issuers, g);
    var part := if breadth then n.positive else 0;
    CountShare(near, part, |g.contributing|);
    CountShare(near, |g.complete|, |issuers|);
    CountShare(near, |g.distribution|, |g.complete|);
    NothingShared();
    s := Shares(
      if breadth then Share(near, n.positive, |g.contributing|) else None,
      Share(near, |g.complete|, |issuers|),
      if m.ratio then Share(near, |g.distribution|, |g.complete|) else None);
  }

  lemma {:induction false} CountShare(near: real -> real, part: nat, whole: nat)
    requires KeepsOrder(near) && near(0.0) == 0.0 && near(1.0) == 1.0 && part <= whole
    ensures InUnit(Share(near, part, whole))
    ensures part == whole && whole > 0 ==> Share(near, part, whole) == Some(1.0)
  {
    if whole > 0 {
      ShareInUnit(near, part as real, whole as real);
    }
  }

  lemma {:induction false} NothingShared()
    ensures InUnit(None)
  {
  }

  lemma {:induction false} ObservedAreComplete(companies: seq<Snapshot>, m: Metric, issuers: set<string>, g: Groups)
    requires Grouped(companies, m, issuers, g)
    ensures |g.distribution| <= |g.complete|
  {
    hide Select, Observe, Reasons;
    assert g.distribution.Keys <= g.complete;
    SubsetCard(g.distribution.Keys, g.complete);
  }

  /** An issuer's capitalization as _cap returns it: positive, or unknown. */
  function CapOf(companies: seq<Snapshot>, issuer: string): (cap: Option<real>)
    ensures cap.Some? ==> cap.value > 0.0
  {
    match Select(companies, issuer)
    case Rejected(_) => None
    case Selected(c) => if c.cap.Some? && c.cap.value > 0.0 then c.cap else None
  }

  function CapOrZero(companies: seq<Snapshot>, issuer: string): (cap: real)
    ensures cap >= 0.0
  {
    match CapOf(companies, issuer)
    case Some(x) => x
    case None => 0.0
  }

  /** The sum of the capitalizations over a set. */
  ghost function CapTotal(companies: seq<Snapshot>, issuers: set<string>): real {
    if issuers == {} then 0.0 else
      var i :| i in issuers;
      CapOrZero(companies, i) + CapTotal(companies, issuers - {i})
  }

  /** Any issuer may be taken out first. */
  lemma {:induction false} CapTakenOut(companies: seq<Snapshot>, issuers: set<string>, i: string)
    requires i in issuers
    ensures CapTotal(companies, issuers) == CapOrZero(companies, i) + CapTotal(companies, issuers - {i})
    decreases |issuers|
  {
    hide CapOrZero;
    var j :| j in issuers && CapTotal(companies, issuers) == CapOrZero(companies, j) + CapTotal(companies, issuers - {j});
    if i != j {
      CapTakenOut(companies, issuers - {j}, i);
      CapTakenOut(companies, issuers - {i}, j);
      assert issuers - {j} - {i} == issuers - {i} - {j};
    }
  }

  lemma {:induction false} CapWithin(companies: seq<Snapshot>, part: set<string>, issuers: set<string>)
    requires part <= issuers
    ensures 0.0 <= CapTotal(companies, part) <= CapTotal(companies, issuers)
    decreases |issuers|
  {
    if i :| i in issuers {
      CapTakenOut(companies, issuers, i);
      if i in part {
        CapTakenOut(companies, part, i);
      }
      assert i !in part ==> part - {i} == part;
      CapWithin(companies, part - {i}, issuers - {i});
    }
  }

  datatype Coverage = Coverage(full: real, contributing: real, share: real)

  /** The roster's capitalization, known only when every issuer's is. */
  method CapCoverage(near: real -> real, companies: seq<Snapshot>, issuers: set<string>, contributing: set<string>) returns (r: Option<Coverage>)
    requires KeepsOrder(near) && near(0.0) == 0.0 && near(1.0) == 1.0
    requires contributing <= issuers
    ensures r.Some? <==> issuers != {} && forall i :: i in issuers ==> CapOf(companies, i).Some?
    ensures r.Some? ==>
      && r.value.full == CapTotal(companies, issuers) > 0.0
      && r.value.contributing == CapTotal(companies, contributing) <= r.value.full
      && r.value.share == near(CapTotal(companies, contributing) / CapTotal(companies, issuers))
      && 0.0 <= r.value.share <= 1.0
      && (contributing == issuers ==> r.value.share == 1.0)
  {
    hide CapOf, CapTotal;
    if issuers == {} {
      return None;
    }
    assert CapTotal(companies, {}) == 0.0 by { CapEmpty(companies); }
    var full, part := 0.0, 0.0;
    var todo := issuers;
    assert issuers - todo == {} && contributing - todo == {};
    while todo != {}
      invariant todo <= issuers
      invariant full == CapTotal(companies, issuers - todo) >= 0.0 && part == CapTotal(companies, contributing - todo)
      invariant issuers != todo ==> full > 0.0
      invariant forall i :: i in issuers - todo ==> CapOf(companies, i).Some?
    {
      var i :| i in todo;
      var cap := CapOf(companies, i);
      if cap.None? {
        return None;
      }
      var rest := todo - {i};
      assert issuers - rest - {i} == issuers - todo;
      CapTakenOut(companies, issuers - rest, i);
      full := full + cap.value;
      if i in contributing {
        assert contributing - rest - {i} == contributing - todo;
        CapTakenOut(companies, contributing - rest, i);
        part := part + cap.value;
      } else {
        assert contributing - rest == contributing - todo;
      }
      todo := rest;
    }
    assert issuers - todo == issuers && contributing - todo == contributing;
    CapWithin(companies, contributing, issuers);
    ShareInUnit(near, part, full);
    r := Some(Coverage(full, part, near(part / full)));
  }

  lemma {:induction false} CapEmpty(companies: seq<Snapshot>)
    ensures CapTotal(companies, {}) == 0.0
  {
  }

  // ----- histogram

  datatype Observation = Observation(issuer: string, snapshot: string, hash: string, value: D.Decimal)

  datatype Bin = Bin(lower: real, upper: real, count: nat, members: set<string>, upperInclusive: bool)

  /** What boundary arithmetic needs from its rounding: it keeps order, and the two ends, their
      distance and its multiples are carried exactly. */
  ghost predicate CarriesEnds(near: real -> real, lo: real, hi: real, bins: nat) {
    && KeepsOrder(near)
    && near(lo) == lo && near(hi) == hi && near(hi - lo) == hi - lo && near(0.0) == 0.0
    && CarriesMultiples(near, hi - lo, bins)
  }

  ghost predicate CarriesMultiples(near: real -> real, span: real, bins: nat) {
    forall i: nat :: i <= bins ==> CarriesMultiple(near, span, i)
  }

  ghost predicate CarriesMultiple(near: real -> real, span: real, i: nat) {
    near(Times(span, i as real)) == Times(span, i as real)
  }

  /** Rounding to a number of digits, on values in units of a fixed power of ten: it keeps order and
      leaves alone every whole number of units that fits. */
  ghost predicate RoundsTo(near: real -> real, precision: nat) {
    && KeepsOrder(near)
    && (forall n: int :: D.Representable(n, precision) ==> near(n as real) == n as real)
  }

  /** The digits histogram asks for. */
  function HistogramPrecision(low: D.Decimal, high: D.Decimal): nat {
    D.MaxInt(50, D.MaxInt(D.Adjusted(low), D.Adjusted(high)) - MinInt(low.exponent, high.exponent) + 10)
  }

  /** That precision carries the ends, the span and its first hundred multiples exactly. */
  lemma {:induction false} PrecisionCarriesEnds(near: real -> real, low: D.Decimal, high: D.Decimal, unit: int, bins: nat)
    requires RoundsTo(near, HistogramPrecision(low, high)) && unit <= low.exponent && unit <= high.exponent && bins <= 100
    ensures CarriesEnds(near, D.Units(low, unit) as real, D.Units(high, unit) as real, bins)
  {
    hide D.Units, D.Adjusted, D.Pow10, D.Representable, HistogramPrecision;
    var lo, hi, p := D.Units(low, unit), D.Units(high, unit), HistogramPrecision(low, high);
    SpanFits(low, high, unit, 1, 0);
    SpanFits(low, high, unit, 0, 1);
    SpanFits(low, high, unit, -1, 1);
    SpanFits(low, high, unit, 0, 0);
    assert near((hi - lo) as real) == (hi - lo) as real;
    assert Mixed(lo, hi, -1, 1) == hi - lo && Mixed(lo, hi, 1, 0) == lo && Mixed(lo, hi, 0, 1) == hi && Mixed(lo, hi, 0, 0) == 0;
    assert near(0 as real) == 0 as real;
    var span := hi as real - lo as real;
    forall i: nat | i <= bins
      ensures CarriesMultiple(near, span, i)
    {
      var minus: int := 0 - i;
      SpanFits(low, high, unit, minus, i);
      assert Mixed(lo, hi, minus, i) == (hi - lo) * i;
      assert ((hi - lo) * i) as real == Times(span, i as real);
    }
  }

  lemma {:induction false} SpanFits(low: D.Decimal, high: D.Decimal, unit: int, a: int, b: int)
    requires unit <= low.exponent && unit <= high.exponent && -100 <= a <= 100 && -100 <= b <= 100
    ensures D.Representable(Mixed(D.Units(low, unit), D.Units(high, unit), a, b), HistogramPrecision(low, high))
  {
    hide D.Adjusted, D.Representable, D.Units, D.Pow10, Mixed;
    var m, top := MinInt(low.exponent, high.exponent), D.MaxInt(D.Adjusted(low), D.Adjusted(high));
    D.UnitsBelow(low, m, top);
    D.UnitsBelow(high, m, top);
    var x, y := D.Units(low, m), D.Units(high, m);
    HundredFold(x, y, a, b, D.Pow10(top + 1 - m));
    var n := Mixed(x, y, a, b);
    FitsTen(n, top, m);
    Coarser(low, m, unit);
    Coarser(high, m, unit);
    MixedScales(x, y, a, b, D.Pow10(m - unit));
    Shifted(n, m - unit, HistogramPrecision(low, high));
  }

  function Mixed(x: int, y: int, a: int, b: int): int {
    a * x + b * y
  }

  lemma {:induction false} MixedScales(x: int, y: int, a: int, b: int, scale: nat)
    ensures Mixed(x * scale, y * scale, a, b) == Mixed(x, y, a, b) * scale
  {
    assert a * (x * scale) == (a * x) * scale && b * (y * scale) == (b * y) * scale;
  }

  lemma {:induction false} HundredFold(x: int, y: int, a: int, b: int, p: nat)
    requires D.AbsInt(x) < p && D.AbsInt(y) < p && -100 <= a <= 100 && -100 <= b <= 100
    ensures D.AbsInt(Mixed(x, y, a, b)) <= 200 * p
  {
    Fold(x, a, p);
    Fold(y, b, p);
  }

  lemma {:induction false} Fold(x: int, a: int, p: nat)
    requires D.AbsInt(x) < p && -100 <= a <= 100
    ensures -100 * p <= a * x <= 100 * p
  {
    FoldUp(if x >= 0 then x else -x, a, p);
    assert a * (-x) == -(a * x);
  }

  lemma {:induction false} FoldUp(x: nat, a: int, p: nat)
    requires x < p && -100 <= a <= 100
    ensures -100 * p <= a * x <= 100 * p
  {
    Grows(a, 100, x);
    Grows(-100, a, x);
  }

  lemma {:induction false} Grows(a: int, b: int, x: nat)
    requires a <= b
    ensures a * x <= b * x
  {
    assert b * x == a * x + (b - a) * x;
  }

  lemma {:induction false} FitsTen(n: int, top: int, m: int)
    requires m <= top && D.AbsInt(n) <= 200 * D.Pow10(top + 1 - m)
    ensures forall p: nat :: p >= top - m + 10 ==> D.Representable(n, p)
  {
    var k := (top + 1 - m) as nat;
    D.PowThree();
    D.PowAdds(k, 3);
    hide D.Pow10, D.Representable;
    forall p: nat | p >= top - m + 10
      ensures D.Representable(n, p)
    {
      D.PowGrows(k + 3, p);
      D.SmallIsRepresentable(n, p);
    }
  }

  lemma {:induction false} Coarser(d: D.Decimal, m: int, unit: int)
    requires unit <= m <= d.exponent
    ensures D.Units(d, unit) == D.Units(d, m) * D.Pow10(m - unit)
  {
    hide D.Pow10;
    D.PowAdds(d.exponent - m, m - unit);
    var p, q := D.Pow10(d.exponent - m), D.Pow10(m - unit);
    assert d.coefficient * (p * q) == (d.coefficient * p) * q;
  }

  lemma {:induction false} Shifted(n: int, k: nat, precision: nat)
    requires D.Representable(n, precision)
    ensures D.Representable(n * D.Pow10(k), precision)
  {
    hide D.Pow10;
    var c: int, j: nat :| n == c * D.Pow10(j) && D.AbsInt(c) < D.Pow10(precision);
    D.PowAdds(j, k);
    var p, q := D.Pow10(j), D.Pow10(k);
    assert (c * p) * q == c * (p * q);
  }

  function Boundary(near: real -> real, lo: real, hi: real, bins: nat, i: nat): real
    requires bins > 0
  {
    if i >= bins then hi else near(lo + near(Over(near(Times(near(hi - lo), i as real)), bins as real)))
  }

  function Boundaries(near: real -> real, lo: real, hi: real, bins: nat): (b: seq<real>)
    requires bins > 0
    ensures |b| == bins + 1 && forall i :: 0 <= i <= bins ==> b[i] == Boundary(near, lo, hi, bins, i)
  {
    seq(bins + 1, i requires 0 <= i <= bins => Boundary(near, lo, hi, bins, i))
  }

  lemma {:induction false} WholeSpan(w: real, n: real)
    requires n > 0.0
    ensures Over(Times(w, n), n) == w && Times(w, 0.0) == 0.0 && Over(0.0, n) == 0.0
  {
  }

  /** The rounded offset of boundary i from the minimum. */
  function Offset(near: real -> real, w: real, bins: nat, i: nat): real
    requires bins > 0
  {
    near(Over(Times(w, i as real), bins as real))
  }

  lemma {:induction false} OffsetsClimb(near: real -> real, w: real, bins: nat, i: nat, j: nat)
    requires KeepsOrder(near) && near(w) == w && near(0.0) == 0.0
    requires w >= 0.0 && i <= j <= bins && bins > 0
    ensures Offset(near, w, bins, i) <= Offset(near, w, bins, j) <= w && Offset(near, w, bins, 0) == 0.0
  {
    var x, y, n := i as real, j as real, bins as real;
    TimesMonotone(x, y, w);
    TimesMonotone(y, n, w);
    WholeSpan(w, n);
    hide Times, Over, KeepsOrder;
    OverMonotone(Times(w, x), Times(w, y), n);
    OverMonotone(Times(w, y), Times(w, n), n);
    Keeps(near, Over(Times(w, x), n), Over(Times(w, y), n));
    Keeps(near, Over(Times(w, y), n), w);
  }

  lemma {:induction false} BoundaryIsOffset(near: real -> real, lo: real, hi: real, bins: nat, i: nat)
    requires CarriesEnds(near, lo, hi, bins) && 0 < bins && i < bins
    ensures Boundary(near, lo, hi, bins, i) == near(lo + Offset(near, hi - lo, bins, i))
  {
    hide Times, Over, KeepsOrder;
    assert CarriesMultiple(near, hi - lo, i);
  }

  /** Rounded boundaries still run from the exact minimum to the exact maximum without ever stepping back. */
  lemma {:induction false} BoundariesOrdered(near: real -> real, lo: real, hi: real, bins: nat, i: nat, j: nat)
    requires CarriesEnds(near, lo, hi, bins) && lo <= hi && 0 < bins && i <= j <= bins
    ensures Boundary(near, lo, hi, bins, i) <= Boundary(near, lo, hi, bins, j) <= hi
    ensures Boundary(near, lo, hi, bins, 0) == lo && Boundary(near, lo, hi, bins, bins) == hi
  {
    hide Offset, CarriesMultiples, Times, Over, KeepsOrder;
    var w := hi - lo;
    OffsetsClimb(near, w, bins, i, j);
    BoundaryIsOffset(near, lo, hi, bins, 0);
    if i < bins {
      BoundaryIsOffset(near, lo, hi, bins, i);
      Keeps(near, lo + Offset(near, w, bins, i), hi);
    }
    if j < bins {
      BoundaryIsOffset(near, lo, hi, bins, j);
      Keeps(near, lo + Offset(near, w, bins, i), lo + Offset(near, w, bins, j));
      Keeps(near, lo + Offset(near, w, bins, j), hi);
    }
  }

  /** bisect_right: the number of boundaries at or below the value. */
  method BisectRight(b: seq<real>, x: real) returns (k: nat)
    requires forall i, j :: 0 <= i <= j < |b| ==> b[i] <= b[j]
    ensures k <= |b| && (forall i :: 0 <= i < k ==> b[i] <= x) && (forall i :: k <= i < |b| ==> x < b[i])
  {
    var low, high := 0, |b|;
    while low < high
      invariant 0 <= low <= high <= |b|
      invariant (forall i :: 0 <= i < low ==> b[i] <= x) && (forall i :: high <= i < |b| ==> x < b[i])
    {
      var mid := (low + high) / 2;
      if x < b[mid] {
        high := mid;
      } else {
        low := mid + 1;
      }
    }
    k := low;
  }

  /** Left-closed, and the last bin closed on both sides. */
  predicate Inside(b: seq<real>, i: nat, x: real)
    requires i + 1 < |b|
  {
    b[i] <= x && (x < b[i + 1] || (i + 2 == |b| && x <= b[i + 1]))
  }

  /** No value is in two bins. */
  lemma {:induction false} OneBin(b: seq<real>, i: nat, j: nat, x: real)
    requires (forall i, j :: 0 <= i <= j < |b| ==> b[i] <= b[j]) && i < j && j + 1 < |b| && Inside(b, i, x)
    ensures !Inside(b, j, x)
  {
    assert b[i + 1] <= b[j];
  }

  function Unit(observations: seq<Observation>): (u: int)
    ensures forall i :: 0 <= i < |observations| ==> u <= observations[i].value.exponent
  {
    if observations == [] then 0 else MinInt(Unit(observations[..|observations| - 1]), observations[|observations| - 1].value.exponent)
  }

  /** The observed value in units of the finest exponent among the observations. */
  function ValueIn(o: Observation, unit: int): real
    requires unit <= o.value.exponent
  {
    D.Units(o.value, unit) as real
  }

  predicate Evidenced(observations: seq<Observation>) {
    && (forall i :: 0 <= i < |observations| ==>
        && D.InRange(observations[i].value)
        && observations[i].issuer != "" && observations[i].snapshot != "" && observations[i].hash != "")
    && (forall i, j :: 0 <= i < j < |observations| ==> observations[i].issuer != observations[j].issuer)
  }

  function Total(bins: seq<Bin>): nat {
    if bins == [] then 0 else Total(bins[..|bins| - 1]) + bins[|bins| - 1].count
  }

  /** The bins partition the observations: contiguous, ordered, from the exact minimum to the exact
      maximum, each holding exactly the issuers whose value lies in it. */
  ghost predicate Partitions(observations: seq<Observation>, unit: int, bins: seq<Bin>)
    requires forall i :: 0 <= i < |observations| ==> unit <= observations[i].value.exponent
  {
    && bins != []
    && (exists i :: 0 <= i < |observations| && ValueIn(observations[i], unit) == bins[0].lower)
    && (exists i :: 0 <= i < |observations| && ValueIn(observations[i], unit) == bins[|bins| - 1].upper)
    && (forall i :: 0 <= i < |observations| ==> bins[0].lower <= ValueIn(observations[i], unit) <= bins[|bins| - 1].upper)
    && (forall k :: 0 <= k < |bins| ==> bins[k].lower <= bins[k].upper && bins[k].count == |bins[k].members| && bins[k].upperInclusive == (k == |bins| - 1))
    && (forall k :: 0 < k < |bins| ==> bins[k - 1].upper == bins[k].lower)
    && (forall i, k :: 0 <= i < |observations| && 0 <= k < |bins| ==> (observations[i].issuer in bins[k].members <==> Covers(bins[k], ValueIn(observations[i], unit))))
    && (forall k, x :: 0 <= k < |bins| && x in bins[k].members ==> exists i :: 0 <= i < |observations| && observations[i].issuer == x)
    && Total(bins) == |observations|
  }

  predicate Covers(bin: Bin, x: real) {
    bin.lower <= x && (x < bin.upper || (bin.upperInclusive && x == bin.upper))
  }

  /** Every observation is in one bin and in no other. */
  lemma {:induction false} InExactlyOneBin(observations: seq<Observation>, unit: int, bins: seq<Bin>, i: nat)
    requires forall i :: 0 <= i < |observations| ==> unit <= observations[i].value.exponent
    requires Partitions(observations, unit, bins) && i < |observations|
    ensures exists k :: 0 <= k < |bins| && observations[i].issuer in bins[k].members
    ensures forall j, k :: 0 <= j < k < |bins| && observations[i].issuer in bins[j].members ==> observations[i].issuer !in bins[k].members
  {
    hide ValueIn, Total;
    var x := ValueIn(observations[i], unit);
    var k := FindBin(bins, x, |bins| - 1);
    assert Covers(bins[k], x);
    forall j, k | 0 <= j < k < |bins| && observations[i].issuer in bins[j].members
      ensures observations[i].issuer !in bins[k].members
    {
      BinsClimb(bins, j, k);
    }
  }

  lemma {:induction false} BinsClimb(bins: seq<Bin>, j: nat, k: nat)
    requires forall k :: 0 <= k < |bins| ==> bins[k].lower <= bins[k].upper
    requires forall k :: 0 < k < |bins| ==> bins[k - 1].upper == bins[k].lower
    requires j < k < |bins|
    ensures bins[j].upper <= bins[k].lower
    decreases k
  {
    if j < k - 1 {
      BinsClimb(bins, j, k - 1);
    }
  }

  /** Walking down from a bin whose end is at or above the value. */
  function FindBin(bins: seq<Bin>, x: real, n: nat): (k: nat)
    requires n < |bins| && bins[0].lower <= x
    requires forall k :: 0 < k < |bins| ==> bins[k - 1].upper == bins[k].lower
    requires x < bins[n].upper || (n == |bins| - 1 && x == bins[n].upper)
    requires forall k :: 0 <= k < |bins| ==> bins[k].upperInclusive == (k == |bins| - 1)
    ensures k <= n && Covers(bins[k], x)
  {
    if bins[n].lower <= x then n else FindBin(bins, x, n - 1)
  }

  /** Assigning each observation to bisect_right's bin. */
  method Assign(observations: seq<Observation>, unit: int, b: seq<real>) returns (members: seq<set<string>>)
    requires Evidenced(observations) && forall i :: 0 <= i < |observations| ==> unit <= observations[i].value.exponent
    requires |b| >= 2 && forall i, j :: 0 <= i <= j < |b| ==> b[i] <= b[j]
    requires forall i :: 0 <= i < |observations| ==> b[0] <= ValueIn(observations[i], unit) <= b[|b| - 1]
    ensures |members| == |b| - 1 && Assigned(observations, |observations|, unit, b, members) && Sizes(members) == |observations|
  {
    hide ValueIn, Inside, Assigned, Sizes;
    members := seq(|b| - 1, _ => {});
    NoMembers(|b| - 1);
    AssignedNone(observations, unit, b, members);
    for n := 0 to |observations|
      invariant |members| == |b| - 1 && Assigned(observations, n, unit, b, members) && Sizes(members) == n
    {
      var x := ValueIn(observations[n], unit);
      var at := BisectRight(b, x);
      var k := if at - 1 < |b| - 2 then at - 1 else |b| - 2;
      AtLeastOne(b, x, at);
      BisectFinds(b, x, at, k);
      NotYet(observations, n, unit, b, members, k);
      OneMoreMember(members, k, observations[n].issuer);
      OneMoreAssigned(observations, n, unit, b, members, k);
      members := members[k := members[k] + {observations[n].issuer}];
    }
  }

  lemma {:induction false} AtLeastOne(b: seq<real>, x: real, at: nat)
    requires |b| >= 2 && b[0] <= x && forall i :: at <= i < |b| ==> x < b[i]
    ensures at >= 1
  {
    if at == 0 {
      NotBelow(b, x);
      assert false;
    }
  }

  lemma {:induction false} NotBelow(b: seq<real>, x: real)
    requires |b| >= 2 && b[0] <= x
    ensures exists i :: 0 <= i < |b| && b[i] <= x
  {
  }

  lemma {:induction false} BisectFinds(b: seq<real>, x: real, at: nat, k: nat)
    requires |b| >= 2 && x <= b[|b| - 1] && 1 <= at <= |b| && k == (if at - 1 < |b| - 2 then at - 1 else |b| - 2)
    requires forall i, j :: 0 <= i <= j < |b| ==> b[i] <= b[j]
    requires (forall i :: 0 <= i < at ==> b[i] <= x) && (forall i :: at <= i < |b| ==> x < b[i])
    ensures Inside(b, k, x) && forall j :: 0 <= j < |b| - 1 && j != k ==> !Inside(b, j, x)
  {
    assert b[k] <= x;
    if at < |b| {
      assert x < b[at];
    }
    assert Inside(b, k, x);
    forall j | 0 <= j < |b| - 1 && j != k
      ensures !Inside(b, j, x)
    {
      if j < k {
        if Inside(b, j, x) {
          OneBin(b, j, k, x);
        }
      } else {
        OneBin(b, k, j, x);
      }
    }
  }

  /** After n observations each bin holds exactly those that lie in it. */
  ghost predicate Assigned(observations: seq<Observation>, n: nat, unit: int, b: seq<real>, members: seq<set<string>>)
    requires n <= |observations| && |members| + 1 == |b|
    requires forall i :: 0 <= i < |observations| ==> unit <= observations[i].value.exponent
  {
    && (forall i, k :: 0 <= i < n && 0 <= k < |members| ==> (observations[i].issuer in members[k] <==> Inside(b, k, ValueIn(observations[i], unit))))
    && (forall k, x :: 0 <= k < |members| && x in members[k] ==> exists i :: 0 <= i < n && observations[i].issuer == x)
  }

  lemma {:induction false} AssignedNone(observations: seq<Observation>, unit: int, b: seq<real>, members: seq<set<string>>)
    requires |members| + 1 == |b| && forall i :: 0 <= i < |observations| ==> unit <= observations[i].value.exponent
    requires forall k :: 0 <= k < |members| ==> members[k] == {}
    ensures Assigned(observations, 0, unit, b, members)
  {
  }

  lemma {:induction false} NotYet(observations: seq<Observation>, n: nat, unit: int, b: seq<real>, members: seq<set<string>>, k: nat)
    requires Evidenced(observations) && n < |observations| && |members| + 1 == |b| && k < |members|
    requires forall i :: 0 <= i < |observations| ==> unit <= observations[i].value.exponent
    requires Assigned(observations, n, unit, b, members)
    ensures forall j :: 0 <= j < |members| ==> observations[n].issuer !in members[j]
  {
    hide Inside, ValueIn;
  }

  lemma {:induction false} OneMoreAssigned(observations: seq<Observation>, n: nat, unit: int, b: seq<real>, members: seq<set<string>>, k: nat)
    requires Evidenced(observations) && n < |observations| && |members| + 1 == |b| && k < |members|
    requires forall i :: 0 <= i < |observations| ==> unit <= observations[i].value.exponent
    requires Assigned(observations, n, unit, b, members)
    requires Inside(b, k, ValueIn(observations[n], unit))
    requires forall j :: 0 <= j < |b| - 1 && j != k ==> !Inside(b, j, ValueIn(observations[n], unit))
    ensures Assigned(observations, n + 1, unit, b, members[k := members[k] + {observations[n].issuer}])
  {
    NotYet(observations, n, unit, b, members, k);
    hide Inside, ValueIn;
    var after := members[k := members[k] + {observations[n].issuer}];
    forall j, x | 0 <= j < |after| && x in after[j]
      ensures exists i :: 0 <= i < n + 1 && observations[i].issuer == x
    {
      if x == observations[n].issuer {
        assert observations[n].issuer == x;
      } else {
        assert x in members[j];
      }
    }
  }

  function Sizes(members: seq<set<string>>): nat {
    if members == [] then 0 else Sizes(members[..|members| - 1]) + |members[|members| - 1]|
  }

  lemma {:induction false} OneMoreMember(members: seq<set<string>>, k: nat, x: string)
    requires k < |members| && x !in members[k]
    ensures Sizes(members[k := members[k] + {x}]) == Sizes(members) + 1
  {
    var n := |members| - 1;
    if k == n {
      assert members[k := members[k] + {x}][..n] == members[..n];
    } else {
      OneMoreMember(members[..n], k, x);
      assert members[k := members[k] + {x}][..n] == members[..n][k := members[..n][k] + {x}];
    }
  }

  lemma {:induction false} NoMembers(n: nat)
    ensures Sizes(seq(n, _ => {})) == 0
  {
    if n > 0 {
      var s: seq<set<string>> := seq(n, _ => {});
      assert s[..n - 1] == seq(n - 1, _ => {});
      NoMembers(n - 1);
    }
  }

  /** The extreme observations: min() and max(). */
  method Extremes(observations: seq<Observation>, unit: int) returns (low: nat, high: nat)
    requires observations != [] && forall i :: 0 <= i < |observations| ==> unit <= observations[i].value.exponent
    ensures low < |observations| && high < |observations|
    ensures forall i :: 0 <= i < |observations| ==>
      ValueIn(observations[low], unit) <= ValueIn(observations[i], unit) <= ValueIn(observations[high], unit)
  {
    hide ValueIn;
    low, high := 0, 0;
    for n := 1 to |observations|
      invariant low < n && high < n
      invariant forall i :: 0 <= i < n ==>
        ValueIn(observations[low], unit) <= ValueIn(observations[i], unit) <= ValueIn(observations[high], unit)
    {
      if ValueIn(observations[n], unit) < ValueIn(observations[low], unit) {
        low := n;
      }
      if ValueIn(observations[n], unit) > ValueIn(observations[high], unit) {
        high := n;
      }
    }
  }

  /** A context for each precision. */
  ghost predicate RoundsAtEvery(near: (nat, real) -> real) {
    forall precision: nat :: RoundsAt(near, precision)
  }

  ghost predicate RoundsAt(near: (nat, real) -> real, precision: nat) {
    RoundsTo(RoundingAt(near, precision), precision)
  }

  function RoundingAt(near: (nat, real) -> real, precision: nat): real -> real {
    x => near(precision, x)
  }

  /** The requested number of bins, cut at the rounded equal widths between a least and a greatest observation. */
  ghost predicate EqualWidths(near: (nat, real) -> real, observations: seq<Observation>, unit: int, bins: seq<Bin>, low: nat, high: nat)
    requires forall i :: 0 <= i < |observations| ==> unit <= observations[i].value.exponent
    requires bins != [] && low < |observations| && high < |observations|
  {
    var lo, hi := ValueIn(observations[low], unit), ValueIn(observations[high], unit);
    var round := RoundingAt(near, HistogramPrecision(observations[low].value, observations[high].value));
    && bins[0].lower == lo && bins[|bins| - 1].upper == hi
    && forall k :: 0 <= k < |bins| ==> bins[k].lower == Boundary(round, lo, hi, |bins|, k)
  }

  /** Where the exact cut needs no rounding, the boundary is the exact cut. */
  lemma {:induction false} BoundaryExact(near: real -> real, lo: real, hi: real, bins: nat, i: nat)
    requires CarriesEnds(near, lo, hi, bins) && i < bins
    requires var offset := Over(Times(hi - lo, i as real), bins as real); near(offset) == offset && near(lo + offset) == lo + offset
    ensures Times(Boundary(near, lo, hi, bins, i) - lo, bins as real) == Times(hi - lo, i as real)
  {
    hide CarriesMultiples, KeepsOrder;
    BoundaryIsOffset(near, lo, hi, bins, i);
    OverBack(Times(hi - lo, i as real), bins as real);
  }

  lemma {:induction false} OverBack(x: real, n: real)
    requires n != 0.0
    ensures Times(Over(x, n), n) == x
  {
  }

  /** histogram: refused, empty, a single closed bin, or the full partition into equal widths. */
  method Histogram(near: (nat, real) -> real, observations: seq<Observation>, binCount: int) returns (r: Option<seq<Bin>>)
    requires RoundsAtEvery(near)
    ensures r.Some? <==> 1 <= binCount <= 100 && Evidenced(observations)
    ensures r.Some? && observations == [] ==> r.value == []
    ensures r.Some? && observations != [] ==> Partitions(observations, Unit(observations), r.value)
    ensures r.Some? && observations != [] && r.value[0].lower == r.value[|r.value| - 1].upper ==> |r.value| == 1
    ensures r.Some? && observations != [] && r.value[0].lower < r.value[|r.value| - 1].upper ==>
      && |r.value| == binCount
      && exists low: nat, high: nat :: low < |observations| && high < |observations| && EqualWidths(near, observations, Unit(observations), r.value, low, high)
  {
    hide ValueIn, Total, Unit, Boundary, Partitions, EqualWidths;
    if !(1 <= binCount <= 100) || !Evidenced(observations) {
      return None;
    }
    if observations == [] {
      return Some([]);
    }
    var unit := Unit(observations);
    var low, high := Extremes(observations, unit);
    var bins: seq<Bin>;
    if ValueIn(observations[low], unit) == ValueIn(observations[high], unit) {
      bins := Single(observations, unit, low);
    } else {
      bins := Spread(near, observations, unit, low, high, binCount);
    }
    r := Some(bins);
  }

  /** One closed bin for a single observed value. */
  method Single(observations: seq<Observation>, unit: int, at: nat) returns (bins: seq<Bin>)
    requires Evidenced(observations) && at < |observations|
    requires forall i :: 0 <= i < |observations| ==> unit <= observations[i].value.exponent
    requires forall i :: 0 <= i < |observations| ==> ValueIn(observations[i], unit) == ValueIn(observations[at], unit)
    ensures Partitions(observations, unit, bins) && |bins| == 1 && bins[0].lower == bins[0].upper
  {
    hide ValueIn, Total;
    var ids := set i | 0 <= i < |observations| :: observations[i].issuer;
    Enumerated(observations, ids);
    bins := [Bin(ValueIn(observations[at], unit), ValueIn(observations[at], unit), |ids|, ids, true)];
    TotalOfOne(bins[0]);
  }

  /** Bins of equal width between two distinct extremes. */
  method Spread(near: (nat, real) -> real, observations: seq<Observation>, unit: int, low: nat, high: nat, binCount: nat) returns (bins: seq<Bin>)
    requires RoundsAtEvery(near) && Evidenced(observations) && 1 <= binCount <= 100 && low < |observations| && high < |observations|
    requires forall i :: 0 <= i < |observations| ==> unit <= observations[i].value.exponent
    requires forall i :: 0 <= i < |observations| ==>
      ValueIn(observations[low], unit) <= ValueIn(observations[i], unit) <= ValueIn(observations[high], unit)
    requires ValueIn(observations[low], unit) < ValueIn(observations[high], unit)
    ensures Partitions(observations, unit, bins) && |bins| == binCount
    ensures EqualWidths(near, observations, unit, bins, low, high)
    ensures bins[0].lower < bins[|bins| - 1].upper
  {
    hide ValueIn, Total, CarriesEnds, RoundsTo, Boundary, Partitions, Assigned, HistogramPrecision;
    var lo, hi := ValueIn(observations[low], unit), ValueIn(observations[high], unit);
    var precision := HistogramPrecision(observations[low].value, observations[high].value);
    var round := RoundingAt(near, precision);
    assert RoundsAt(near, precision);
    PrecisionCarriesEnds(round, observations[low].value, observations[high].value, unit, binCount);
    InUnits(observations[low], unit);
    InUnits(observations[high], unit);
    var b := Boundaries(round, lo, hi, binCount);
    BoundariesAreOrdered(round, lo, hi, binCount, b);
    var members := Assign(observations, unit, b);
    bins := seq(binCount, k requires 0 <= k < binCount => Bin(b[k], b[k + 1], |members[k]|, members[k], k == binCount - 1));
    TotalOfSizes(bins, members);
    BinsPartition(observations, unit, b, members, bins, low, high);
  }

  lemma {:induction false} InUnits(o: Observation, unit: int)
    requires unit <= o.value.exponent
    ensures ValueIn(o, unit) == D.Units(o.value, unit) as real
  {
  }

  lemma {:induction false} TotalOfOne(bin: Bin)
    ensures Total([bin]) == bin.count
  {
    assert [bin][..0] == [];
  }

  lemma {:induction false} BoundariesAreOrdered(near: real -> real, lo: real, hi: real, bins: nat, b: seq<real>)
    requires CarriesEnds(near, lo, hi, bins) && lo <= hi && bins > 0 && b == Boundaries(near, lo, hi, bins)
    ensures forall i, j :: 0 <= i <= j <= bins ==> b[i] <= b[j]
    ensures b[0] == lo && b[bins] == hi
  {
    hide Boundary, CarriesEnds;
    forall i, j | 0 <= i <= j <= bins
      ensures b[i] <= b[j]
    {
      BoundariesOrdered(near, lo, hi, bins, i, j);
    }
    BoundariesOrdered(near, lo, hi, bins, 0, 0);
  }

  /** Distinct issuers: as many members as observations. */
  lemma {:induction false} Enumerated(observations: seq<Observation>, ids: set<string>)
    requires Evidenced(observations) && ids == (set i | 0 <= i < |observations| :: observations[i].issuer)
    ensures |ids| == |observations|
  {
    if observations != [] {
      var n := |observations| - 1;
      var front := observations[..n];
      var rest := set i | 0 <= i < n :: front[i].issuer;
      Enumerated(front, rest);
      assert ids == rest + {observations[n].issuer};
      assert observations[n].issuer !in rest;
    } else {
      assert ids == {};
    }
  }

  lemma {:induction false} TotalOfSizes(bins: seq<Bin>, members: seq<set<string>>)
    requires |bins| == |members| && forall k :: 0 <= k < |bins| ==> bins[k].count == |members[k]|
    ensures Total(bins) == Sizes(members)
  {
    if bins != [] {
      TotalOfSizes(bins[..|bins| - 1], members[..|bins| - 1]);
    }
  }

  predicate IsBin(b: seq<real>, members: seq<set<string>>, bins: seq<Bin>, k: nat)
    requires |bins| == |members| == |b| - 1 && k < |bins|
  {
    bins[k] == Bin(b[k], b[k + 1], |members[k]|, members[k], k == |bins| - 1)
  }

  lemma {:induction false} BinsPartition(observations: seq<Observation>, unit: int, b: seq<real>, members: seq<set<string>>, bins: seq<Bin>, low: nat, high: nat)
    requires forall i :: 0 <= i < |observations| ==> unit <= observations[i].value.exponent
    requires low < |observations| && high < |observations| && |bins| == |members| == |b| - 1 && bins != []
    requires forall k :: 0 <= k < |bins| ==> IsBin(b, members, bins, k)
    requires forall i, j :: 0 <= i <= j < |b| ==> b[i] <= b[j]
    requires Assigned(observations, |observations|, unit, b, members) && Total(bins) == |observations|
    requires b[0] == ValueIn(observations[low], unit) && b[|b| - 1] == ValueIn(observations[high], unit)
    requires forall i :: 0 <= i < |observations| ==> b[0] <= ValueIn(observations[i], unit) <= b[|b| - 1]
    ensures Partitions(observations, unit, bins)
  {
    hide ValueIn, Total;
    forall k, x | 0 <= k < |bins|
      ensures x <= b[|b| - 1] ==> (Covers(bins[k], x) <==> Inside(b, k, x))
    {
      assert IsBin(b, members, bins, k);
    }
    assert IsBin(b, members, bins, 0) && IsBin(b, members, bins, |bins| - 1);
    forall k | 0 < k < |bins|
      ensures bins[k - 1].upper == bins[k].lower
    {
      assert IsBin(b, members, bins, k - 1) && IsBin(b, members, bins, k);
    }
    forall k | 0 <= k < |bins|
      ensures bins[k].lower <= bins[k].upper && bins[k].members == members[k]
      ensures bins[k].count == |bins[k].members| && bins[k].upperInclusive == (k == |bins| - 1)
    {
      assert IsBin(b, members, bins, k);
      assert b[k] <= b[k + 1];
    }
    forall i, k | 0 <= i < |observations| && 0 <= k < |bins|
      ensures observations[i].issuer in bins[k].members <==> Covers(bins[k], ValueIn(observations[i], unit))
    {
      assert bins[k].members == members[k];
      assert Covers(bins[k], ValueIn(observations[i], unit)) <==> Inside(b, k, ValueIn(observations[i], unit));
    }
    forall k, x | 0 <= k < |bins| && x in bins[k].members
      ensures exists i :: 0 <= i < |observations| && observations[i].issuer == x
    {
      assert bins[k].members == members[k];
    }
  }

  // ----- who contributes, without the words of the account

  /** c is all that the snapshots say about the issuer. */
  ghost predicate OnlyStory(companies: seq<Snapshot>, issuer: string, c: Snapshot) {
    c in companies && c.issuer == issuer && forall d :: d in companies && d.issuer == issuer ==> d == c
  }

  /** One story, with an identity and in the context. */
  ghost predicate Placed(companies: seq<Snapshot>, issuer: string, c: Snapshot) {
    OnlyStory(companies, issuer, c) && c.id != "" && c.inContext
  }

  /** The denominator is positive beyond its error, and there is a ratio. */
  ghost predicate Carries(c: Snapshot) {
    c.denominator > 0.0 && c.denominator > c.error && c.ratio.Ratio?
  }

  lemma {:induction false} SelectExactly(companies: seq<Snapshot>, issuer: string)
    ensures forall c :: Select(companies, issuer) == Selected(c) <==> Placed(companies, issuer, c)
    ensures (forall c :: c in companies ==> c.issuer != issuer) ==> Select(companies, issuer) == Rejected({"company_snapshot_missing"})
    ensures forall c, d :: c in companies && d in companies && c.issuer == issuer && d.issuer == issuer && c != d ==>
              Select(companies, issuer) == Rejected({"conflicting_issuer_snapshots"})
    ensures forall c :: OnlyStory(companies, issuer, c) && (c.id == "" || !c.inContext) ==>
              Select(companies, issuer) == Rejected({"company_context_mismatch"})
  {
    hide Matches;
    var matches := Matches(companies, issuer);
    forall c
      ensures c in matches <==> c in companies && c.issuer == issuer
    {
      MatchesMembers(companies, issuer, c);
    }
    forall c, d | c in companies && d in companies && c.issuer == issuer && d.issuer == issuer && c != d
      ensures exists i :: 0 <= i < |matches| && matches[i] != matches[0]
    {
      var i :| 0 <= i < |matches| && matches[i] == c;
      var j :| 0 <= j < |matches| && matches[j] == d;
      assert matches[i] != matches[0] || matches[j] != matches[0];
    }
    forall c | OnlyStory(companies, issuer, c)
      ensures matches != [] && matches[0] == c && forall i :: 0 <= i < |matches| ==> matches[i] == matches[0]
    {
      assert c in matches;
      assert forall i :: 0 <= i < |matches| ==> matches[i] in matches;
    }
    if matches != [] && forall i :: 0 <= i < |matches| ==> matches[i] == matches[0] {
      assert matches[0] in matches;
      assert OnlyStory(companies, issuer, matches[0]);
    }
  }

  /** An issuer contributes exactly if its one snapshot is placed and without findings and, for a ratio, carries one, a
      total that is no growth excepted; its ratio is listed exactly if it carries one. */
  lemma {:induction false} ContributesExactly(companies: seq<Snapshot>, m: Metric, issuers: set<string>, g: Groups, i: string)
    requires Grouped(companies, m, issuers, g) && i in issuers
    ensures i in g.complete <==> exists c :: Placed(companies, i, c) && c.issues == {}
    ensures i in g.contributing <==>
            exists c :: Placed(companies, i, c) && c.issues == {} && (!m.ratio || Carries(c) || (m.total && !m.growth))
    ensures i in g.distribution <==> exists c :: Placed(companies, i, c) && c.issues == {} && m.ratio && Carries(c)
    ensures forall c :: Placed(companies, i, c) && i in g.distribution ==> g.distribution[i] == c.ratio.value
  {
    hide Select, Placed;
    SelectExactly(companies, i);
    var s := Select(companies, i);
    if s.Selected? {
      assert Placed(companies, i, s.company);
    }
  }

  /** Why an issuer is left out. */
  lemma {:induction false} ExcludedExactly(companies: seq<Snapshot>, m: Metric, issuers: set<string>, g: Groups, i: string)
    requires Grouped(companies, m, issuers, g) && i in issuers && i in g.excluded
    ensures (forall c :: c in companies ==> c.issuer != i) ==> g.excluded[i] == {"company_snapshot_missing"}
    ensures forall c, d :: c in companies && d in companies && c.issuer == i && d.issuer == i && c != d ==> g.excluded[i] == {"conflicting_issuer_snapshots"}
    ensures forall c :: OnlyStory(companies, i, c) && (c.id == "" || !c.inContext) ==> g.excluded[i] == {"company_context_mismatch"}
    ensures forall c :: Placed(companies, i, c) ==>
              g.excluded[i] == if c.issues != {} then c.issues
                               else if c.denominator <= 0.0 then {"company_denominator_nonpositive"}
                               else if c.denominator <= c.error then {"company_denominator_indistinguishable_from_zero"}
                               else if c.ratio.Unavailable? then c.ratio.reasons else {}
  {
    hide Select, Placed, OnlyStory;
    SelectExactly(companies, i);
  }

  /** A company whose sign is counted: the observed growth for a growth metric, its input for any other. */
  ghost predicate SignOf(companies: seq<Snapshot>, m: Metric, i: string, x: real) {
    exists c :: Placed(companies, i, c) && c.issues == {} && if m.growth then Carries(c) && x == c.ratio.value else x == c.sign
  }

  /** The sign counts are the numbers of issuers whose counted value is above, at and below zero. */
  lemma {:induction false} SignsExactly(companies: seq<Snapshot>, m: Metric, issuers: set<string>, n: Signs)
    requires ValidMetric(m) && Signed(companies, m, issuers, n)
    ensures n.positive == |(set i | i in issuers && exists x :: SignOf(companies, m, i, x) && x > 0.0)|
    ensures n.zero == |(set i | i in issuers && SignOf(companies, m, i, 0.0))|
    ensures n.negative == |(set i | i in issuers && exists x :: SignOf(companies, m, i, x) && x < 0.0)|
  {
    hide Select, Placed;
    forall i
      ensures Counted(m, Select(companies, i), Positive) <==> exists x :: SignOf(companies, m, i, x) && x > 0.0
      ensures Counted(m, Select(companies, i), Zero) <==> SignOf(companies, m, i, 0.0)
      ensures Counted(m, Select(companies, i), Negative) <==> exists x :: SignOf(companies, m, i, x) && x < 0.0
    {
      CountedExactly(companies, m, i);
    }
    assert CountedSet(companies, m, issuers, Positive) == (set i | i in issuers && exists x :: SignOf(companies, m, i, x) && x > 0.0);
    assert CountedSet(companies, m, issuers, Zero) == (set i | i in issuers && SignOf(companies, m, i, 0.0));
    assert CountedSet(companies, m, issuers, Negative) == (set i | i in issuers && exists x :: SignOf(companies, m, i, x) && x < 0.0);
  }

  lemma {:induction false} CountedExactly(companies: seq<Snapshot>, m: Metric, i: string)
    requires ValidMetric(m)
    ensures Counted(m, Select(companies, i), Positive) <==> exists x :: SignOf(companies, m, i, x) && x > 0.0
    ensures Counted(m, Select(companies, i), Zero) <==> SignOf(companies, m, i, 0.0)
    ensures Counted(m, Select(companies, i), Negative) <==> exists x :: SignOf(companies, m, i, x) && x < 0.0
  {
    hide Select, Placed;
    SelectExactly(companies, i);
    var s := Select(companies, i);
    if s.Selected? && s.company.issues == {} && (m.growth ==> Carries(s.company)) {
      var x := if m.growth then s.company.ratio.value else s.company.sign;
      assert Placed(companies, i, s.company);
      assert SignOf(companies, m, i, x);
    }
  }
}
