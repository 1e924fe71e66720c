/**
 The shared dispatch budget (packages/ingest/limiter.py). Each Lua script is one atomic step on
 a hash and a sorted set that every worker shares, so a system run is any sequence of steps.
 Times are the Redis clock in seconds.
 */
module Limiter {
  import opened Common
  import opened Calendar

  type Token = nat

  datatype Hash = Hash(rate: real, blocked: real, last: real, pending: Option<Token>, expires: Option<real>)

  /** The two keys: the rate hash and the sorted set of recent starts. */
  datatype Shared = Shared(hash: Option<Hash>, starts: map<Token, real>)

  datatype Reply = Disagreement | Wait(ready: real) | Granted

  const REVIEW: real := 253370764800.0
  const GRANT_SECONDS: real := 0.05
  const WINDOW_LIMIT: nat := 10

  function Or(x: Option<real>, default: real): real {
    if x.Some? then x.value else default
  }

  // ----- the scripts as functions

  /** State loss starts with a full second of quiet. */
  function Opened(s: Shared, now: real, rate: real): Hash {
    if s.hash.None? then Hash(rate, now + 1.0, 0.0, None, None) else s.hash.value
  }

  function Ready(h: Hash): real
    requires h.rate > 0.0
  {
    Max(Max(h.blocked, h.last + 1.0 / h.rate), Or(h.expires, 0.0))
  }

  function Reserve(s: Shared, now: real, rate: real, token: Token): (Shared, Reply)
    requires rate > 0.0
  {
    var h := Opened(s, now, rate);
    if h.rate != rate then (s.(hash := Some(h)), Disagreement)
    else if Ready(h) > now then (s.(hash := Some(h)), Wait(Ready(h)))
    else (s.(hash := Some(h.(pending := Some(token), expires := Some(now + GRANT_SECONDS)))), Granted)
  }

  /** ZREMRANGEBYSCORE up to now - 1. */
  function Recent(starts: map<Token, real>, now: real): map<Token, real> {
    map t | t in starts && starts[t] > now - 1.0 :: starts[t]
  }

  function Confirm(s: Shared, now: real, token: Token): (Shared, bool) {
    if s.hash.None? || s.hash.value.pending != Some(token) then (s, false) else
      var h := s.hash.value;
      var cleared := h.(pending := None, expires := None);
      if Or(h.expires, 0.0) < now then (s.(hash := Some(cleared)), false)
      else if h.blocked > now then (s, false)
      else
        var recent := Recent(s.starts, now);
        if |recent| >= WINDOW_LIMIT then (s.(starts := recent), false)
        else (Shared(Some(cleared.(last := now)), recent[token := now]), true)
  }

  /** None asks for operator review: an unrepresentable delay is never shortened. */
  function CooldownTarget(now: real, seconds: Option<real>): real {
    if seconds.None? then REVIEW else now + seconds.value
  }

  function Cooldown(s: Shared, now: real, seconds: Option<real>, rate: real): (Shared, real) {
    var blocked := if s.hash.None? then 0.0 else s.hash.value.blocked;
    var until := Max(CooldownTarget(now, seconds), blocked);
    var h := if s.hash.None? then Hash(rate, until, 0.0, None, None) else s.hash.value;
    (s.(hash := Some(h.(blocked := until, pending := None, expires := None))), until)
  }

  // ----- the scripts as in-place updates

  class Coordinator {
    var hash: Option<Hash>
    var starts: map<Token, real>

    function View(): Shared
      reads this
    {
      Shared(hash, starts)
    }

    method ReserveScript(now: real, rate: real, token: Token) returns (reply: Reply)
      requires rate > 0.0 && (hash.Some? ==> hash.value.rate > 0.0)
      modifies this
      ensures (View(), reply) == Reserve(old(View()), now, rate, token)
    {
      if hash.None? {
        hash := Some(Hash(rate, now + 1.0, 0.0, None, None));
      }
      if hash.value.rate != rate {
        return Disagreement;
      }
      var h := hash.value;
      var ready := Max(Max(h.blocked, h.last + 1.0 / h.rate), Or(h.expires, 0.0));
      if ready > now {
        return Wait(ready);
      }
      hash := Some(h.(pending := Some(token), expires := Some(now + GRANT_SECONDS)));
      reply := Granted;
    }

    method ConfirmScript(now: real, token: Token) returns (ok: bool)
      modifies this
      ensures (View(), ok) == Confirm(old(View()), now, token)
    {
      if hash.None? || hash.value.pending != Some(token) {
        return false;
      }
      if Or(hash.value.expires, 0.0) < now {
        hash := Some(hash.value.(pending := None, expires := None));
        return false;
      }
      if hash.value.blocked > now {
        return false;
      }
      starts := Recent(starts, now);
      if |starts| >= WINDOW_LIMIT {
        return false;
      }
      starts := starts[token := now];
      hash := Some(hash.value.(last := now, pending := None, expires := None));
      ok := true;
    }

    method CooldownScript(now: real, seconds: Option<real>, rate: real) returns (until: real)
      modifies this
      ensures (View(), until) == Cooldown(old(View()), now, seconds, rate)
    {
      var target := if seconds.None? then REVIEW else now + seconds.value;
      until := Max(target, if hash.Some? then hash.value.blocked else 0.0);
      if hash.None? {
        hash := Some(Hash(rate, 0.0, 0.0, None, None));
      }
      hash := Some(hash.value.(blocked := until, pending := None, expires := None));
    }
  }

  // ----- runs

  datatype Event =
    | DoReserve(now: real, rate: real, token: Token)
    | DoConfirm(now: real, token: Token)
    | DoCooldown(now: real, seconds: Option<real>, rate: real)
    | LoseHash(now: real)
    | LoseStarts(now: real)
    | LoseBoth(now: real)

  datatype Start = Start(token: Token, at: real)

  /** The shared keys after a run, with every successful start and every announced cooldown. */
  datatype System = System(shared: Shared, starts: seq<Start>, cooldowns: seq<real>)

  const BOOT: System := System(Shared(None, map[]), [], [])

  ghost predicate PositiveRate(y: System) {
    y.shared.hash.Some? ==> 1.0 <= y.shared.hash.value.rate <= 10.0
  }

  ghost predicate RateInRange(e: Event) {
    e.DoReserve? || e.DoCooldown? ==> 1.0 <= e.rate <= 10.0
  }

  ghost function Step(y: System, e: Event): (z: System)
    requires RateInRange(e) && PositiveRate(y)
    ensures PositiveRate(z)
  {
    match e
    case DoReserve(now, rate, token) => y.(shared := Reserve(y.shared, now, rate, token).0)
    case DoConfirm(now, token) =>
      var (shared, ok) := Confirm(y.shared, now, token);
      y.(shared := shared, starts := if ok then y.starts + [Start(token, now)] else y.starts)
    case DoCooldown(now, seconds, rate) =>
      var (shared, until) := Cooldown(y.shared, now, seconds, rate);
      y.(shared := shared, cooldowns := y.cooldowns + [until])
    case LoseHash(now) => y.(shared := y.shared.(hash := None))
    case LoseStarts(now) => y.(shared := y.shared.(starts := map[]))
    case LoseBoth(now) => y.(shared := Shared(None, map[]))
  }

  /** Legal environment: rates in range, a clock that never runs back, a fresh token per reserve. */
  ghost predicate Legal(run: seq<Event>) {
    && (forall i :: 0 <= i < |run| ==> RateInRange(run[i]))
    && (forall i, j :: 0 <= i < j < |run| ==> run[i].now <= run[j].now)
    && (forall i, j :: 0 <= i < j < |run| && run[i].DoReserve? && run[j].DoReserve? ==> run[i].token != run[j].token)
  }

  ghost function After(run: seq<Event>): (y: System)
    requires Legal(run)
    ensures PositiveRate(y)
  {
    if run == [] then BOOT else Step(After(run[..|run| - 1]), run[|run| - 1])
  }

  lemma {:induction false} AfterOne(run: seq<Event>, e: Event)
    requires Legal(run + [e])
    ensures Legal(run) && RateInRange(e) && After(run + [e]) == Step(After(run), e)
    ensures run != [] ==> run[|run| - 1].now <= e.now
  {
    hide Step, RateInRange;
    var all := run + [e];
    assert forall i :: 0 <= i < |run| ==> run[i] == all[i];
    assert all[..|all| - 1] == run && all[|all| - 1] == e;
    assert RateInRange(all[|all| - 1]);
  }

  // ----- what every run keeps, whatever is lost

  ghost predicate ReservedIn(run: seq<Event>, token: Token, r: nat) {
    r < |run| && run[r].DoReserve? && run[r].token == token
  }

  ghost predicate WasReserved(run: seq<Event>, token: Token) {
    exists r :: ReservedIn(run, token, r)
  }

  /** A step that touches no grant of another token. */
  predicate LeavesGrants(e: Event) {
    e.DoReserve? || e.DoConfirm? || e.LoseStarts?
  }

  /** The outstanding grant: made by the reserve at r, untouched by any cooldown or loss of the hash since. */
  ghost predicate GrantedAt(run: seq<Event>, h: Hash, r: nat)
  {
    && h.pending.Some? && ReservedIn(run, h.pending.value, r)
    && h.expires == Some(run[r].now + GRANT_SECONDS)
    && (forall i :: r < i < |run| ==> LeavesGrants(run[i]))
  }

  ghost predicate Distinct(starts: seq<Start>) {
    forall i, j :: 0 <= i < j < |starts| ==> starts[i].token != starts[j].token
  }

  ghost predicate StartsSane(run: seq<Event>, starts: seq<Start>) {
    && Distinct(starts)
    && (forall i :: 0 <= i < |starts| ==> WasReserved(run, starts[i].token))
    && (forall i :: 0 <= i < |starts| ==> run != [] && starts[i].at <= run[|run| - 1].now)
  }

  ghost predicate Sane(run: seq<Event>, y: System) {
    && StartsSane(run, y.starts)
    && (y.shared.hash.Some? && y.shared.hash.value.pending.Some? ==>
          && (exists r :: GrantedAt(run, y.shared.hash.value, r))
          && (forall i :: 0 <= i < |y.starts| ==> y.starts[i].token != y.shared.hash.value.pending.value))
  }

  lemma {:induction false} ReservedGrows(run: seq<Event>, e: Event, token: Token)
    requires WasReserved(run, token)
    ensures WasReserved(run + [e], token)
  {
    var r :| ReservedIn(run, token, r);
    assert ReservedIn(run + [e], token, r);
  }

  /** A fresh token cannot have been reserved before. */
  lemma {:induction false} FreshToken(run: seq<Event>, e: Event, r: nat)
    requires Legal(run + [e]) && e.DoReserve? && r < |run| && run[r].DoReserve?
    ensures run[r].token != e.token
  {
    assert (run + [e])[r] == run[r] && (run + [e])[|run|] == e;
  }

  lemma {:induction false} GrantGrows(run: seq<Event>, e: Event, h: Hash)
    requires (exists r :: GrantedAt(run, h, r)) && LeavesGrants(e)
    ensures exists r :: GrantedAt(run + [e], h, r)
  {
    var r: nat :| GrantedAt(run, h, r);
    var all := run + [e];
    assert all[r] == run[r] && all[|run|] == e;
    assert GrantedAt(all, h, r);
  }

  lemma {:induction false} StartsStaySane(run: seq<Event>, e: Event, starts: seq<Start>)
    requires StartsSane(run, starts) && (run != [] ==> run[|run| - 1].now <= e.now)
    ensures StartsSane(run + [e], starts)
  {
    var all := run + [e];
    assert all[|all| - 1] == e;
    forall i | 0 <= i < |starts|
      ensures WasReserved(all, starts[i].token) && starts[i].at <= all[|all| - 1].now
    {
      ReservedGrows(run, e, starts[i].token);
    }
  }

  lemma {:induction false} StartAppended(run: seq<Event>, starts: seq<Start>, s: Start, r: nat)
    requires StartsSane(run, starts) && ReservedIn(run, s.token, r) && s.at <= run[|run| - 1].now
    requires forall i :: 0 <= i < |starts| ==> starts[i].token != s.token
    ensures StartsSane(run, starts + [s])
  {
    var longer := starts + [s];
    forall i | 0 <= i < |longer|
      ensures WasReserved(run, longer[i].token) && longer[i].at <= run[|run| - 1].now
    {
      if i < |starts| {
        assert longer[i] == starts[i];
      } else {
        assert longer[i] == s && ReservedIn(run, s.token, r);
      }
    }
  }

  lemma {:induction false} ReserveKeepsSane(run: seq<Event>, e: Event, y: System)
    requires Legal(run + [e]) && Sane(run, y) && PositiveRate(y) && RateInRange(e) && e.DoReserve?
    requires run != [] ==> run[|run| - 1].now <= e.now
    ensures Sane(run + [e], Step(y, e))
  {
    hide Legal, Ready;
    StartsStaySane(run, e, y.starts);
    var h := Step(y, e).shared.hash.value;
    if Reserve(y.shared, e.now, e.rate, e.token).1.Granted? {
      assert GrantedAt(run + [e], h, |run|);
      forall i | 0 <= i < |y.starts|
        ensures y.starts[i].token != e.token
      {
        var r :| ReservedIn(run, y.starts[i].token, r);
        FreshToken(run, e, r);
      }
    } else if h.pending.Some? {
      GrantGrows(run, e, h);
    }
  }

  lemma {:induction false} ConfirmKeepsSane(run: seq<Event>, e: Event, y: System)
    requires Sane(run, y) && PositiveRate(y) && e.DoConfirm?
    requires run != [] ==> run[|run| - 1].now <= e.now
    ensures Sane(run + [e], Step(y, e))
  {
    hide GrantedAt, Recent, StartsSane;
    StartsStaySane(run, e, y.starts);
    if y.shared.hash.Some? && y.shared.hash.value.pending.Some? {
      GrantGrows(run, e, y.shared.hash.value);
      if y.shared.hash.value.pending.value == e.token {
        var r := GrantOf(run, y);
        var all := run + [e];
        GrantReserves(all, run, y.shared.hash.value, r);
        assert all[|all| - 1] == e;
        StartAppended(all, y.starts, Start(e.token, e.now), r);
      }
    }
  }

  lemma {:induction false} GrantReserves(longer: seq<Event>, run: seq<Event>, h: Hash, r: nat)
    requires run <= longer && GrantedAt(run, h, r)
    ensures ReservedIn(longer, h.pending.value, r)
  {
  }

  lemma {:induction false} LosingStartsKeepsSane(run: seq<Event>, e: Event, y: System)
    requires Sane(run, y) && PositiveRate(y) && e.LoseStarts?
    requires run != [] ==> run[|run| - 1].now <= e.now
    ensures Sane(run + [e], Step(y, e))
  {
    hide GrantedAt, StartsSane;
    StartsStaySane(run, e, y.starts);
    if y.shared.hash.Some? && y.shared.hash.value.pending.Some? {
      GrantGrows(run, e, y.shared.hash.value);
    }
  }

  lemma {:induction false} SaneKeeps(run: seq<Event>, e: Event)
    requires Legal(run + [e]) && Legal(run) && Sane(run, After(run)) && RateInRange(e)
    requires run != [] ==> run[|run| - 1].now <= e.now
    ensures Sane(run + [e], Step(After(run), e))
  {
    hide After, Legal;
    match e {
      case DoReserve(_, _, _) => ReserveKeepsSane(run, e, After(run));
      case DoConfirm(_, _) => ConfirmKeepsSane(run, e, After(run));
      case DoCooldown(_, _, _) => StartsStaySane(run, e, After(run).starts);
      case LoseHash(_) => StartsStaySane(run, e, After(run).starts);
      case LoseStarts(_) => LosingStartsKeepsSane(run, e, After(run));
      case LoseBoth(_) => StartsStaySane(run, e, After(run).starts);
    }
  }

  lemma {:induction false} AlwaysSane(run: seq<Event>)
    requires Legal(run)
    ensures Sane(run, After(run))
  {
    hide Step, RateInRange, Sane;
    if run != [] {
      var front, e := run[..|run| - 1], run[|run| - 1];
      assert run == front + [e];
      AfterOne(front, e);
      AlwaysSane(front);
      SaneKeeps(front, e);
    } else {
      NothingIsSane();
    }
  }

  lemma {:induction false} NothingIsSane()
    ensures Sane([], BOOT)
  {
  }

  /** Each token starts at most one request, and only within its short grant: every start was
      reserved at most 0.05 seconds earlier with no cooldown and no loss of the hash in between. */
  lemma {:induction false} StartFollowsItsGrant(run: seq<Event>, now: real, token: Token) returns (r: nat)
    requires Legal(run + [DoConfirm(now, token)]) && Legal(run)
    requires Confirm(After(run).shared, now, token).1
    ensures ReservedIn(run, token, r) && run[r].now <= now <= run[r].now + 0.05
    ensures forall i :: r < i < |run| ==> LeavesGrants(run[i])
    ensures forall i :: 0 <= i < |After(run).starts| ==> After(run).starts[i].token != token
  {
    hide After, Sane;
    AlwaysSane(run);
    r := GrantOf(run, After(run));
    var all := run + [DoConfirm(now, token)];
    assert all[r] == run[r] && all[|run|].now == now;
  }

  lemma {:induction false} GrantOf(run: seq<Event>, y: System) returns (r: nat)
    requires Sane(run, y) && y.shared.hash.Some? && y.shared.hash.value.pending.Some?
    ensures GrantedAt(run, y.shared.hash.value, r)
    ensures forall i :: 0 <= i < |y.starts| ==> y.starts[i].token != y.shared.hash.value.pending.value
  {
    r :| GrantedAt(run, y.shared.hash.value, r);
  }

  /** A cooldown revokes the outstanding grant for good. */
  lemma {:induction false} CooldownRevokes(run: seq<Event>, r: nat, c: nat, now: real, token: Token)
    requires Legal(run + [DoConfirm(now, token)]) && Legal(run)
    requires r < c < |run| && ReservedIn(run, token, r) && run[c].DoCooldown?
    ensures !Confirm(After(run).shared, now, token).1
  {
    hide After;
    if Confirm(After(run).shared, now, token).1 {
      var g := StartFollowsItsGrant(run, now, token);
      OneReservePerToken(run, token, g, r);
      assert false;
    }
  }

  lemma {:induction false} OneReservePerToken(run: seq<Event>, token: Token, a: nat, b: nat)
    requires Legal(run) && ReservedIn(run, token, a) && ReservedIn(run, token, b)
    ensures a == b
  {
  }

  // ----- spacing and cooldowns, while the hash is kept

  ghost predicate Kept(run: seq<Event>) {
    forall i :: 0 <= i < |run| ==> !run[i].LoseHash? && !run[i].LoseBoth?
  }

  ghost predicate Spaced(starts: seq<Start>, gap: real) {
    forall i, j :: 0 <= i < j < |starts| ==> starts[j].at - starts[i].at >= gap
  }

  ghost predicate Paced(run: seq<Event>, y: System)
    requires PositiveRate(y)
  {
    && (y.shared.hash.None? ==> y.starts == [] && y.cooldowns == [])
    && (y.shared.hash.Some? ==>
          var h := y.shared.hash.value;
          && Spaced(y.starts, 1.0 / h.rate)
          && (y.starts != [] ==> h.last == y.starts[|y.starts| - 1].at)
          && (y.starts != [] && h.pending.Some? ==> run != [] && h.last + 1.0 / h.rate <= run[|run| - 1].now)
          && (forall i :: 0 <= i < |y.cooldowns| ==> y.cooldowns[i] <= h.blocked))
  }

  lemma {:induction false} PacedKeeps(run: seq<Event>, e: Event)
    requires Legal(run) && Paced(run, After(run)) && RateInRange(e) && !e.LoseHash? && !e.LoseBoth?
    requires run != [] ==> run[|run| - 1].now <= e.now
    ensures Paced(run + [e], Step(After(run), e))
  {
    hide After, Legal, Paced, Step;
    if e.DoConfirm? {
      ConfirmStaysPaced(run, e, After(run));
    } else {
      OthersStayPaced(run, e, After(run));
    }
  }

  lemma {:induction false} OthersStayPaced(run: seq<Event>, e: Event, y: System)
    requires PositiveRate(y) && Paced(run, y) && RateInRange(e) && (e.DoReserve? || e.DoCooldown? || e.LoseStarts?)
    requires run != [] ==> run[|run| - 1].now <= e.now
    ensures Paced(run + [e], Step(y, e))
  {
    NothingSpaced();
    hide Spaced;
    assert (run + [e])[|run|] == e;
  }

  lemma {:induction false} NothingSpaced()
    ensures forall gap :: Spaced([], gap)
  {
  }

  lemma {:induction false} ConfirmStaysPaced(run: seq<Event>, e: Event, y: System)
    requires PositiveRate(y) && Paced(run, y) && e.DoConfirm?
    requires run != [] ==> run[|run| - 1].now <= e.now
    ensures Paced(run + [e], Step(y, e))
  {
    hide Recent;
    assert (run + [e])[|run|] == e;
    if y.shared.hash.Some? && Step(y, e).starts != y.starts && y.starts != [] {
      assert 1.0 / y.shared.hash.value.rate > 0.0;
      assert forall i :: 0 <= i < |y.starts| ==> y.starts[i].at <= y.starts[|y.starts| - 1].at;
    }
  }

  lemma {:induction false} PacedFromBoot()
    ensures PositiveRate(BOOT) && Paced([], BOOT)
  {
  }

  lemma {:induction false} AlwaysPaced(run: seq<Event>)
    requires Legal(run) && Kept(run)
    ensures Paced(run, After(run))
  {
    hide Step, RateInRange, Paced;
    if run != [] {
      var front, e := run[..|run| - 1], run[|run| - 1];
      assert run == front + [e];
      AfterOne(front, e);
      AlwaysPaced(front);
      PacedKeeps(front, e);
    } else {
      PacedFromBoot();
    }
  }

  /** While the hash is kept, any two starts are at least 1/rate apart, over every interleaving. */
  lemma {:induction false} StartsAreSpaced(run: seq<Event>, i: nat, j: nat)
    requires Legal(run) && Kept(run) && i < j < |After(run).starts|
    ensures After(run).shared.hash.Some?
    ensures After(run).starts[j].at - After(run).starts[i].at >= 1.0 / After(run).shared.hash.value.rate
  {
    hide After;
    AlwaysPaced(run);
  }

  /** No start precedes the end of any cooldown announced before it. */
  lemma {:induction false} CooldownsHold(run: seq<Event>, now: real, token: Token, i: nat)
    requires Legal(run) && Kept(run) && i < |After(run).cooldowns|
    requires Confirm(After(run).shared, now, token).1
    ensures After(run).cooldowns[i] <= now
  {
    hide After;
    AlwaysPaced(run);
  }

  // ----- the rolling limit, when only the hash is lost

  ghost predicate SetKept(run: seq<Event>) {
    forall i :: 0 <= i < |run| ==> !run[i].LoseBoth? && !run[i].LoseStarts?
  }

  /** Every start of the last second is still in the sorted set. */
  ghost predicate Remembered(run: seq<Event>, y: System) {
    forall i :: 0 <= i < |y.starts| ==>
      || (y.starts[i].token in y.shared.starts && y.shared.starts[y.starts[i].token] == y.starts[i].at)
      || (run != [] && y.starts[i].at <= run[|run| - 1].now - 1.0)
  }

  /** The starts in the half-open second (t - 1, t]. */
  ghost function Window(starts: seq<Start>, t: real): set<nat> {
    set i: nat | i < |starts| && t - 1.0 < starts[i].at <= t
  }

  ghost predicate WithinLimit(starts: seq<Start>) {
    forall t :: |Window(starts, t)| <= WINDOW_LIMIT
  }

  lemma {:induction false} NoMoreIndicesThanTokens(I: set<nat>, starts: seq<Start>, tokens: set<Token>)
    requires Distinct(starts) && forall i :: i in I ==> i < |starts| && starts[i].token in tokens
    ensures |I| <= |tokens|
    decreases |I|
  {
    if I != {} {
      var i :| i in I;
      forall j | j in I - {i}
        ensures starts[j].token in tokens - {starts[i].token}
      {
        assert j < i || i < j;
      }
      NoMoreIndicesThanTokens(I - {i}, starts, tokens - {starts[i].token});
    }
  }

  /** A successful confirm sees every start that could share a window with it. */
  lemma {:induction false} ConfirmKeepsLimit(run: seq<Event>, now: real, token: Token)
    requires Legal(run) && Sane(run, After(run)) && Remembered(run, After(run)) && WithinLimit(After(run).starts)
    requires run != [] ==> run[|run| - 1].now <= now
    requires Confirm(After(run).shared, now, token).1
    ensures WithinLimit(After(run).starts + [Start(token, now)])
  {
    hide After, Legal;
    var y := After(run);
    var starts := y.starts + [Start(token, now)];
    var kept := Confirm(y.shared, now, token).0.starts;
    assert Distinct(starts);
    assert kept.Keys == Recent(y.shared.starts, now).Keys + {token};
    forall t
      ensures |Window(starts, t)| <= WINDOW_LIMIT
    {
      if t - 1.0 < now <= t {
        forall i | i in Window(starts, t)
          ensures starts[i].token in kept.Keys
        {
          if i < |y.starts| {
            assert starts[i] == y.starts[i] && y.starts[i].at > now - 1.0;
          }
        }
        NoMoreIndicesThanTokens(Window(starts, t), starts, kept.Keys);
      } else {
        assert Window(starts, t) <= Window(y.starts, t);
        SubsetCard(Window(starts, t), Window(y.starts, t));
      }
    }
  }

  lemma {:induction false} RememberedKeeps(run: seq<Event>, e: Event)
    requires Legal(run) && Sane(run, After(run)) && Remembered(run, After(run)) && RateInRange(e) && !e.LoseBoth? && !e.LoseStarts?
    requires run != [] ==> run[|run| - 1].now <= e.now
    ensures Remembered(run + [e], Step(After(run), e))
  {
    hide After, Legal;
  }

  lemma {:induction false} LimitKeeps(run: seq<Event>, e: Event)
    requires Legal(run) && Sane(run, After(run)) && Remembered(run, After(run)) && WithinLimit(After(run).starts) && RateInRange(e)
    requires run != [] ==> run[|run| - 1].now <= e.now
    ensures WithinLimit(Step(After(run), e).starts)
  {
    hide Reserve, Confirm, Cooldown, Remembered, Sane, Legal, After, WithinLimit;
    if e.DoConfirm? && Confirm(After(run).shared, e.now, e.token).1 {
      ConfirmKeepsLimit(run, e.now, e.token);
    }
  }

  lemma {:induction false} AlwaysWithinLimit(run: seq<Event>)
    requires Legal(run) && SetKept(run)
    ensures Remembered(run, After(run)) && WithinLimit(After(run).starts)
  {
    hide Step, RateInRange, Remembered, WithinLimit, Sane, Legal, After, SetKept;
    if run != [] {
      var front, e := run[..|run| - 1], run[|run| - 1];
      assert run == front + [e];
      SetKeptFront(run);
      AfterOne(front, e);
      AlwaysWithinLimit(front);
      AlwaysSane(front);
      RememberedKeeps(front, e);
      LimitKeeps(front, e);
    } else {
      NothingToRemember();
      NothingInWindows();
      AfterNothing();
    }
  }

  lemma {:induction false} SetKeptFront(run: seq<Event>)
    requires SetKept(run) && run != []
    ensures SetKept(run[..|run| - 1]) && !run[|run| - 1].LoseBoth? && !run[|run| - 1].LoseStarts?
  {
  }

  lemma {:induction false} AfterNothing()
    ensures Legal([]) && After([]) == BOOT
  {
  }

  lemma {:induction false} NothingInWindows()
    ensures WithinLimit(BOOT.starts)
  {
    forall t
      ensures |Window(BOOT.starts, t)| <= WINDOW_LIMIT
    {
      assert Window(BOOT.starts, t) == {};
    }
  }

  lemma {:induction false} NothingToRemember()
    ensures Remembered([], BOOT)
  {
  }

  /** However often the rate hash alone is lost, no second ever holds more than ten starts. */
  lemma {:induction false} NeverMoreThanTen(run: seq<Event>, t: real)
    requires Legal(run) && SetKept(run)
    ensures |Window(After(run).starts, t)| <= 10
  {
    hide After;
    AlwaysWithinLimit(run);
  }

  // ----- quiet after a loss

  /** The moment before which the command that recreates the hash forbids any start. */
  ghost function QuietUntil(e: Event): real
    requires e.DoReserve? || e.DoCooldown?
  {
    if e.DoReserve? then e.now + 1.0 else CooldownTarget(e.now, e.seconds)
  }

  /** Blocked at least until `quiet`, and every start after the first n keeps to it. */
  ghost predicate QuietSince(y: System, n: nat, quiet: real) {
    && y.shared.hash.Some? && y.shared.hash.value.blocked >= quiet
    && n <= |y.starts| && forall i :: n <= i < |y.starts| ==> y.starts[i].at >= quiet
  }

  /** After any loss, confirms change nothing until a reserve or cooldown recreates the hash, and
      from then on (without another loss) no start happens before that command's quiet time. */
  lemma {:induction false} QuietAfterLoss(run: seq<Event>, waiting: seq<Event>, opener: Event, later: seq<Event>)
    requires Legal(run + waiting + [opener] + later) && Legal(run)
    requires run != [] && (run[|run| - 1].LoseHash? || run[|run| - 1].LoseBoth?)
    requires forall i :: 0 <= i < |waiting| ==> waiting[i].DoConfirm?
    requires opener.DoReserve? || opener.DoCooldown?
    requires Kept(later)
    ensures QuietSince(After(run + waiting + [opener] + later), |After(run).starts|, QuietUntil(opener))
    decreases |later|
  {
    hide Step, RateInRange, QuietSince;
    if later == [] {
      assert run + waiting + [opener] + later == run + waiting + [opener];
      AfterOne(run + waiting, opener);
      ConfirmsWait(run, waiting);
      OpenerIsQuiet(After(run + waiting), opener);
    } else {
      var front, e := later[..|later| - 1], later[|later| - 1];
      assert run + waiting + [opener] + later == (run + waiting + [opener] + front) + [e];
      AfterOne(run + waiting + [opener] + front, e);
      QuietAfterLoss(run, waiting, opener, front);
      QuietKeeps(After(run + waiting + [opener] + front), e, |After(run).starts|, QuietUntil(opener));
    }
  }

  lemma {:induction false} OpenerIsQuiet(y: System, opener: Event)
    requires y.shared.hash.None? && RateInRange(opener) && (opener.DoReserve? || opener.DoCooldown?)
    ensures QuietSince(Step(y, opener), |y.starts|, QuietUntil(opener))
  {
  }

  lemma {:induction false} QuietKeeps(y: System, e: Event, n: nat, quiet: real)
    requires PositiveRate(y) && RateInRange(e) && !e.LoseHash? && !e.LoseBoth? && QuietSince(y, n, quiet)
    ensures QuietSince(Step(y, e), n, quiet)
  {
  }

  lemma {:induction false} ConfirmsWait(run: seq<Event>, waiting: seq<Event>)
    requires Legal(run + waiting) && Legal(run) && run != [] && (run[|run| - 1].LoseHash? || run[|run| - 1].LoseBoth?)
    requires forall i :: 0 <= i < |waiting| ==> waiting[i].DoConfirm?
    ensures After(run + waiting).shared.hash.None? && After(run + waiting).starts == After(run).starts
  {
    hide RateInRange;
    if waiting == [] {
      assert run + waiting == run;
    } else {
      var front, e := waiting[..|waiting| - 1], waiting[|waiting| - 1];
      assert run + waiting == (run + front) + [e];
      AfterOne(run + front, e);
      ConfirmsWait(run, front);
    }
  }

  /** If both keys are lost and the next command is a reserve, no one-second window holds starts
      from both sides of the loss. */
  lemma {:induction false} NoWindowSpansTheLoss(run: seq<Event>, waiting: seq<Event>, opener: Event, later: seq<Event>, i: nat, j: nat, t: real)
    requires Legal(run + waiting + [opener] + later) && Legal(run)
    requires run != [] && run[|run| - 1].LoseBoth?
    requires forall k :: 0 <= k < |waiting| ==> waiting[k].DoConfirm?
    requires opener.DoReserve? && Kept(later)
    requires i < |After(run).starts| <= j < |After(run + waiting + [opener] + later).starts|
    ensures !(t - 1.0 < After(run).starts[i].at && After(run + waiting + [opener] + later).starts[j].at <= t)
  {
    hide After, Sane;
    QuietAfterLoss(run, waiting, opener, later);
    AlwaysSane(run);
    StartsNotInFuture(run, After(run), i);
    var all := run + waiting + [opener] + later;
    assert all[|run| - 1] == run[|run| - 1] && all[|run| + |waiting|] == opener;
  }

  lemma {:induction false} StartsNotInFuture(run: seq<Event>, y: System, i: nat)
    requires Sane(run, y) && i < |y.starts|
    ensures run != [] && y.starts[i].at <= run[|run| - 1].now
  {
  }

  // ----- cooldowns are as long as asked for

  /** A cooldown of s seconds ends s seconds later; one without a length asks for review and ends with the
      year 9998, in seconds since 1970. */
  ghost function AskedUntil(at: real, seconds: Option<real>): real {
    match seconds
    case Some(s) => at + s
    case None => 253370764800.0
  }

  /** That second is the beginning of January 1, 9999. */
  lemma {:induction false} ReviewIsYear9999()
    ensures (Ordinal(Date(9999, 1, 1)) - Ordinal(Date(1970, 1, 1))) * 86400 == 253370764800
  {
  }

  lemma {:induction false} BlockedSince(run: seq<Event>, c: nat)
    requires Legal(run) && c < |run| && run[c].DoCooldown? && Legal(run[..c + 1])
    requires forall i :: c < i < |run| ==> !run[i].LoseHash? && !run[i].LoseBoth?
    ensures QuietSince(After(run), |After(run[..c + 1]).starts|, AskedUntil(run[c].now, run[c].seconds))
    decreases |run|
  {
    hide Step, RateInRange, QuietSince, AskedUntil, After, Legal;
    var front, e := run[..|run| - 1], run[|run| - 1];
    assert run == front + [e];
    AfterOne(front, e);
    if |run| == c + 1 {
      assert run[..c + 1] == run;
      CooldownBlocks(After(front), e);
    } else {
      assert front[..c + 1] == run[..c + 1];
      assert front[c] == run[c];
      BlockedSince(front, c);
      QuietKeeps(After(front), e, |After(run[..c + 1]).starts|, AskedUntil(run[c].now, run[c].seconds));
    }
  }

  lemma {:induction false} CooldownBlocks(y: System, e: Event)
    requires PositiveRate(y) && RateInRange(e) && e.DoCooldown?
    ensures QuietSince(Step(y, e), |Step(y, e).starts|, AskedUntil(e.now, e.seconds))
  {
  }

  /** While the hash is kept, no start follows a cooldown before the time that was asked for, whatever
      reserves, confirms and further cooldowns come between; a review stops starts until the year 9999. */
  lemma {:induction false} CooldownWaits(run: seq<Event>, c: nat, now: real, token: Token)
    requires Legal(run) && c < |run| && run[c].DoCooldown? && Legal(run[..c + 1])
    requires forall i :: c < i < |run| ==> !run[i].LoseHash? && !run[i].LoseBoth?
    requires Confirm(After(run).shared, now, token).1
    ensures run[c].seconds.Some? ==> now >= run[c].now + run[c].seconds.value
    ensures run[c].seconds.None? ==> now >= 253370764800.0
  {
    hide After;
    BlockedSince(run, c);
  }

  // ----- a start that is due is granted

  /** Nothing stands in the way at time t: reserves are a second old, cooldowns are over, and the last
      starts leave room at the given rate. */
  ghost predicate Due(run: seq<Event>, y: System, rate: real, t: real)
    requires rate > 0.0
  {
    && t >= 1.0
    && (forall i :: 0 <= i < |run| && run[i].DoReserve? ==> run[i].now + 1.0 <= t)
    && (forall i :: 0 <= i < |y.cooldowns| ==> y.cooldowns[i] <= t)
    && (forall i :: 0 <= i < |y.starts| ==> y.starts[i].at + 1.0 / rate <= t)
  }

  /** What the hash blocks comes from a reserve or a cooldown of the run, and its last start from a start. */
  ghost predicate Explained(run: seq<Event>, y: System) {
    && (forall t :: t in y.shared.starts ==> exists i :: 0 <= i < |y.starts| && y.starts[i] == Start(t, y.shared.starts[t]))
    && (y.shared.hash.Some? ==>
          var h := y.shared.hash.value;
          && (h.last == 0.0 || exists i :: 0 <= i < |y.starts| && y.starts[i].at == h.last)
          && (h.blocked <= 0.0 || h.blocked in y.cooldowns || exists i :: 0 <= i < |run| && run[i].DoReserve? && h.blocked == run[i].now + 1.0)
          && (h.expires.Some? ==> exists i :: 0 <= i < |run| && run[i].DoReserve? && h.expires.value == run[i].now + 0.05))
  }

  lemma {:induction false} ExplainedKeeps(run: seq<Event>, e: Event, y: System)
    requires Explained(run, y) && PositiveRate(y) && RateInRange(e)
    ensures Explained(run + [e], Step(y, e))
  {
    var all, z := run + [e], Step(y, e);
    assert all[|run|] == e;
    if y.shared.hash.Some? {
      var h := y.shared.hash.value;
      if i :| 0 <= i < |run| && run[i].DoReserve? && h.blocked == run[i].now + 1.0 {
        assert all[i] == run[i];
      }
      if i :| 0 <= i < |run| && run[i].DoReserve? && h.expires == Some(run[i].now + 0.05) {
        assert all[i] == run[i];
      }
      if i :| 0 <= i < |y.starts| && y.starts[i].at == h.last {
        assert z.starts[i] == y.starts[i];
      }
    }
    forall t | t in z.shared.starts
      ensures exists i :: 0 <= i < |z.starts| && z.starts[i] == Start(t, z.shared.starts[t])
    {
      if t in y.shared.starts && z.shared.starts[t] == y.shared.starts[t] {
        var i :| 0 <= i < |y.starts| && y.starts[i] == Start(t, y.shared.starts[t]);
        assert z.starts[i] == y.starts[i];
      } else {
        assert z.starts[|y.starts|] == Start(t, z.shared.starts[t]);
      }
    }
    if e.DoConfirm? && |z.starts| > |y.starts| {
      assert z.starts[|y.starts|].at == e.now;
    }
  }

  lemma {:induction false} AlwaysExplained(run: seq<Event>)
    requires Legal(run)
    ensures Explained(run, After(run))
  {
    hide Step, RateInRange, Explained;
    if run != [] {
      var front, e := run[..|run| - 1], run[|run| - 1];
      assert run == front + [e];
      AfterOne(front, e);
      AlwaysExplained(front);
      ExplainedKeeps(front, e, After(front));
    } else {
      NothingToExplain();
    }
  }

  lemma {:induction false} NothingToExplain()
    ensures Explained([], BOOT)
  {
  }

  /** The recent entries of the sorted set are starts of the last second. */
  lemma {:induction false} RecentAreStarts(keys: set<Token>, starts: seq<Start>, at: map<Token, real>, I: set<nat>, now: real)
    requires forall t :: t in keys ==> t in at && exists i :: i in I && i < |starts| && starts[i].token == t
    ensures |keys| <= |I|
    decreases |keys|
  {
    if keys != {} {
      var t :| t in keys;
      var i :| i in I && i < |starts| && starts[i].token == t;
      forall u | u in keys - {t}
        ensures u in at && exists j :: j in I - {i} && j < |starts| && starts[j].token == u
      {
        var j :| j in I && j < |starts| && starts[j].token == u;
        assert j != i;
      }
      RecentAreStarts(keys - {t}, starts, at, I - {i}, now);
    }
  }

  lemma {:induction false} RoomInTheWindow(run: seq<Event>, y: System, now: real)
    requires Explained(run, y) && (forall i :: 0 <= i < |y.starts| ==> y.starts[i].at <= now) && |Window(y.starts, now)| < 10
    ensures |Recent(y.shared.starts, now)| < 10
  {
    var keys := Recent(y.shared.starts, now).Keys;
    forall t | t in keys
      ensures t in y.shared.starts && exists i :: i in Window(y.starts, now) && i < |y.starts| && y.starts[i].token == t
    {
      var i: nat :| i < |y.starts| && y.starts[i] == Start(t, y.shared.starts[t]);
      assert i in Window(y.starts, now);
    }
    RecentAreStarts(keys, y.starts, y.shared.starts, Window(y.starts, now), now);
    assert |Recent(y.shared.starts, now)| == |keys|;
  }

  /** A reserve at a time when a start is due is granted, and its confirm at once is a start, if the last
      second holds fewer than ten. */
  lemma {:induction false} DueStartIsGranted(run: seq<Event>, now: real, rate: real, token: Token)
    requires Legal(run) && 1.0 <= rate <= 10.0 && After(run).shared.hash.Some? && After(run).shared.hash.value.rate == rate
    requires Due(run, After(run), rate, now) && (run != [] ==> run[|run| - 1].now <= now) && |Window(After(run).starts, now)| < 10
    ensures var (granted, reply) := Reserve(After(run).shared, now, rate, token);
            reply.Granted? && Confirm(granted, now, token).1
  {
    AlwaysExplained(run);
    AlwaysSane(run);
    hide After, Legal, Sane;
    var y := After(run);
    var h := y.shared.hash.value;
    StartsBeforeNow(run, y, now);
    RoomInTheWindow(run, y, now);
    AtMostOne(rate);
    DueIsReady(run, y, rate, now);
    assert Ready(h) <= now;
    assert h.blocked <= now;
  }

  lemma {:induction false} StartsBeforeNow(run: seq<Event>, y: System, now: real)
    requires Sane(run, y) && (run != [] ==> run[|run| - 1].now <= now)
    ensures forall i :: 0 <= i < |y.starts| ==> y.starts[i].at <= now
  {
  }

  lemma {:induction false} DueIsReady(run: seq<Event>, y: System, rate: real, now: real)
    requires Explained(run, y) && y.shared.hash.Some? && y.shared.hash.value.rate == rate && rate >= 1.0 && Due(run, y, rate, now)
    ensures Ready(y.shared.hash.value) <= now && y.shared.hash.value.blocked <= now
  {
    AtMostOne(rate);
    var h := y.shared.hash.value;
    if i :| 0 <= i < |y.cooldowns| && y.cooldowns[i] == h.blocked {
      assert h.blocked <= now;
    }
  }

  // ----- spacing under any loss

  /** Rates leave the gap, and a cooldown that recreates a lost hash blocks for at least the gap. */
  ghost predicate GuardedStep(y: System, e: Event, gap: real) {
    && (e.DoReserve? || e.DoCooldown? ==> e.rate > 0.0 && gap <= 1.0 / e.rate)
    && (e.DoCooldown? && y.shared.hash.None? ==> CooldownTarget(e.now, e.seconds) >= e.now + gap)
  }

  ghost predicate Guarded(run: seq<Event>, gap: real)
    requires Legal(run)
  {
    run == [] || (Guarded(run[..|run| - 1], gap) && GuardedStep(After(run[..|run| - 1]), run[|run| - 1], gap))
  }

  /** The hash knows the latest start, or is blocked until the gap has passed since. */
  ghost predicate Remote(run: seq<Event>, y: System, gap: real) {
    && Spaced(y.starts, gap)
    && (y.shared.hash.Some? ==> y.shared.hash.value.rate > 0.0 && gap <= 1.0 / y.shared.hash.value.rate)
    && (y.starts != [] && y.shared.hash.Some? ==>
          var h, latest := y.shared.hash.value, y.starts[|y.starts| - 1].at;
          && (h.last == latest || h.blocked >= latest + gap)
          && (h.pending.Some? ==> run != [] && latest + gap <= run[|run| - 1].now))
  }

  lemma {:induction false} RemoteKeeps(run: seq<Event>, e: Event, gap: real)
    requires Legal(run) && Sane(run, After(run)) && RateInRange(e)
    requires gap > 0.0 && Remote(run, After(run), gap) && GuardedStep(After(run), e, gap)
    requires run != [] ==> run[|run| - 1].now <= e.now
    ensures Remote(run + [e], Step(After(run), e), gap)
  {
    hide After, Legal;
    var y := After(run);
    if y.starts != [] {
      assert run != [] && y.starts[|y.starts| - 1].at <= e.now;
    }
    match e {
      case DoReserve(_, _, _) => ReserveStaysRemote(run, e, y, gap);
      case DoConfirm(_, _) => ConfirmStaysRemote(run, e, y, gap);
      case DoCooldown(_, _, _) => CooldownStaysRemote(run, e, y, gap);
      case LoseHash(_) =>
      case LoseStarts(_) =>
      case LoseBoth(_) =>
    }
  }

  lemma {:induction false} ReserveStaysRemote(run: seq<Event>, e: Event, y: System, gap: real)
    requires e.DoReserve? && Remote(run, y, gap) && RateInRange(e) && PositiveRate(y) && GuardedStep(y, e, gap)
    requires run != [] ==> run[|run| - 1].now <= e.now
    requires y.starts != [] ==> run != [] && y.starts[|y.starts| - 1].at <= e.now
    ensures Remote(run + [e], Step(y, e), gap)
  {
    hide Spaced;
    AtMostOne(e.rate);
    assert (run + [e])[|run|] == e;
  }

  lemma {:induction false} AtMostOne(rate: real)
    requires rate >= 1.0
    ensures 0.0 < 1.0 / rate <= 1.0
  {
  }

  lemma {:induction false} CooldownStaysRemote(run: seq<Event>, e: Event, y: System, gap: real)
    requires e.DoCooldown? && Remote(run, y, gap) && RateInRange(e) && PositiveRate(y) && GuardedStep(y, e, gap)
    requires y.starts != [] ==> run != [] && y.starts[|y.starts| - 1].at <= e.now
    ensures Remote(run + [e], Step(y, e), gap)
  {
    hide Spaced;
  }

  lemma {:induction false} ConfirmStaysRemote(run: seq<Event>, e: Event, y: System, gap: real)
    requires e.DoConfirm? && gap > 0.0 && Remote(run, y, gap) && PositiveRate(y)
    requires run != [] ==> run[|run| - 1].now <= e.now
    ensures Remote(run + [e], Step(y, e), gap)
  {
    hide Recent;
    assert (run + [e])[|run|] == e;
    var z := Step(y, e);
    if z.starts != y.starts && y.starts != [] {
      var latest := y.starts[|y.starts| - 1].at;
      assert latest + gap <= e.now;
      forall i | 0 <= i < |y.starts|
        ensures e.now - y.starts[i].at >= gap
      {
        assert i < |y.starts| - 1 ==> latest - y.starts[i].at >= gap;
      }
    }
  }

  lemma {:induction false} AlwaysRemote(run: seq<Event>, gap: real)
    requires Legal(run) && gap > 0.0 && Guarded(run, gap)
    ensures Remote(run, After(run), gap)
  {
    hide Step, RateInRange, GuardedStep, Remote;
    if run != [] {
      var front, e := run[..|run| - 1], run[|run| - 1];
      assert run == front + [e];
      AfterOne(front, e);
      AlwaysRemote(front, gap);
      AlwaysSane(front);
      RemoteKeeps(front, e, gap);
    } else {
      RemoteFromBoot(gap);
    }
  }

  lemma {:induction false} RemoteFromBoot(gap: real)
    ensures Remote([], BOOT, gap)
  {
  }

  /** However often either key or both are lost: if every rate leaves the gap, and every cooldown that
      recreates a lost hash blocks for at least the gap, starts stay the gap apart. */
  lemma {:induction false} SpacingSurvivesLoss(run: seq<Event>, gap: real, i: nat, j: nat)
    requires Legal(run) && gap > 0.0 && Guarded(run, gap) && i < j < |After(run).starts|
    ensures After(run).starts[j].at - After(run).starts[i].at >= gap
  {
    hide After, Guarded;
    AlwaysRemote(run, gap);
  }

  lemma {:induction false} SpacedFar(starts: seq<Start>, gap: real, i: nat, j: nat)
    requires Spaced(starts, gap) && i <= j < |starts|
    ensures starts[j].at - starts[i].at >= (j - i) as real * gap
    decreases j
  {
    if i < j {
      SpacedFar(starts, gap, i, j - 1);
      assert starts[j].at - starts[j - 1].at >= gap;
      assert (j - i) as real * gap == (j - 1 - i) as real * gap + gap;
    }
  }

  lemma {:induction false} FewIndices(I: set<nat>, low: nat, n: nat)
    requires forall i :: i in I ==> low <= i < low + n
    ensures |I| <= n
    decreases n
  {
    if n > 0 {
      var last: nat := low + n - 1;
      var rest := I - {last};
      FewIndices(rest, low, n - 1);
      SubsetCard(I, rest + {last});
      assert |rest + {last}| == |rest| + 1;
    } else {
      assert I == {};
    }
  }

  lemma {:induction false} LeastIndex(I: set<nat>) returns (low: nat)
    requires I != {}
    ensures low in I && forall i :: i in I ==> low <= i
    decreases |I|
  {
    var some: nat :| some in I;
    var rest := I - {some};
    low := some;
    if rest != {} {
      var other := LeastIndex(rest);
      low := if other < some then other else some;
    }
    forall i | i in I
      ensures low <= i
    {
      assert i == some || i in rest;
    }
  }

  /** Under the same guard a tenth of a second apart, no second holds more than ten starts even when the
      sorted set is lost as well. */
  lemma {:induction false} TenUnderAnyLoss(run: seq<Event>, t: real)
    requires Legal(run) && Guarded(run, 0.1)
    ensures |Window(After(run).starts, t)| <= 10
  {
    hide After, Guarded;
    AlwaysRemote(run, 0.1);
    var starts := After(run).starts;
    var I := Window(starts, t);
    if I != {} {
      var low := LeastIndex(I);
      forall i | i in I
        ensures low <= i < low + 10
      {
        SpacedFar(starts, 0.1, low, i);
        assert (i - low) as real < 10.0;
      }
      FewIndices(I, low, 10);
    }
  }

  /** Conversely, whatever the rate, any shorter reopening cooldown lets two starts come that close:
      the bound on it cannot be lowered. */
  lemma {:induction false} ShortReopeningBreaksSpacing(rate: real, s: real)
    requires 1.0 <= rate <= 10.0 && 0.0 <= s < 1.0 / rate
    ensures var run := ShortReopening(rate, s);
            && Legal(run) && |After(run).starts| == 2
            && After(run).starts[1].at - After(run).starts[0].at == s < 1.0 / rate
  {
    hide Legal, Step, RateInRange, After;
    ShortReopeningIsLegal(rate, s);
    SevenSteps(DoReserve(0.0, rate, 0), DoReserve(2.0, rate, 1), DoConfirm(2.0, 1), LoseHash(2.0),
               DoCooldown(2.0, Some(s), rate), DoReserve(2.0 + s, rate, 2), DoConfirm(2.0 + s, 2));
    AtMostOne(rate);
    var y2 := System(Shared(Some(Hash(rate, 1.0, 0.0, Some(1), Some(2.0 + GRANT_SECONDS))), map[]), [], []);
    var y4 := System(Shared(None, map[1 := 2.0]), [Start(1, 2.0)], []);
    var y6 := System(Shared(Some(Hash(rate, 2.0 + s, 0.0, Some(2), Some(2.0 + s + GRANT_SECONDS))), map[1 := 2.0]), [Start(1, 2.0)], [2.0 + s]);
    FirstGrant(rate, y2);
    FirstStartThenLoss(rate, y2, y4);
    SecondGrant(rate, s, y4, y6);
    SecondStart(rate, s, y6);
  }

  function ShortReopening(rate: real, s: real): seq<Event> {
    [DoReserve(0.0, rate, 0), DoReserve(2.0, rate, 1), DoConfirm(2.0, 1), LoseHash(2.0),
     DoCooldown(2.0, Some(s), rate), DoReserve(2.0 + s, rate, 2), DoConfirm(2.0 + s, 2)]
  }

  lemma {:induction false} ShortReopeningIsLegal(rate: real, s: real)
    requires 1.0 <= rate <= 10.0 && s >= 0.0
    ensures Legal(ShortReopening(rate, s))
  {
  }

  lemma {:induction false} FirstGrant(rate: real, y: System)
    requires 1.0 <= rate <= 10.0 && 1.0 / rate <= 1.0
    requires y == System(Shared(Some(Hash(rate, 1.0, 0.0, Some(1), Some(2.0 + GRANT_SECONDS))), map[]), [], [])
    ensures RateInRange(DoReserve(0.0, rate, 0)) && RateInRange(DoReserve(2.0, rate, 1))
    ensures Step(Step(BOOT, DoReserve(0.0, rate, 0)), DoReserve(2.0, rate, 1)) == y
  {
  }

  lemma {:induction false} FirstStartThenLoss(rate: real, y: System, z: System)
    requires 1.0 <= rate <= 10.0
    requires y == System(Shared(Some(Hash(rate, 1.0, 0.0, Some(1), Some(2.0 + GRANT_SECONDS))), map[]), [], [])
    requires z == System(Shared(None, map[1 := 2.0]), [Start(1, 2.0)], [])
    ensures RateInRange(DoConfirm(2.0, 1)) && RateInRange(LoseHash(2.0)) && PositiveRate(y)
    ensures Step(Step(y, DoConfirm(2.0, 1)), LoseHash(2.0)) == z
  {
    LoneStart(map[], 2.0);
  }

  lemma {:induction false} SecondGrant(rate: real, s: real, y: System, z: System)
    requires 1.0 <= rate <= 10.0 && 1.0 / rate <= 1.0 && s >= 0.0
    requires y == System(Shared(None, map[1 := 2.0]), [Start(1, 2.0)], [])
    requires z == System(Shared(Some(Hash(rate, 2.0 + s, 0.0, Some(2), Some(2.0 + s + GRANT_SECONDS))), map[1 := 2.0]), [Start(1, 2.0)], [2.0 + s])
    ensures RateInRange(DoCooldown(2.0, Some(s), rate)) && RateInRange(DoReserve(2.0 + s, rate, 2))
    ensures Step(Step(y, DoCooldown(2.0, Some(s), rate)), DoReserve(2.0 + s, rate, 2)) == z
  {
  }

  lemma {:induction false} SecondStart(rate: real, s: real, y: System)
    requires 1.0 <= rate <= 10.0 && 0.0 <= s < 1.0
    requires y == System(Shared(Some(Hash(rate, 2.0 + s, 0.0, Some(2), Some(2.0 + s + GRANT_SECONDS))), map[1 := 2.0]), [Start(1, 2.0)], [2.0 + s])
    ensures RateInRange(DoConfirm(2.0 + s, 2)) && PositiveRate(y)
    ensures Step(y, DoConfirm(2.0 + s, 2)).starts == [Start(1, 2.0), Start(2, 2.0 + s)]
  {
    LoneStart(map[1 := 2.0], 2.0 + s);
  }

  lemma {:induction false} LoneStart(starts: map<Token, real>, now: real)
    requires |starts.Keys| <= 1 && forall t :: t in starts ==> now - 1.0 < starts[t]
    ensures Recent(starts, now) == starts && |starts| < WINDOW_LIMIT
  {
  }

  lemma {:induction false} SevenSteps(a: Event, b: Event, c: Event, d: Event, e: Event, f: Event, g: Event)
    requires Legal([a, b, c, d, e, f, g])
    ensures RateInRange(a) && RateInRange(b) && RateInRange(c) && RateInRange(d) && RateInRange(e) && RateInRange(f) && RateInRange(g)
    ensures After([a, b, c, d, e, f, g]) == Step(Step(Step(Step(Step(Step(Step(BOOT, a), b), c), d), e), f), g)
  {
    hide Legal, Step, RateInRange;
    assert [a, b, c, d, e, f] + [g] == [a, b, c, d, e, f, g];
    AfterOne([a, b, c, d, e, f], g);
    assert [a, b, c, d, e] + [f] == [a, b, c, d, e, f];
    AfterOne([a, b, c, d, e], f);
    assert [a, b, c, d] + [e] == [a, b, c, d, e];
    AfterOne([a, b, c, d], e);
    assert [a, b, c] + [d] == [a, b, c, d];
    AfterOne([a, b, c], d);
    assert [a, b] + [c] == [a, b, c];
    AfterOne([a, b], c);
    assert [a] + [b] == [a, b];
    AfterOne([a], b);
    assert [] + [a] == [a];
    AfterOne([], a);
  }
}
