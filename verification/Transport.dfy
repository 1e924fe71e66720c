/**
 The bounded retry machine of one live fetch (packages/ingest/transport.py SecTransport.fetch):
 at most three durable attempts, a permit confirmed for each send, redirects and conditional
 answers, and the bookkeeping that survives every behaviour of the environment.
 */
module Transport {
  import opened Common

  const ATTEMPTS: nat := 3

  /** An archived capture; `id` stands for its whole identity. */
  datatype Record = Record(id: nat, status: int, url: string, validators: bool) {
    predicate Successful() {
      200 <= status < 300
    }
  }

  datatype Outcome =
    | Complete | NotModified | ContentUnchanged | Redirected | RedirectRefused | HttpError
    | TransportError | BodyLimit | ArchiveFailed | Cancelled

  datatype Gap =
    | LeaseLost | CoordinationUnavailable | RateDeferred | PermitExpired | RedirectWasRefused | HttpFailed
    | RetryAfterReview | AccessDeferred | BudgetExhausted | BodyProblem(outcome: Outcome)

  /** What happened, in order; `attempt` is the attempt's own identity. */
  datatype Action =
    | Prepared(attempt: nat, url: string)
    | Confirmed(attempt: nat)
    | Sent(attempt: nat, url: string)
    | Finished(attempt: nat, outcome: Outcome)
    | CooledDown(seconds: Option<real>)

  datatype FetchResult = FetchResult(records: seq<Record>, attempts: seq<Listed>, gap: Option<Gap>)

  datatype Listed = Listed(attempt: nat, outcome: Outcome)

  // ----- the environment

  /** A Retry-After field value: delay-seconds or an HTTP-date, section 10.2.3 of RFC 9110. */
  datatype RetryAfter = Absent | Seconds(n: nat) | HttpDate(fromNow: real) | Unreadable

  /** A Location field: its text, the path within it, and what it resolves to from the current URL. */
  datatype Location = NoLocation | Given(text: string, path: string, resolved: string)

  /** How leaving the response ends: close() may raise a transport error or an operating-system error. */
  datatype Close = Closed | TransportErrorOnClose | OsErrorOnClose

  datatype Body = Stored | Incomplete | TooLarge | Undecodable | NotArchived | DeadlineDuringBody

  datatype Response = Response(
    status: int,
    location: Location,
    headersReadable: bool,
    headersLoseLease: bool,
    deadlineAfterHeaders: bool,
    reverified: bool,
    deadlineAfterVerify: bool,
    body: Body,
    payloadSaved: bool,
    payloadLosesLease: bool,
    sameAsCached: bool,
    cachedVerified: bool,
    capture: nat,
    retryAfter: RetryAfter,
    close: Close)

  datatype Dispatch =
    | Deferred | Uncoordinated | Expired
    | LostBeforeSend
    | DeadlineBeforeSend
    | ConfirmRefused | ConfirmUncoordinated
    | SendFailed
    | Answered(response: Response)

  /** Everything the surroundings decide about one attempt. */
  datatype Environment = Environment(
    prepareLosesLease: bool,
    dispatch: Dispatch,
    finishLosesLease: bool,
    repeatLosesLease: bool,
    cooldownUnavailable: bool,
    cooldownFits: bool,
    waitFits: bool)

  // ----- pure helpers

  /** The parts of a path between slashes. */
  function Segments(path: string): (parts: seq<string>)
    ensures parts != []
  {
    if path == "" then [""] else
      var front, last := Segments(path[..|path| - 1]), path[|path| - 1];
      if last == '/' then front + [""] else front[|front| - 1 := front[|front| - 1] + [last]]
  }

  /** The lexical screening: no blanks or controls, escapes, backslashes or parent segments. */
  predicate Screened(text: string, path: string) {
    && 0 < |text| <= 2048
    && (forall i :: 0 <= i < |text| ==> text[i] > ' ' && text[i] != '%' && text[i] != '\\')
    && ".." !in Segments(path)
  }

  /** A redirect may only lead back to the approved resource; `plain` says that the resource's own URL is
      https on its host, without user, query, fragment or escapes. */
  function ValidateRedirect(resource: string, plain: bool, location: Location): (target: Option<string>)
    ensures target.Some? ==> target.value == resource
    ensures target.Some? <==> location.Given? && Screened(location.text, location.path) && plain && location.resolved == resource
  {
    if location.Given? && Screened(location.text, location.path) && plain && location.resolved == resource
    then Some(location.resolved) else None
  }

  predicate IsRedirect(status: int) {
    status == 301 || status == 302 || status == 303 || status == 307 || status == 308
  }

  predicate Retryable(status: int) {
    status == 408 || status == 429 || status == 500 || status == 502 || status == 503 || status == 504
  }

  /** The requested delay, None when it is beyond the representable calendar; a wait is never made
      shorter than the server asked. `horizon` is the time left to the end of the year 9998. */
  function RetryDelay(value: RetryAfter, horizon: real): (delay: Option<real>)
    requires horizon > 0.0
    ensures delay.Some? ==> 0.0 <= delay.value
    ensures value.Seconds? ==> delay.None? || delay.value == value.n as real
    ensures value.HttpDate? ==> delay.None? || delay.value >= value.fromNow
    ensures value.Absent? || value.Unreadable? ==> delay == Some(0.0)
    ensures delay.None? <==> (value.Seconds? && value.n as real >= horizon) || (value.HttpDate? && value.fromNow >= horizon)
    ensures value.HttpDate? && delay.Some? ==> delay.value == 0.0 || delay.value == value.fromNow
  {
    match value
    case Absent => Some(0.0)
    case Unreadable => Some(0.0)
    case Seconds(n) => if n as real < horizon then Some(n as real) else None
    case HttpDate(t) => if t >= horizon then None else Some(Max(0.0, t))
  }

  /** The cooldown after an error answer: refused access waits ten minutes, throttling one second. */
  function CooldownSeconds(status: int, delay: real): (d: real)
    ensures d >= delay
    ensures status == 403 ==> d >= 600.0
    ensures status == 429 ==> d >= 1.0
    ensures d == delay || (status == 403 && d == 600.0 && delay < 600.0) || (status == 429 && d == 1.0 && delay < 1.0)
  {
    if status == 403 then Max(600.0, delay) else if status == 429 then Max(1.0, delay) else delay
  }

  // ----- bookkeeping over the log

  function PreparedIn(log: seq<Action>): seq<nat> {
    if log == [] then [] else
      PreparedIn(log[..|log| - 1]) + (if log[|log| - 1].Prepared? then [log[|log| - 1].attempt] else [])
  }

  function FinishedIn(log: seq<Action>): seq<Listed> {
    if log == [] then [] else
      FinishedIn(log[..|log| - 1]) + (if log[|log| - 1].Finished? then [Listed(log[|log| - 1].attempt, log[|log| - 1].outcome)] else [])
  }

  function Ids(listed: seq<Listed>): (ids: seq<nat>)
    ensures |ids| == |listed| && forall i :: 0 <= i < |ids| ==> ids[i] == listed[i].attempt
  {
    seq(|listed|, i requires 0 <= i < |listed| => listed[i].attempt)
  }

  /** A send is the very next action after the confirmation of its own attempt's permit, and everything
      prepared or sent is for the resource. */
  ghost predicate SendsConfirmed(log: seq<Action>, url: string) {
    && (forall i :: 0 <= i < |log| && log[i].Sent? ==>
        i > 0 && log[i - 1] == Confirmed(log[i].attempt) && log[i].url == url)
    && (forall i :: 0 <= i < |log| && log[i].Prepared? ==> log[i].url == url)
  }

  /** Attempts first..last, one after the other. */
  function Upto(n: nat): (s: seq<nat>)
    ensures |s| == n && forall i :: 0 <= i < n ==> s[i] == i + 1
  {
    seq(n, i => i + 1)
  }

  lemma {:induction false} OneMoreId(n: nat)
    requires n >= 1
    ensures Upto(n) == Upto(n - 1) + [n]
  {
  }

  lemma {:induction false} OneMore(log: seq<Action>, a: Action)
    ensures PreparedIn(log + [a]) == PreparedIn(log) + (if a.Prepared? then [a.attempt] else [])
    ensures FinishedIn(log + [a]) == FinishedIn(log) + (if a.Finished? then [Listed(a.attempt, a.outcome)] else [])
  {
    assert (log + [a])[..|log|] == log;
  }

  lemma {:induction false} SendsStay(log: seq<Action>, a: Action, url: string)
    requires SendsConfirmed(log, url)
    requires a.Sent? ==> log != [] && log[|log| - 1] == Confirmed(a.attempt) && a.url == url
    requires a.Prepared? ==> a.url == url
    ensures SendsConfirmed(log + [a], url)
  {
    var all := log + [a];
    forall i | 0 <= i < |all| && all[i].Sent?
      ensures i > 0 && all[i - 1] == Confirmed(all[i].attempt) && all[i].url == url
    {
      if i < |log| {
        assert all[i] == log[i] && (i > 0 ==> all[i - 1] == log[i - 1]);
      }
    }
  }

  ghost predicate NoneSuccessful(records: seq<Record>) {
    forall i :: 0 <= i < |records| ==> !records[i].Successful()
  }

  /** Exactly one successful capture, and it is the last record. */
  ghost predicate OneSuccessful(records: seq<Record>) {
    |records| > 0 && records[|records| - 1].Successful() && NoneSuccessful(records[..|records| - 1])
  }

  lemma {:induction false} EitherKind(records: seq<Record>)
    ensures OneSuccessful(records) ==> records != [] && !NoneSuccessful(records)
  {
  }

  lemma {:induction false} AloneSuccessful(record: Record)
    requires record.Successful()
    ensures OneSuccessful([record])
  {
  }

  lemma {:induction false} NothingUpto()
    ensures Upto(0) == [] && PreparedIn([]) == [] && FinishedIn([]) == [] && Ids([]) == []
  {
  }

  // ----- the machine

  datatype Mode = Refresh | Reuse | Conditional

  /** What one attempt leads to; Crash is an exception that leaves fetch(). */
  datatype Next =
    | Return(gap: Option<Gap>)
    | Backoff
    | Again
    | Crash

  /** The exceptions that leave the block around an open response. */
  datatype Fault = LeaseGone | CoordinationGone | TransferFailed | ArchiveError(outcome: Outcome)

  /** How that block is left: with a decision, after finish(), or with an exception. */
  datatype Block = Left(next: Next) | Threw(fault: Fault)

  /** finish() has succeeded inside the block. */
  predicate HasFinished(block: Block) {
    block.Left? || block.fault.CoordinationGone?
  }

  // ----- what the environment decides

  /** A conditional fetch asks with the cached record, if it carries validators. */
  function FirstValidator(mode: Mode, cached: Option<Record>): Option<Record> {
    if mode.Conditional? && cached.Some? && cached.value.validators then cached else None
  }

  /** What a fetch is set up with. */
  datatype Setup = Setup(resource: string, plain: bool, monitor: bool, cached: Option<Record>)

  /** The response is closed with an error. */
  predicate ClosesBadly(env: Environment) {
    env.dispatch.Answered? && !env.dispatch.response.close.Closed?
  }

  /** Some step of the attempt reports a lost lease. */
  predicate LosesLease(env: Environment) {
    || env.prepareLosesLease || env.finishLosesLease || env.repeatLosesLease || env.dispatch.LostBeforeSend?
    || (env.dispatch.Answered? && (env.dispatch.response.headersLoseLease || env.dispatch.response.payloadLosesLease))
  }

  function FinishDecision(env: Environment, next: Next): Block {
    if env.finishLosesLease then Threw(LeaseGone) else Left(next)
  }

  function RedirectDecision(c: Setup, n: nat, env: Environment, r: Response): Block {
    var follow := IsRedirect(r.status) && ValidateRedirect(c.resource, c.plain, r.location).Some? && n < ATTEMPTS;
    FinishDecision(env, if follow then Again else Return(Some(RedirectWasRefused)))
  }

  function ErrorDecision(env: Environment, r: Response, horizon: real): Block
    requires horizon > 0.0
  {
    var delay := RetryDelay(r.retryAfter, horizon);
    var cools := delay.None? || r.status == 403 || r.status == 429 || delay.value != 0.0;
    if env.finishLosesLease then Threw(LeaseGone)
    else if cools && env.cooldownUnavailable then Threw(CoordinationGone)
    else if delay.None? then Left(Return(Some(RetryAfterReview)))
    else if cools && (r.status == 403 || !env.cooldownFits) then Left(Return(Some(AccessDeferred)))
    else Left(if Retryable(r.status) then Backoff else Return(Some(HttpFailed)))
  }

  /** How the block around an open response is left, given the validator in force. */
  function ResponseDecision(c: Setup, n: nat, env: Environment, r: Response, v: Option<Record>, horizon: real): Block
    requires horizon > 0.0
  {
    if r.headersLoseLease then Threw(LeaseGone)
    else if !r.headersReadable then Threw(ArchiveError(TransportError))
    else if r.deadlineAfterHeaders then Threw(TransferFailed)
    else if r.status == 304 then
      if v.None? || !r.reverified then FinishDecision(env, Again)
      else if r.deadlineAfterVerify then Threw(TransferFailed)
      else FinishDecision(env, Return(None))
    else match r.body
      case Incomplete => Threw(TransferFailed)
      case DeadlineDuringBody => Threw(TransferFailed)
      case TooLarge => Threw(ArchiveError(BodyLimit))
      case Undecodable => Threw(ArchiveError(TransportError))
      case NotArchived => Threw(ArchiveError(ArchiveFailed))
      case Stored =>
        if c.monitor && r.status == 200 && r.payloadLosesLease then Threw(LeaseGone)
        else if c.monitor && r.status == 200 && (!r.payloadSaved || (c.cached.Some? && r.sameAsCached && !r.cachedVerified))
        then Threw(ArchiveError(ArchiveFailed))
        else if 200 <= r.status < 300 then FinishDecision(env, Return(None))
        else if 300 <= r.status < 400 then RedirectDecision(c, n, env, r)
        else ErrorDecision(env, r, horizon)
  }

  /** The handlers around an attempt that is still open. */
  function HandleDecision(env: Environment, fault: Fault): Next {
    if fault.LeaseGone? || env.finishLosesLease then Return(Some(LeaseLost))
    else match fault
      case TransferFailed => Backoff
      case ArchiveError(outcome) => Return(Some(BodyProblem(outcome)))
      case CoordinationGone => Return(Some(CoordinationUnavailable))
  }

  /** A close that fails after finish() ends the fetch; before finish() it takes the place of the decision. */
  function LeaveDecision(env: Environment, close: Close, block: Block): Next {
    if !close.Closed? && HasFinished(block) then (if env.repeatLosesLease then Return(Some(LeaseLost)) else Crash)
    else if close.TransportErrorOnClose? then HandleDecision(env, TransferFailed)
    else if close.OsErrorOnClose? then HandleDecision(env, ArchiveError(ArchiveFailed))
    else match block
      case Left(next) => next
      case Threw(fault) => if fault.CoordinationGone? then Return(Some(CoordinationUnavailable)) else HandleDecision(env, fault)
  }

  function CancelDecision(env: Environment, gap: Gap): Next {
    Return(Some(if env.finishLosesLease then LeaseLost else gap))
  }

  function AttemptDecision(c: Setup, n: nat, env: Environment, v: Option<Record>, horizon: real): Next
    requires horizon > 0.0
  {
    if env.prepareLosesLease then Return(Some(LeaseLost))
    else match env.dispatch
      case Deferred => CancelDecision(env, RateDeferred)
      case Uncoordinated => CancelDecision(env, CoordinationUnavailable)
      case Expired => CancelDecision(env, PermitExpired)
      case LostBeforeSend => Return(Some(LeaseLost))
      case DeadlineBeforeSend => HandleDecision(env, TransferFailed)
      case ConfirmRefused => CancelDecision(env, PermitExpired)
      case ConfirmUncoordinated => CancelDecision(env, CoordinationUnavailable)
      case SendFailed => HandleDecision(env, TransferFailed)
      case Answered(r) => LeaveDecision(env, r.close, ResponseDecision(c, n, env, r, v, horizon))
  }

  /** What the attempt had decided when its close failed after finish(), if that is what happened. */
  function LateHere(c: Setup, n: nat, env: Environment, v: Option<Record>, horizon: real): Option<Block>
    requires horizon > 0.0
  {
    if !env.prepareLosesLease && ClosesBadly(env) && HasFinished(ResponseDecision(c, n, env, env.dispatch.response, v, horizon))
    then Some(ResponseDecision(c, n, env, env.dispatch.response, v, horizon)) else None
  }

  /** Another attempt follows. */
  predicate GoesOn(n: nat, env: Environment, next: Next) {
    next.Again? || (next.Backoff? && (n == ATTEMPTS || env.waitFits))
  }

  /** The end of the attempts from n on. */
  function FetchDecision(c: Setup, envs: seq<Environment>, n: nat, v: Option<Record>, horizon: real): Next
    requires horizon > 0.0 && |envs| == ATTEMPTS && n >= 1
    decreases ATTEMPTS + 1 - n
  {
    if n > ATTEMPTS then Return(Some(BudgetExhausted)) else
      var next := AttemptDecision(c, n, envs[n - 1], v, horizon);
      if GoesOn(n, envs[n - 1], next) then FetchDecision(c, envs, n + 1, if next.Again? then None else v, horizon)
      else if next.Backoff? then Return(Some(BudgetExhausted))
      else next
  }

  datatype LateClose = LateClose(attempt: nat, block: Block)

  /** The attempt among those that are reached whose close fails after finish(). */
  function LateAttempt(c: Setup, envs: seq<Environment>, n: nat, v: Option<Record>, horizon: real): Option<LateClose>
    requires horizon > 0.0 && |envs| == ATTEMPTS && n >= 1
    decreases ATTEMPTS + 1 - n
  {
    if n > ATTEMPTS then None else
      var next := AttemptDecision(c, n, envs[n - 1], v, horizon);
      var late := LateHere(c, n, envs[n - 1], v, horizon);
      if late.Some? then Some(LateClose(n, late.value))
      else if GoesOn(n, envs[n - 1], next) then LateAttempt(c, envs, n + 1, if next.Again? then None else v, horizon)
      else None
  }

  lemma {:induction false} LateEndsTheAttempt(c: Setup, n: nat, env: Environment, v: Option<Record>, horizon: real)
    requires horizon > 0.0
    ensures LateHere(c, n, env, v, horizon).Some? ==>
      ClosesBadly(env) && AttemptDecision(c, n, env, v, horizon) == (if env.repeatLosesLease then Return(Some(LeaseLost)) else Crash)
    ensures AttemptDecision(c, n, env, v, horizon).Crash? <==> LateHere(c, n, env, v, horizon).Some? && !env.repeatLosesLease
  {
    hide RetryDelay, ValidateRedirect;
  }

  /** An exception leaves the fetch exactly when the close of a reached attempt fails after finish() and the
      lease still holds; that attempt's environment closes badly. */
  lemma {:induction false} CrashExactlyWhenLate(c: Setup, envs: seq<Environment>, n: nat, v: Option<Record>, horizon: real)
    requires horizon > 0.0 && |envs| == ATTEMPTS && n >= 1
    ensures var late := LateAttempt(c, envs, n, v, horizon);
            && (late.Some? ==> n <= late.value.attempt <= ATTEMPTS && ClosesBadly(envs[late.value.attempt - 1]))
            && (FetchDecision(c, envs, n, v, horizon).Crash? <==> late.Some? && !envs[late.value.attempt - 1].repeatLosesLease)
            && (late.Some? && envs[late.value.attempt - 1].repeatLosesLease ==> FetchDecision(c, envs, n, v, horizon) == Return(Some(LeaseLost)))
    decreases ATTEMPTS + 1 - n
  {
    hide AttemptDecision, LateHere;
    if n <= ATTEMPTS {
      LateEndsTheAttempt(c, n, envs[n - 1], v, horizon);
      var next := AttemptDecision(c, n, envs[n - 1], v, horizon);
      if GoesOn(n, envs[n - 1], next) {
        CrashExactlyWhenLate(c, envs, n + 1, if next.Again? then None else v, horizon);
      }
    }
  }

  lemma {:induction false} LeaseLostHere(c: Setup, n: nat, env: Environment, v: Option<Record>, horizon: real)
    requires horizon > 0.0 && AttemptDecision(c, n, env, v, horizon) == Return(Some(LeaseLost))
    ensures LosesLease(env)
  {
    hide RetryDelay, ValidateRedirect;
  }

  /** A lost lease is only ever reported where some step lost it. */
  lemma {:induction false} LeaseLostNeedsALoss(c: Setup, envs: seq<Environment>, n: nat, v: Option<Record>, horizon: real)
    requires horizon > 0.0 && |envs| == ATTEMPTS && n >= 1
    requires FetchDecision(c, envs, n, v, horizon) == Return(Some(LeaseLost))
    ensures exists i :: 0 <= i < ATTEMPTS && LosesLease(envs[i])
    decreases ATTEMPTS + 1 - n
  {
    hide AttemptDecision, LosesLease;
    if n <= ATTEMPTS {
      var next := AttemptDecision(c, n, envs[n - 1], v, horizon);
      if GoesOn(n, envs[n - 1], next) {
        LeaseLostNeedsALoss(c, envs, n + 1, if next.Again? then None else v, horizon);
      } else if !next.Backoff? {
        LeaseLostHere(c, n, envs[n - 1], v, horizon);
        assert LosesLease(envs[n - 1]);
      }
    }
  }

  /** What completes a fetch: the capture made of the answer, or the kept one that a 304 or an equal body confirms. */
  predicate Justifies(outcome: Outcome, record: Record, resource: string, cached: Option<Record>, r: Response) {
    || (outcome.Complete? && 200 <= r.status < 300 && record == Record(r.capture, r.status, resource, false))
    || (outcome.NotModified? && r.status == 304 && cached == Some(record))
    || (outcome.ContentUnchanged? && r.status == 200 && r.sameAsCached && cached == Some(record))
  }

  // ----- which environments retry, start over and succeed

  /** The server asks for no wait. */
  predicate AsksNoWait(value: RetryAfter) {
    value.Absent? || value.Unreadable? || value == Seconds(0) || (value.HttpDate? && value.fromNow <= 0.0)
  }

  /** The wait asked for does not reach beyond the calendar. */
  predicate WithinCalendar(value: RetryAfter, horizon: real) {
    (value.Seconds? ==> value.n as real < horizon) && (value.HttpDate? ==> value.fromNow < horizon)
  }

  /** An error answer that is worth another attempt: its status is transient, and a throttling answer or a
      wait asked for needs a cooldown that is accepted and ends before the deadline. */
  predicate TriesAgain(env: Environment, r: Response, horizon: real) {
    && r.status in {408, 429, 500, 502, 503, 504} && WithinCalendar(r.retryAfter, horizon)
    && (r.status == 429 || !AsksNoWait(r.retryAfter) ==> !env.cooldownUnavailable && env.cooldownFits)
  }

  /** Access is not refused, and a cooldown is accepted and ends before the deadline. */
  predicate CanWait(env: Environment, r: Response) {
    r.status != 403 && !env.cooldownUnavailable && env.cooldownFits
  }

  /** The headers are recorded and read in time. */
  predicate HeadersPass(r: Response) {
    !r.headersLoseLease && r.headersReadable && !r.deadlineAfterHeaders
  }

  /** A monitored 200 cannot be kept as evidence, or equals a kept capture that no longer verifies. */
  predicate MonitorRefuses(c: Setup, r: Response) {
    c.monitor && r.status == 200 && (r.payloadLosesLease || !r.payloadSaved || (c.cached.Some? && r.sameAsCached && !r.cachedVerified))
  }

  /** A body that was stored and that nothing speaks against, so that the status decides. */
  predicate StatusDecides(c: Setup, r: Response) {
    HeadersPass(r) && r.status != 304 && r.body.Stored? && !MonitorRefuses(c, r)
  }

  /** The deadline or the connection ends the transfer before the answer is complete. */
  predicate TransferBreaks(r: Response, v: Option<Record>) {
    && !r.headersLoseLease && r.headersReadable
    && (|| r.deadlineAfterHeaders
        || (r.status == 304 && v.Some? && r.reverified && r.deadlineAfterVerify)
        || (r.status != 304 && (r.body.Incomplete? || r.body.DeadlineDuringBody?)))
  }

  /** The attempt is over before its outcome is recorded. */
  predicate EndsEarly(c: Setup, r: Response, v: Option<Record>) {
    || !HeadersPass(r)
    || (r.status == 304 && v.Some? && r.reverified && r.deadlineAfterVerify)
    || (r.status != 304 && (!r.body.Stored? || MonitorRefuses(c, r)))
  }

  /** A transfer failure or a transient error answer, with the lease held. */
  predicate WorthAnother(c: Setup, env: Environment, v: Option<Record>, horizon: real) {
    && !env.prepareLosesLease && !env.finishLosesLease
    && (|| env.dispatch.DeadlineBeforeSend?
        || env.dispatch.SendFailed?
        || (env.dispatch.Answered? && WorthAnotherAnswer(c, env, env.dispatch.response, v, horizon)))
  }

  predicate WorthAnotherAnswer(c: Setup, env: Environment, r: Response, v: Option<Record>, horizon: real) {
    || (r.close.Closed? && TransferBreaks(r, v))
    || (r.close.Closed? && StatusDecides(c, r) && TriesAgain(env, r, horizon))
    || (r.close.TransportErrorOnClose? && EndsEarly(c, r, v))
  }

  /** A 304 that no verified capture stands behind, or a redirect to the resource itself before the third
      attempt: the next request is unconditional. */
  predicate StartsOver(c: Setup, n: nat, env: Environment, v: Option<Record>) {
    && !env.prepareLosesLease && !env.finishLosesLease && env.dispatch.Answered?
    && var r := env.dispatch.response;
       && r.close.Closed?
       && (|| (HeadersPass(r) && r.status == 304 && (v.None? || !r.reverified))
           || (&& StatusDecides(c, r) && n < 3 && r.status in {301, 302, 303, 307, 308}
               && r.location.Given? && Screened(r.location.text, r.location.path) && c.plain && r.location.resolved == c.resource))
  }

  /** A stored 2xx answer, or a 304 with a verified capture, on a response that closes. */
  predicate Succeeds(c: Setup, env: Environment, v: Option<Record>) {
    && !env.prepareLosesLease && !env.finishLosesLease && env.dispatch.Answered?
    && var r := env.dispatch.response;
       && r.close.Closed?
       && (|| (StatusDecides(c, r) && 200 <= r.status < 300)
           || (HeadersPass(r) && r.status == 304 && v.Some? && r.reverified && !r.deadlineAfterVerify))
  }

  lemma {:induction false} RetryDelayIs(value: RetryAfter, horizon: real)
    requires horizon > 0.0
    ensures RetryDelay(value, horizon).Some? <==> WithinCalendar(value, horizon)
    ensures RetryDelay(value, horizon) == Some(0.0) ==> AsksNoWait(value)
    ensures AsksNoWait(value) ==> RetryDelay(value, horizon) == Some(0.0)
  {
  }

  /** Another attempt with the same validator is wanted exactly after a transfer failure or a transient
      error answer. */
  lemma {:induction false} BackoffExactly(c: Setup, n: nat, env: Environment, v: Option<Record>, horizon: real)
    requires horizon > 0.0
    ensures AttemptDecision(c, n, env, v, horizon) == Backoff <==> WorthAnother(c, env, v, horizon)
  {
    hide RetryDelay, ValidateRedirect, Screened, WithinCalendar, AsksNoWait;
    if env.dispatch.Answered? {
      RetryDelayIs(env.dispatch.response.retryAfter, horizon);
    }
  }

  /** The fetch starts over unconditionally exactly after an unusable 304 or an approved redirect. */
  lemma {:induction false} AgainExactly(c: Setup, n: nat, env: Environment, v: Option<Record>, horizon: real)
    requires horizon > 0.0
    ensures AttemptDecision(c, n, env, v, horizon) == Again <==> StartsOver(c, n, env, v)
  {
    hide RetryDelay, Screened;
  }

  /** An attempt ends the fetch without a gap exactly if it succeeds. */
  lemma {:induction false} SuccessExactly(c: Setup, n: nat, env: Environment, v: Option<Record>, horizon: real)
    requires horizon > 0.0
    ensures AttemptDecision(c, n, env, v, horizon) == Return(None) <==> Succeeds(c, env, v)
  {
    hide RetryDelay, Screened, ValidateRedirect;
  }

  /** Which gap each way of not being answered leaves. */
  lemma {:induction false} DispatchGaps(c: Setup, n: nat, env: Environment, v: Option<Record>, horizon: real)
    requires horizon > 0.0
    ensures var next := AttemptDecision(c, n, env, v, horizon);
            && (env.prepareLosesLease || env.dispatch.LostBeforeSend? ==> next == Return(Some(LeaseLost)))
            && (env.finishLosesLease && !env.dispatch.Answered? ==> next == Return(Some(LeaseLost)))
            && (!env.prepareLosesLease && !env.finishLosesLease ==>
                  && (env.dispatch.Deferred? ==> next == Return(Some(RateDeferred)))
                  && (env.dispatch.Uncoordinated? || env.dispatch.ConfirmUncoordinated? ==> next == Return(Some(CoordinationUnavailable)))
                  && (env.dispatch.Expired? || env.dispatch.ConfirmRefused? ==> next == Return(Some(PermitExpired)))
                  && (env.dispatch.DeadlineBeforeSend? || env.dispatch.SendFailed? ==> next == Backoff))
  {
  }

  /** Which gap each answer leaves that is neither a success nor worth another attempt. */
  lemma {:induction false} AnswerGaps(c: Setup, n: nat, env: Environment, v: Option<Record>, horizon: real)
    requires horizon > 0.0 && !env.prepareLosesLease && !env.finishLosesLease && env.dispatch.Answered?
    requires env.dispatch.response.close.Closed?
    ensures var next, r := AttemptDecision(c, n, env, v, horizon), env.dispatch.response;
            var cools := r.status == 403 || r.status == 429 || !AsksNoWait(r.retryAfter);
            && (r.headersLoseLease ==> next == Return(Some(LeaseLost)))
            && (!r.headersLoseLease && !r.headersReadable ==> next == Return(Some(BodyProblem(TransportError))))
            && (HeadersPass(r) && r.status != 304 ==>
                  && (r.body.TooLarge? ==> next == Return(Some(BodyProblem(BodyLimit))))
                  && (r.body.Undecodable? ==> next == Return(Some(BodyProblem(TransportError))))
                  && (r.body.NotArchived? ==> next == Return(Some(BodyProblem(ArchiveFailed))))
                  && (r.body.Stored? && MonitorRefuses(c, r) ==>
                        next == Return(Some(if r.payloadLosesLease then LeaseLost else BodyProblem(ArchiveFailed)))))
            && (StatusDecides(c, r) && 300 <= r.status < 400 && !StartsOver(c, n, env, v) ==> next == Return(Some(RedirectWasRefused)))
            && (StatusDecides(c, r) && !(200 <= r.status < 400) ==>
                  && (cools && env.cooldownUnavailable ==> next == Return(Some(CoordinationUnavailable)))
                  && (!env.cooldownUnavailable && !WithinCalendar(r.retryAfter, horizon) ==> next == Return(Some(RetryAfterReview)))
                  && (!env.cooldownUnavailable && WithinCalendar(r.retryAfter, horizon) && cools && (r.status == 403 || !env.cooldownFits) ==>
                        next == Return(Some(AccessDeferred)))
                  && (r.status !in {408, 429, 500, 502, 503, 504} && WithinCalendar(r.retryAfter, horizon) && (!cools || CanWait(env, r)) ==>
                        next == Return(Some(HttpFailed))))
  {
    hide RetryDelay, Screened, WithinCalendar, AsksNoWait;
    RetryDelayIs(env.dispatch.response.retryAfter, horizon);
  }

  /** Another attempt follows: at once after starting over, otherwise if the wait fits. */
  predicate Continues(c: Setup, n: nat, env: Environment, v: Option<Record>, horizon: real) {
    StartsOver(c, n, env, v) || (WorthAnother(c, env, v, horizon) && env.waitFits)
  }

  predicate StartsOverAt(c: Setup, envs: seq<Environment>, m: nat, v: Option<Record>)
    requires 1 <= m <= |envs|
  {
    StartsOver(c, m, envs[m - 1], v)
  }

  predicate ContinuesAt(c: Setup, envs: seq<Environment>, m: nat, v: Option<Record>, horizon: real)
    requires 1 <= m <= |envs|
  {
    Continues(c, m, envs[m - 1], v, horizon)
  }

  /** The validator in force at attempt n: starting over gives it up for good. */
  ghost function ValidatorAt(c: Setup, envs: seq<Environment>, n: nat, v: Option<Record>): Option<Record>
    requires |envs| == 3 && 1 <= n <= 3
  {
    if exists m :: 1 <= m < n && StartsOverAt(c, envs, m, v) then None else v
  }

  /** Attempt n succeeds, and every earlier one goes on. */
  ghost predicate SucceedsAt(c: Setup, envs: seq<Environment>, n: nat, v: Option<Record>, horizon: real)
    requires |envs| == 3 && 1 <= n <= 3
  {
    && Succeeds(c, envs[n - 1], ValidatorAt(c, envs, n, v))
    && forall m :: 1 <= m < n ==> ContinuesAt(c, envs, m, ValidatorAt(c, envs, m, v), horizon)
  }

  lemma {:induction false} FollowedBy(c: Setup, envs: seq<Environment>, n: nat, v: Option<Record>, horizon: real)
    requires horizon > 0.0 && |envs| == 3 && 1 <= n <= 3
    ensures Succeeds(c, envs[n - 1], v) ==> FetchDecision(c, envs, n, v, horizon) == Return(None)
    ensures FetchDecision(c, envs, n, v, horizon) == Return(None) ==> Succeeds(c, envs[n - 1], v) || (n < 3 && Continues(c, n, envs[n - 1], v, horizon))
    ensures n < 3 && Continues(c, n, envs[n - 1], v, horizon) ==>
      !Succeeds(c, envs[n - 1], v) &&
      FetchDecision(c, envs, n, v, horizon) == FetchDecision(c, envs, n + 1, if StartsOver(c, n, envs[n - 1], v) then None else v, horizon)
  {
    hide AttemptDecision, Succeeds, StartsOver, WorthAnother;
    BackoffExactly(c, n, envs[n - 1], v, horizon);
    AgainExactly(c, n, envs[n - 1], v, horizon);
    SuccessExactly(c, n, envs[n - 1], v, horizon);
    assert FetchDecision(c, envs, 4, v, horizon) == Return(Some(BudgetExhausted));
    assert FetchDecision(c, envs, 4, None, horizon) == Return(Some(BudgetExhausted));
  }

  /** A fetch ends without a gap exactly if one of its three attempts succeeds and every earlier one goes on. */
  lemma {:induction false} GapFreeExactly(c: Setup, envs: seq<Environment>, v: Option<Record>, horizon: real)
    requires horizon > 0.0 && |envs| == 3
    ensures FetchDecision(c, envs, 1, v, horizon) == Return(None) <==> exists n :: 1 <= n <= 3 && SucceedsAt(c, envs, n, v, horizon)
  {
    hide FetchDecision, Succeeds, StartsOver, Continues;
    var w2 := if StartsOver(c, 1, envs[0], v) then None else v;
    var w3 := if StartsOver(c, 2, envs[1], w2) then None else w2;
    assert StartsOverAt(c, envs, 1, v) <==> StartsOver(c, 1, envs[0], v);
    assert StartsOverAt(c, envs, 2, v) <==> StartsOver(c, 2, envs[1], v);
    assert ValidatorAt(c, envs, 1, v) == v;
    assert ValidatorAt(c, envs, 2, v) == w2;
    assert ValidatorAt(c, envs, 3, v) == w3;
    FollowedBy(c, envs, 1, v, horizon);
    FollowedBy(c, envs, 2, w2, horizon);
    FollowedBy(c, envs, 3, w3, horizon);
    assert SucceedsAt(c, envs, 1, v, horizon) <==> Succeeds(c, envs[0], v);
    assert SucceedsAt(c, envs, 2, v, horizon) <==> Continues(c, 1, envs[0], v, horizon) && Succeeds(c, envs[1], w2);
    assert SucceedsAt(c, envs, 3, v, horizon) <==>
      Continues(c, 1, envs[0], v, horizon) && Continues(c, 2, envs[1], w2, horizon) && Succeeds(c, envs[2], w3);
  }

  /** At most one attempt can be the successful one: what succeeds does not go on. */
  lemma {:induction false} SucceedsOnce(c: Setup, envs: seq<Environment>, n: nat, m: nat, v: Option<Record>, horizon: real)
    requires |envs| == 3 && 1 <= n < m <= 3 && SucceedsAt(c, envs, m, v, horizon)
    ensures !SucceedsAt(c, envs, n, v, horizon)
  {
    hide ValidatorAt, Screened, MonitorRefuses, WithinCalendar, AsksNoWait;
    assert ContinuesAt(c, envs, n, ValidatorAt(c, envs, n, v), horizon);
  }

  lemma {:induction false} OnlyAt(c: Setup, envs: seq<Environment>, n: nat, v: Option<Record>, horizon: real)
    requires |envs| == 3 && 1 <= n <= 3 && SucceedsAt(c, envs, n, v, horizon)
    ensures forall m :: 1 <= m <= 3 && SucceedsAt(c, envs, m, v, horizon) ==> m == n
  {
    hide SucceedsAt;
    forall m | 1 <= m <= 3 && SucceedsAt(c, envs, m, v, horizon)
      ensures m == n
    {
      if m < n {
        SucceedsOnce(c, envs, m, n, v, horizon);
      } else if n < m {
        SucceedsOnce(c, envs, n, m, v, horizon);
      }
    }
  }

  /** Every attempt before n goes on, and w is the validator in force at n. */
  ghost predicate Reached(c: Setup, envs: seq<Environment>, n: nat, v: Option<Record>, w: Option<Record>, horizon: real)
    requires |envs| == 3 && 1 <= n <= 3
  {
    w == ValidatorAt(c, envs, n, v) && forall m :: 1 <= m < n ==> ContinuesAt(c, envs, m, ValidatorAt(c, envs, m, v), horizon)
  }

  lemma {:induction false} FirstIsReached(c: Setup, envs: seq<Environment>, v: Option<Record>, horizon: real)
    requires |envs| == 3
    ensures Reached(c, envs, 1, v, v, horizon)
  {
  }

  lemma {:induction false} ReachedKeeps(c: Setup, envs: seq<Environment>, n: nat, v: Option<Record>, w: Option<Record>, horizon: real)
    requires horizon > 0.0 && |envs| == 3 && 1 <= n <= 3 && Reached(c, envs, n, v, w, horizon)
    ensures var next := AttemptDecision(c, n, envs[n - 1], w, horizon);
            && (n < 3 && GoesOn(n, envs[n - 1], next) ==> Reached(c, envs, n + 1, v, if next.Again? then None else w, horizon))
            && (next == Return(None) ==> SucceedsAt(c, envs, n, v, horizon))
  {
    hide AttemptDecision, Succeeds, StartsOver, WorthAnother;
    BackoffExactly(c, n, envs[n - 1], w, horizon);
    AgainExactly(c, n, envs[n - 1], w, horizon);
    SuccessExactly(c, n, envs[n - 1], w, horizon);
    assert w != v ==> w == None;
    assert StartsOverAt(c, envs, n, w) <==> StartsOver(c, n, envs[n - 1], w);
    if n < 3 && StartsOver(c, n, envs[n - 1], w) && w != v {
      assert exists m :: 1 <= m < n && StartsOverAt(c, envs, m, v);
    }
  }

  class Fetch {
    const resource: string
    const plain: bool
    const monitor: bool
    const cached: Option<Record>
    var url: string
    var log: seq<Action>
    var records: seq<Record>
    var attempts: seq<Listed>
    var validator: Option<Record>
    /** A close() has failed after finish() had succeeded. */
    var closedLate: bool

    /** The cached record, when one is kept, was verified as a successful capture of this resource, and
        redirects have led nowhere else. */
    ghost predicate Valid()
      reads this
    {
      && (cached.Some? ==> cached.value.Successful())
      && (validator.Some? ==> validator == cached)
      && NoneSuccessful(records)
      && SendsConfirmed(log, resource) && url == resource && !closedLate
    }

    function Configured(): Setup {
      Setup(resource, plain, monitor, cached)
    }

    /** A fresh capture completes a fetch; an unmodified or unchanged answer hands over the kept one. */
    predicate Justified(outcome: Outcome, record: Record, r: Response) {
      Justifies(outcome, record, resource, cached, r)
    }

    /** The fetch has succeeded: one successful capture, justified by the last attempt's outcome. */
    ghost predicate Succeeded(r: Response)
      reads this
    {
      && SendsConfirmed(log, resource) && OneSuccessful(records)
      && attempts != [] && records != [] && Justified(attempts[|attempts| - 1].outcome, records[|records| - 1], r)
    }

    /** After n attempts have run their course, each is finished once and listed in order. */
    ghost predicate Settled(n: nat)
      reads this
    {
      PreparedIn(log) == Upto(n) && FinishedIn(log) == attempts && Ids(attempts) == Upto(n)
    }

    /** Attempt n is open: prepared, not finished. */
    ghost predicate Open(n: nat)
      reads this
    {
      n >= 1 && PreparedIn(log) == Upto(n) && FinishedIn(log) == attempts && Ids(attempts) == Upto(n - 1)
    }

    constructor (resource: string, plain: bool, monitor: bool, mode: Mode, cached: Option<Record>)
      requires cached.Some? ==> cached.value.Successful()
      ensures Valid() && Settled(0) && records == [] && log == [] && Configured() == Setup(resource, plain, monitor, cached)
      ensures validator == FirstValidator(mode, cached)
    {
      this.resource, this.plain, this.monitor, this.cached, url := resource, plain, monitor, cached, resource;
      log, records, attempts, closedLate := [], [], [], false;
      validator := FirstValidator(mode, cached);
    }

    method Log(a: Action)
      requires SendsConfirmed(log, resource) && (a.Sent? ==> log != [] && log[|log| - 1] == Confirmed(a.attempt) && a.url == resource)
      requires a.Prepared? ==> a.url == resource
      modifies this`log
      ensures log == old(log) + [a] && SendsConfirmed(log, resource)
      ensures PreparedIn(log) == old(PreparedIn(log)) + (if a.Prepared? then [a.attempt] else [])
      ensures FinishedIn(log) == old(FinishedIn(log)) + (if a.Finished? then [Listed(a.attempt, a.outcome)] else [])
    {
      OneMore(log, a);
      SendsStay(log, a, resource);
      log := log + [a];
    }

    /** finish() and the matching list entry; a lost lease leaves the attempt open. */
    method Finish(n: nat, outcome: Outcome, env: Environment) returns (lost: bool)
      requires Valid() && Open(n)
      modifies this`log, this`attempts
      ensures Valid() && lost == env.finishLosesLease
      ensures if lost then Open(n) else Settled(n)
      ensures if lost then log == old(log) && attempts == old(attempts) else attempts == old(attempts) + [Listed(n, outcome)]
    {
      if env.finishLosesLease {
        return true;
      }
      Log(Finished(n, outcome));
      attempts := attempts + [Listed(n, outcome)];
      lost := false;
    }

    /** Finish and stop with the given gap, unless the lease is lost first. */
    method FinishAndReturn(n: nat, outcome: Outcome, env: Environment, gap: Gap) returns (next: Next)
      requires Valid() && Open(n) && !gap.LeaseLost?
      modifies this`log, this`attempts
      ensures Valid() && next == CancelDecision(env, gap)
      ensures if next.gap == Some(LeaseLost) then Open(n) else Settled(n)
    {
      var lost := Finish(n, outcome, env);
      next := Return(Some(if lost then LeaseLost else gap));
    }

    /** One prepared attempt, from the permit to the classified answer. */
    method Attempt(n: nat, env: Environment, horizon: real) returns (next: Next)
      requires 1 <= n <= ATTEMPTS && horizon > 0.0 && Valid() && Settled(n - 1)
      modifies this`log, this`records, this`attempts, this`validator, this`url, this`closedLate
      ensures next == Return(None) ==> env.dispatch.Answered? && Settled(n) && Succeeded(env.dispatch.response) && !closedLate
      ensures next != Return(None) && !closedLate ==> Valid()
      ensures next == Return(Some(LeaseLost)) ==> Open(n) || Settled(n - 1) || Settled(n)
      ensures next != Return(Some(LeaseLost)) ==> Settled(n)
      ensures SendsConfirmed(log, resource)
      ensures next == AttemptDecision(Configured(), n, env, old(validator), horizon)
      ensures closedLate <==> LateHere(Configured(), n, env, old(validator), horizon).Some?
      ensures closedLate ==> (OneSuccessful(records) <==> LateHere(Configured(), n, env, old(validator), horizon) == Some(Left(Return(None))))
      ensures next.Again? || next.Backoff? ==> validator == if next.Again? then None else old(validator)
    {
      hide PreparedIn, FinishedIn, SendsConfirmed, NoneSuccessful, OneSuccessful, Upto, ResponseDecision, LeaveDecision, Ids;
      if env.prepareLosesLease {
        return Return(Some(LeaseLost));
      }
      Log(Prepared(n, url));
      OneMoreId(n);
      match env.dispatch {
        case Deferred => next := FinishAndReturn(n, Cancelled, env, RateDeferred);
        case Uncoordinated => next := FinishAndReturn(n, Cancelled, env, CoordinationUnavailable);
        case Expired => next := FinishAndReturn(n, Cancelled, env, PermitExpired);
        case LostBeforeSend => next := Return(Some(LeaseLost));
        case DeadlineBeforeSend => next := Handle(n, env, TransferFailed);
        case ConfirmRefused => next := FinishAndReturn(n, Cancelled, env, PermitExpired);
        case ConfirmUncoordinated => next := FinishAndReturn(n, Cancelled, env, CoordinationUnavailable);
        case SendFailed =>
          Log(Confirmed(n));
          Log(Sent(n, url));
          next := Handle(n, env, TransferFailed);
        case Answered(response) => next := Answer(n, env, response, horizon);
      }
    }

    /** Confirm, send, read the response and leave it. */
    method Answer(n: nat, env: Environment, r: Response, horizon: real) returns (next: Next)
      requires 1 <= n <= ATTEMPTS && horizon > 0.0 && Valid() && Open(n)
      modifies this`log, this`records, this`attempts, this`validator, this`url, this`closedLate
      ensures next == Return(None) ==> Settled(n) && Succeeded(r) && !closedLate
      ensures next != Return(None) && !closedLate ==> Valid()
      ensures next == Return(Some(LeaseLost)) ==> Open(n) || Settled(n)
      ensures next != Return(Some(LeaseLost)) ==> Settled(n)
      ensures SendsConfirmed(log, resource)
      ensures next == LeaveDecision(env, r.close, ResponseDecision(Configured(), n, env, r, old(validator), horizon))
      ensures var block := ResponseDecision(Configured(), n, env, r, old(validator), horizon);
              && (closedLate <==> !r.close.Closed? && HasFinished(block))
              && (closedLate ==> (OneSuccessful(records) <==> block == Left(Return(None))))
      ensures next.Again? || next.Backoff? ==> validator == if next.Again? then None else old(validator)
    {
      hide PreparedIn, FinishedIn, SendsConfirmed, NoneSuccessful, OneSuccessful, Upto, ResponseDecision, Ids;
      Log(Confirmed(n));
      Log(Sent(n, url));
      var block := InResponse(n, env, r, horizon);
      next := Leave(n, env, r, block);
      EitherKind(records);
    }

    /** The handlers around an attempt that is still open. */
    method Handle(n: nat, env: Environment, fault: Fault) returns (next: Next)
      requires Valid() && Open(n) && !fault.CoordinationGone?
      modifies this`log, this`attempts
      ensures Valid() && next == HandleDecision(env, fault)
      ensures if next == Return(Some(LeaseLost)) then Open(n) else Settled(n)
    {
      if fault.LeaseGone? {
        return Return(Some(LeaseLost));
      }
      var outcome := if fault.TransferFailed? then TransportError else fault.outcome;
      var lost := Finish(n, outcome, env);
      next := if lost then Return(Some(LeaseLost)) else if fault.TransferFailed? then Backoff else Return(Some(BodyProblem(outcome)));
    }

    /** Leaving the response closes it. An error on close replaces whatever was under way; if finish() had
        already succeeded, the handler finishes the attempt again, and the store refuses a terminal attempt
        with an error of its own, or with a lost lease. */
    method Leave(n: nat, env: Environment, r: Response, block: Block) returns (next: Next)
      requires 1 <= n && !closedLate && SendsConfirmed(log, resource)
      requires if HasFinished(block) then Settled(n) else Open(n)
      requires block == Left(Return(None)) || Valid()
      requires block == Left(Return(None)) ==> Succeeded(r)
      requires block.Left? ==> !block.next.Crash? && block.next != Return(Some(LeaseLost))
      modifies this`log, this`attempts, this`closedLate
      ensures next == LeaveDecision(env, r.close, block)
      ensures closedLate <==> !r.close.Closed? && HasFinished(block)
      ensures closedLate ==> Settled(n)
      ensures next == Return(None) ==> Settled(n) && Succeeded(r)
      ensures next != Return(None) && !closedLate ==> Valid()
      ensures next == Return(Some(LeaseLost)) && !closedLate ==> Open(n)
      ensures next != Return(Some(LeaseLost)) ==> Settled(n)
      ensures block == Left(Return(None)) ==> OneSuccessful(records)
      ensures block != Left(Return(None)) ==> NoneSuccessful(records)
      ensures SendsConfirmed(log, resource)
    {
      hide OneSuccessful, NoneSuccessful, PreparedIn, FinishedIn, SendsConfirmed, Upto, Ids;
      var fault := if r.close.TransportErrorOnClose? then TransferFailed else ArchiveError(ArchiveFailed);
      if !r.close.Closed? && HasFinished(block) {
        closedLate := true;
        return if env.repeatLosesLease then Return(Some(LeaseLost)) else Crash;
      }
      if !r.close.Closed? {
        next := Handle(n, env, fault);
        return;
      }
      match block {
        case Left(decided) => next := decided;
        case Threw(thrown) =>
          if thrown.CoordinationGone? {
            next := Return(Some(CoordinationUnavailable));
          } else {
            next := Handle(n, env, thrown);
          }
      }
    }

    /** Everything between the headers and the decision. */
    method InResponse(n: nat, env: Environment, r: Response, horizon: real) returns (block: Block)
      requires Valid() && Open(n) && 1 <= n <= ATTEMPTS && horizon > 0.0
      modifies this`log, this`records, this`attempts, this`validator, this`url
      ensures if HasFinished(block) then Settled(n) else Open(n)
      ensures if block == Left(Return(None)) then Succeeded(r) else Valid()
      ensures block.Left? ==> !block.next.Crash? && block.next != Return(Some(LeaseLost))
      ensures !closedLate && SendsConfirmed(log, resource)
      ensures block == ResponseDecision(Configured(), n, env, r, old(validator), horizon)
      ensures validator == if block == Left(Again) then None else old(validator)
    {
      hide PreparedIn, FinishedIn, SendsConfirmed, NoneSuccessful, OneSuccessful, Upto, Ids, RedirectDecision, ErrorDecision;
      if r.headersLoseLease {
        return Threw(LeaseGone);
      }
      if !r.headersReadable {
        return Threw(ArchiveError(TransportError));
      }
      if r.deadlineAfterHeaders {
        return Threw(TransferFailed);
      }
      if r.status == 304 {
        block := Unmodified(n, env, r);
        return;
      }
      match r.body {
        case Incomplete => block := Threw(TransferFailed);
        case DeadlineDuringBody => block := Threw(TransferFailed);
        case TooLarge => block := Threw(ArchiveError(BodyLimit));
        case Undecodable => block := Threw(ArchiveError(TransportError));
        case NotArchived => block := Threw(ArchiveError(ArchiveFailed));
        case Stored =>
          if monitor && r.status == 200 {
            if r.payloadLosesLease {
              return Threw(LeaseGone);
            }
            if !r.payloadSaved {
              return Threw(ArchiveError(ArchiveFailed));
            }
            if cached.Some? && r.sameAsCached {
              if !r.cachedVerified {
                return Threw(ArchiveError(ArchiveFailed));
              }
              block := Succeed(n, ContentUnchanged, env, cached.value, r);
              return;
            }
          }
          block := Classify(n, env, r, Record(r.capture, r.status, url, false), horizon);
      }
    }

    /** 304: only a verified conditional representation may stand in for the body, section 15.4.5 of RFC 9110. */
    method Unmodified(n: nat, env: Environment, r: Response) returns (block: Block)
      requires Valid() && Open(n) && r.status == 304
      modifies this`log, this`records, this`attempts, this`validator
      ensures block == Left(Return(None)) ==> old(validator).Some? && r.reverified && records == old(records) + [old(validator).value]
      ensures block == Left(Again) ==> records == old(records)
      ensures validator == if block == Left(Again) then None else old(validator)
      ensures !r.headersLoseLease && r.headersReadable && !r.deadlineAfterHeaders ==>
                forall h: real | h > 0.0 :: block == ResponseDecision(Configured(), n, env, r, old(validator), h)
      ensures block.Left? ==> block.next == Again || block.next == Return(None)
      ensures if block == Left(Return(None)) then Succeeded(r) else Valid()
      ensures if HasFinished(block) then Settled(n) else Open(n)
      ensures !closedLate && SendsConfirmed(log, resource)
    {
      if validator.None? || !r.reverified {
        var lost := Finish(n, TransportError, env);
        if lost {
          return Threw(LeaseGone);
        }
        validator := None;
        return Left(Again);
      }
      if r.deadlineAfterVerify {
        return Threw(TransferFailed);
      }
      block := Succeed(n, NotModified, env, validator.value, r);
    }

    method Succeed(n: nat, outcome: Outcome, env: Environment, record: Record, r: Response) returns (block: Block)
      requires Valid() && Open(n) && record.Successful() && Justified(outcome, record, r)
      modifies this`log, this`records, this`attempts
      ensures block == FinishDecision(env, Return(None))
      ensures block.Left? ==> records == old(records) + [record] && attempts == old(attempts) + [Listed(n, outcome)]
      ensures block.Left? ==> Settled(n) && Succeeded(r)
      ensures block.Threw? ==> Valid() && Open(n)
      ensures !closedLate && SendsConfirmed(log, resource)
    {
      var lost := Finish(n, outcome, env);
      if lost {
        return Threw(LeaseGone);
      }
      assert (records + [record])[..|records|] == records;
      records := records + [record];
      block := Left(Return(None));
    }

    /** A stored body by status: success, redirect, or an error that may be worth another attempt. */
    method Classify(n: nat, env: Environment, r: Response, capture: Record, horizon: real) returns (block: Block)
      requires Valid() && Open(n) && 1 <= n <= ATTEMPTS && horizon > 0.0
      requires capture == Record(r.capture, r.status, resource, false) && r.status != 304
      modifies this`log, this`records, this`attempts, this`validator, this`url
      ensures if HasFinished(block) then Settled(n) else Open(n)
      ensures if block == Left(Return(None)) then Succeeded(r) else Valid()
      ensures block.Left? ==> !block.next.Crash? && block.next != Return(Some(LeaseLost))
      ensures HasFinished(block) && !(200 <= r.status < 400) ==> Cooled(r, horizon)
      ensures !closedLate && SendsConfirmed(log, resource)
      ensures block == (if 200 <= r.status < 300 then FinishDecision(env, Return(None))
                        else if 300 <= r.status < 400 then RedirectDecision(Configured(), n, env, r) else ErrorDecision(env, r, horizon))
      ensures validator == if block == Left(Again) then None else old(validator)
    {
      hide PreparedIn, FinishedIn, SendsConfirmed, NoneSuccessful, OneSuccessful, Upto;
      if 200 <= r.status < 300 {
        block := Succeed(n, Complete, env, capture, r);
      } else if 300 <= r.status < 400 {
        block := Redirect(n, env, r, capture);
      } else {
        block := Failed(n, env, r, capture, horizon);
      }
    }

    /** finish() for an unsuccessful answer whose body is kept as evidence. */
    method FinishWithCapture(n: nat, outcome: Outcome, env: Environment, capture: Record) returns (lost: bool)
      requires Valid() && Open(n) && !capture.Successful()
      modifies this`log, this`records, this`attempts
      ensures Valid() && lost == env.finishLosesLease
      ensures if lost then Open(n) && records == old(records) else Settled(n) && records == old(records) + [capture]
    {
      lost := Finish(n, outcome, env);
      if !lost {
        records := records + [capture];
      }
    }

    /** The next request goes to the validated target, which is the resource again. */
    method Redirect(n: nat, env: Environment, r: Response, capture: Record) returns (block: Block)
      requires Valid() && Open(n) && 300 <= r.status < 400 && capture.status == r.status
      modifies this`log, this`records, this`attempts, this`validator, this`url
      ensures Valid() && if HasFinished(block) then Settled(n) else Open(n)
      ensures block == RedirectDecision(Configured(), n, env, r)
      ensures validator == if block == Left(Again) then None else old(validator)
      ensures block == Left(Again) <==>
                && !env.finishLosesLease && n < 3 && r.status in {301, 302, 303, 307, 308}
                && ValidateRedirect(resource, plain, r.location).Some?
      ensures block == Left(Again) ==> r.location.Given? && url == r.location.resolved
      ensures HasFinished(block) ==> records == old(records) + [capture]
    {
      hide PreparedIn, FinishedIn, SendsConfirmed, NoneSuccessful, Upto, Screened;
      var target := if IsRedirect(r.status) then ValidateRedirect(resource, plain, r.location) else None;
      var follow := target.Some? && n < ATTEMPTS;
      var lost := FinishWithCapture(n, if follow then Redirected else RedirectRefused, env, capture);
      if lost {
        return Threw(LeaseGone);
      }
      if !follow {
        return Left(Return(Some(RedirectWasRefused)));
      }
      url, validator := target.value, None;
      block := Left(Again);
    }

    method Failed(n: nat, env: Environment, r: Response, capture: Record, horizon: real) returns (block: Block)
      requires Valid() && Open(n) && !(200 <= r.status < 400) && capture.status == r.status && horizon > 0.0
      modifies this`log, this`records, this`attempts
      ensures Valid() && if HasFinished(block) then Settled(n) && Cooled(r, horizon) else Open(n)
      ensures block == ErrorDecision(env, r, horizon)
      ensures block.Left? ==> !block.next.Crash? && !block.next.Again? && block.next != Return(Some(LeaseLost)) && block.next != Return(None)
      ensures HasFinished(block) ==> records == old(records) + [capture]
      ensures block == Left(Backoff) <==> !env.finishLosesLease && TriesAgain(env, r, horizon)
    {
      hide PreparedIn, FinishedIn, SendsConfirmed, NoneSuccessful, Upto, RetryDelay, CooldownSeconds, AsksNoWait, WithinCalendar;
      RetryDelayIs(r.retryAfter, horizon);
      var lost := FinishWithCapture(n, HttpError, env, capture);
      if lost {
        return Threw(LeaseGone);
      }
      var delay := RetryDelay(r.retryAfter, horizon);
      if delay.None? {
        Log(CooledDown(None));
        return if env.cooldownUnavailable then Threw(CoordinationGone) else Left(Return(Some(RetryAfterReview)));
      }
      if r.status == 403 || r.status == 429 || delay.value != 0.0 {
        Log(CooledDown(Some(CooldownSeconds(r.status, delay.value))));
        if env.cooldownUnavailable {
          return Threw(CoordinationGone);
        }
        if r.status == 403 || !env.cooldownFits {
          return Left(Return(Some(AccessDeferred)));
        }
      }
      block := Left(if Retryable(r.status) then Backoff else Return(Some(HttpFailed)));
    }

    /** The server's wish was put to the shared limiter before anything else, never shortened. */
    ghost predicate Cooled(r: Response, horizon: real)
      requires horizon > 0.0
      reads this
    {
      var delay := RetryDelay(r.retryAfter, horizon);
      && (delay.None? ==> log != [] && log[|log| - 1] == CooledDown(None))
      && (delay.Some? && (r.status == 403 || r.status == 429 || delay.value != 0.0) ==>
            && log != [] && log[|log| - 1].CooledDown? && log[|log| - 1].seconds.Some?
            && log[|log| - 1].seconds.value >= delay.value
            && (r.status == 403 ==> log[|log| - 1].seconds.value >= 600.0)
            && (r.status == 429 ==> log[|log| - 1].seconds.value >= 1.0))
    }
  }

  /** Attempts are prepared in order, at most three, each for the resource; each is finished once and listed
      in order, except that the last may be open, when the lease was lost. */
  ghost predicate Ledger(log: seq<Action>, resource: string, result: Option<FetchResult>) {
    && |PreparedIn(log)| <= 3 && PreparedIn(log) == Upto(|PreparedIn(log)|) && SendsConfirmed(log, resource)
    && FinishedOnce(FinishedIn(log), PreparedIn(log))
    && (result.Some? ==> FinishedIn(log) == result.value.attempts)
    && (result.Some? && result.value.gap != Some(LeaseLost) ==> Ids(result.value.attempts) == PreparedIn(log))
  }

  /** The outcome is the one the environment decides; a gap-free result holds exactly one successful capture
      unless the close failed after that very success. */
  ghost predicate Decided(c: Setup, envs: seq<Environment>, v: Option<Record>, horizon: real, result: Option<FetchResult>, late: bool)
    requires |envs| == ATTEMPTS && horizon > 0.0
  {
    var decision, lateClose := FetchDecision(c, envs, 1, v, horizon), LateAttempt(c, envs, 1, v, horizon);
    && (late <==> lateClose.Some?)
    && (result.None? <==> decision.Crash?)
    && (result.Some? ==> decision == Return(result.value.gap))
    && (result.Some? ==>
          ((result.value.gap.None? <==> OneSuccessful(result.value.records)) <==> !(lateClose.Some? && lateClose.value.block == Left(Return(None)))))
  }

  /** The fetch ends without a gap exactly if some attempt succeeds and every earlier one goes on; that attempt
      is the last one made. */
  ghost predicate GapFreeIff(c: Setup, envs: seq<Environment>, v: Option<Record>, horizon: real, result: Option<FetchResult>)
    requires |envs| == 3
  {
    && ((result.Some? && result.value.gap.None?) <==> exists n :: 1 <= n <= 3 && SucceedsAt(c, envs, n, v, horizon))
    && (result.Some? && result.value.gap.None? ==>
          1 <= |result.value.attempts| <= 3 && SucceedsAt(c, envs, |result.value.attempts|, v, horizon))
  }

  /** The capture of a gap-free result is the one of its last answer, or the kept one after an unmodified, unchanged
      or reused answer. */
  ghost predicate Sourced(result: FetchResult, resource: string, cached: Option<Record>, envs: seq<Environment>) {
    && result.records != [] && |result.attempts| <= |envs|
    && var record := result.records[|result.records| - 1];
       if result.attempts == [] then cached == Some(record) && result.records == [record]
       else
         var n := |result.attempts|;
         envs[n - 1].dispatch.Answered? && Justifies(result.attempts[n - 1].outcome, record, resource, cached, envs[n - 1].dispatch.response)
  }

  /** A kept capture counts only if it was verified and successful. */
  function Usable(offered: Option<Record>, verified: bool): Option<Record> {
    if offered.Some? && verified && offered.value.Successful() then offered else None
  }

  /** fetch() for a live request, over every behaviour of the environment. None is an exception that leaves
      fetch(); `late` says that a close failed after finish(). Both are decided by the environment. */
  method FetchLive(resource: string, plain: bool, monitor: bool, mode: Mode, offered: Option<Record>, verified: bool, recent: bool,
                   guardLosesLease: bool, envs: seq<Environment>, horizon: real)
    returns (result: Option<FetchResult>, late: bool, ghost log: seq<Action>)
    requires |envs| == 3 && horizon > 0.0
    ensures Ledger(log, resource, result)
    ensures guardLosesLease ==> result == Some(FetchResult([], [], Some(LeaseLost))) && !late && log == []
    ensures !guardLosesLease && mode.Reuse? && recent && offered.Some? && verified && offered.value.Successful() ==>
      result == Some(FetchResult([offered.value], [], None)) && !late && log == []
    ensures result.Some? && result.value.gap.None? && result.value.attempts == [] ==>
      && mode.Reuse? && recent && verified && offered.Some? && offered.value.Successful()
      && result.value.records == [offered.value]
    ensures !guardLosesLease && !(mode.Reuse? && recent && Usable(offered, verified).Some?) ==>
      var cached := Usable(offered, verified);
      && Decided(Setup(resource, plain, monitor, cached), envs, FirstValidator(mode, cached), horizon, result, late)
      && GapFreeIff(Setup(resource, plain, monitor, cached), envs, FirstValidator(mode, cached), horizon, result)
    ensures (forall i :: 0 <= i < ATTEMPTS ==> !ClosesBadly(envs[i])) ==> result.Some? && !late
    ensures result.Some? && result.value.gap == Some(LeaseLost) ==> guardLosesLease || exists i :: 0 <= i < ATTEMPTS && LosesLease(envs[i])
    ensures result.Some? && !late ==>
      && (result.value.gap.None? <==> OneSuccessful(result.value.records))
      && (result.value.gap.Some? ==> NoneSuccessful(result.value.records))
    ensures result.Some? && result.value.gap.None? ==> Sourced(result.value, resource, Usable(offered, verified), envs)
  {
    hide PreparedIn, FinishedIn, SendsConfirmed, NoneSuccessful, OneSuccessful, Upto, Ids, FetchDecision, LateAttempt, AttemptDecision, LateHere,
      ClosesBadly, LosesLease, SucceedsAt;
    var cached := Usable(offered, verified);
    var f := new Fetch(resource, plain, monitor, mode, cached);
    EitherKind(f.records);
    NothingUpto();
    if guardLosesLease {
      return Some(FetchResult([], [], Some(LeaseLost))), false, f.log;
    }
    if mode.Reuse? && cached.Some? && recent {
      AloneSuccessful(cached.value);
      return Some(FetchResult([cached.value], [], None)), false, f.log;
    }
    DecisionFacts(f.Configured(), envs, f.validator, horizon);
    result, late := RunAttempts(f, envs, horizon);
    log := f.log;
  }

  /** The loop over the attempts. */
  method RunAttempts(f: Fetch, envs: seq<Environment>, horizon: real) returns (result: Option<FetchResult>, late: bool)
    requires |envs| == ATTEMPTS && horizon > 0.0 && f.Valid() && f.Settled(0)
    modifies f
    ensures Ledger(f.log, f.resource, result)
    ensures Decided(f.Configured(), envs, old(f.validator), horizon, result, late)
    ensures GapFreeIff(f.Configured(), envs, old(f.validator), horizon, result)
    ensures result.Some? && !late ==>
      && (result.value.gap.None? <==> OneSuccessful(result.value.records))
      && (result.value.gap.Some? ==> NoneSuccessful(result.value.records))
    ensures result.Some? && result.value.gap.None? ==> Sourced(result.value, f.resource, f.cached, envs)
  {
    hide PreparedIn, FinishedIn, SendsConfirmed, NoneSuccessful, OneSuccessful, Upto, Ids, FetchDecision, LateAttempt, AttemptDecision, LateHere,
      ClosesBadly, LosesLease, SucceedsAt, Reached;
    ghost var c := f.Configured();
    ghost var v := f.validator;
    EitherKind(f.records);
    FirstIsReached(c, envs, v, horizon);
    GapFreeExactly(c, envs, v, horizon);
    var n := 1;
    while n <= ATTEMPTS
      invariant 1 <= n <= ATTEMPTS + 1 && f.Valid() && f.Settled(n - 1) && f.Configured() == c
      invariant FetchDecision(c, envs, 1, v, horizon) == FetchDecision(c, envs, n, f.validator, horizon)
      invariant LateAttempt(c, envs, 1, v, horizon) == LateAttempt(c, envs, n, f.validator, horizon)
      invariant n <= 3 ==> Reached(c, envs, n, v, f.validator, horizon)
    {
      ghost var before := f.validator;
      DecisionUnfolds(c, envs, n, before, horizon);
      ReachedKeeps(c, envs, n, v, before, horizon);
      var next := f.Attempt(n, envs[n - 1], horizon);
      EitherKind(f.records);
      OneMoreId(n);
      LateEndsTheAttempt(c, n, envs[n - 1], before, horizon);
      if next.Crash? {
        return None, f.closedLate;
      }
      if next.Return? {
        return Some(FetchResult(f.records, f.attempts, next.gap)), f.closedLate;
      }
      if next.Backoff? && n < ATTEMPTS && !envs[n - 1].waitFits {
        return Some(FetchResult(f.records, f.attempts, Some(BudgetExhausted))), false;
      }
      n := n + 1;
    }
    EitherKind(f.records);
    NoMoreAttempts(c, envs, f.validator, horizon);
    return Some(FetchResult(f.records, f.attempts, Some(BudgetExhausted))), false;
  }

  lemma {:induction false} DecisionFacts(c: Setup, envs: seq<Environment>, v: Option<Record>, horizon: real)
    requires horizon > 0.0 && |envs| == ATTEMPTS
    ensures var late := LateAttempt(c, envs, 1, v, horizon); late.Some? ==> exists i :: 0 <= i < ATTEMPTS && ClosesBadly(envs[i])
    ensures FetchDecision(c, envs, 1, v, horizon).Crash? ==> LateAttempt(c, envs, 1, v, horizon).Some?
    ensures FetchDecision(c, envs, 1, v, horizon) == Return(Some(LeaseLost)) ==> exists i :: 0 <= i < ATTEMPTS && LosesLease(envs[i])
  {
    hide FetchDecision, LateAttempt, LosesLease;
    CrashExactlyWhenLate(c, envs, 1, v, horizon);
    if FetchDecision(c, envs, 1, v, horizon) == Return(Some(LeaseLost)) {
      LeaseLostNeedsALoss(c, envs, 1, v, horizon);
    }
  }

  lemma {:induction false} DecisionUnfolds(c: Setup, envs: seq<Environment>, n: nat, v: Option<Record>, horizon: real)
    requires horizon > 0.0 && |envs| == ATTEMPTS && 1 <= n <= ATTEMPTS
    ensures var next := AttemptDecision(c, n, envs[n - 1], v, horizon);
            var late := LateHere(c, n, envs[n - 1], v, horizon);
            && FetchDecision(c, envs, n, v, horizon) ==
                 (if GoesOn(n, envs[n - 1], next) then FetchDecision(c, envs, n + 1, if next.Again? then None else v, horizon)
                  else if next.Backoff? then Return(Some(BudgetExhausted)) else next)
            && LateAttempt(c, envs, n, v, horizon) ==
                 (if late.Some? then Some(LateClose(n, late.value))
                  else if GoesOn(n, envs[n - 1], next) then LateAttempt(c, envs, n + 1, if next.Again? then None else v, horizon) else None)
  {
    hide AttemptDecision, LateHere;
  }

  lemma {:induction false} NoMoreAttempts(c: Setup, envs: seq<Environment>, v: Option<Record>, horizon: real)
    requires horizon > 0.0 && |envs| == ATTEMPTS
    ensures FetchDecision(c, envs, ATTEMPTS + 1, v, horizon) == Return(Some(BudgetExhausted))
    ensures LateAttempt(c, envs, ATTEMPTS + 1, v, horizon).None?
  {
  }

  /** The listed attempts are the prepared ones in order, each once, except that the last may be open. */
  ghost predicate FinishedOnce(listed: seq<Listed>, prepared: seq<nat>) {
    Ids(listed) <= prepared && |prepared| <= |listed| + 1
  }

  /** An environment that answers 200 with a stored body and then fails to close the response. */
  function CloseFailsAfterSuccess(repeatLosesLease: bool): Environment {
    var r := Response(200, NoLocation, true, false, false, false, false, Stored, true, false, false, false, 7, Absent, OsErrorOnClose);
    Environment(false, Answered(r), false, repeatLosesLease, false, true, true)
  }

  /** The failing run: the first attempt stores and finishes a successful capture, its close fails, and the
      fetch ends in an exception, or in a lost lease beside the capture. */
  method LateCloseLosesTheAnswer(resource: string, later: Environment, repeatLosesLease: bool)
    returns (result: Option<FetchResult>, late: bool)
    ensures late && (result.None? <==> !repeatLosesLease)
    ensures repeatLosesLease ==> result.value.gap == Some(LeaseLost) && OneSuccessful(result.value.records)
  {
    hide OneSuccessful, NoneSuccessful;
    ghost var log;
    var env := CloseFailsAfterSuccess(repeatLosesLease);
    var envs := [env, later, later];
    ghost var c := Setup(resource, true, false, None);
    DecisionUnfolds(c, envs, 1, None, 1.0);
    assert ResponseDecision(c, 1, env, env.dispatch.response, None, 1.0) == Left(Return(None));
    result, late, log := FetchLive(resource, true, false, Refresh, None, false, false, false, envs, 1.0);
  }

  /** An environment that answers with the given status and a stored body, under nothing but good luck. */
  function Answers(status: int, retryAfter: RetryAfter, capture: nat): Environment {
    var r := Response(status, NoLocation, true, false, false, false, false, Stored, true, false, false, false, capture, retryAfter, Closed);
    Environment(false, Answered(r), false, false, false, true, true)
  }

  /** An environment that answers 304, with a kept capture that still verifies. */
  function AnswersUnmodified(): Environment {
    var r := Response(304, NoLocation, true, false, false, true, false, Stored, true, false, false, true, 7, Absent, Closed);
    Environment(false, Answered(r), false, false, false, true, true)
  }

  /** A conditional fetch that is answered 304 hands over the kept capture after one attempt; without
      validators the same answers cost three attempts and leave a gap. */
  method ConditionalFetchReuses(resource: string, kept: Record, later: Environment) returns (result: Option<FetchResult>, late: bool)
    requires kept.Successful()
    ensures kept.validators ==> result.Some? && result.value.gap.None? && |result.value.attempts| == 1 && OneSuccessful(result.value.records)
    ensures kept.validators ==> result.value.records[|result.value.records| - 1] == kept
    ensures !kept.validators && later == AnswersUnmodified() ==> !(result.Some? && result.value.gap.None?)
  {
    hide NoneSuccessful, FetchDecision, LateAttempt, LateHere;
    ghost var log;
    var envs := [AnswersUnmodified(), later, later];
    ghost var c := Setup(resource, true, false, Some(kept));
    ghost var v := FirstValidator(Conditional, Some(kept));
    assert envs[0] == AnswersUnmodified() && envs[1] == later == envs[2];
    assert ValidatorAt(c, envs, 1, v) == v;
    if kept.validators {
      assert SucceedsAt(c, envs, 1, v, 60.0);
      OnlyAt(c, envs, 1, v, 60.0);
    } else if later == AnswersUnmodified() {
      forall n | 1 <= n <= 3
        ensures !SucceedsAt(c, envs, n, v, 60.0)
      {
        assert ValidatorAt(c, envs, n, v) == None;
      }
    }
    CrashExactlyWhenLate(c, envs, 1, v, 60.0);
    hide SucceedsAt, ValidatorAt;
    result, late, log := FetchLive(resource, true, false, Conditional, Some(kept), true, false, false, envs, 60.0);
  }

  /** A throttled fetch: 429 with a Retry-After of one second, then 200. The second answer's capture is returned
      beside the evidence of the first. */
  method ThrottledThenAnswered(resource: string, later: Environment) returns (result: Option<FetchResult>, late: bool)
    ensures result.Some? && !late && result.value.gap.None? && |result.value.attempts| == 2
    ensures OneSuccessful(result.value.records) && result.value.records[|result.value.records| - 1] == Record(8, 200, resource, false)
  {
    hide NoneSuccessful, FetchDecision, LateAttempt, LateHere;
    ghost var log;
    var envs := [Answers(429, Seconds(1), 7), Answers(200, Absent, 8), later];
    ghost var c := Setup(resource, true, false, None);
    assert envs[0] == Answers(429, Seconds(1), 7) && envs[1] == Answers(200, Absent, 8);
    assert ContinuesAt(c, envs, 1, None, 60.0);
    assert ValidatorAt(c, envs, 1, None) == None == ValidatorAt(c, envs, 2, None);
    assert SucceedsAt(c, envs, 2, None, 60.0);
    OnlyAt(c, envs, 2, None, 60.0);
    CrashExactlyWhenLate(c, envs, 1, None, 60.0);
    hide SucceedsAt, ValidatorAt;
    result, late, log := FetchLive(resource, true, false, Refresh, None, false, false, false, envs, 60.0);
  }
}
