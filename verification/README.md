# Verified model of the equity evidence engine

A Dafny 4.11 model of the hardest logic of the repository, with proofs of what that logic is for. Each
module stands for one component. Values and pure computations are datatypes and functions; the solver,
the shared rate coordinator, the attempt table and the transport are classes whose methods update their
fields; loops of the source are loops here. Every method is proved against a specification, and the
specification carries the theorems.

`dafny verify dfyconfig.toml` checks the whole project.

## What is proved

**Reverse valuation** (`Intervals`, `Forecasts`, `Residuals`, `Monotone`, `Growth`, `Valleys`,
`Certificates`, `Midpoints`, `Powers`, `Contexts`, `Searching`, `Solving`, `Escapes`, `Sharpness`,
`Completeness`, `Repricing`). Decimal
arithmetic is `real` arithmetic followed by a rounding given as a parameter: two directed roundings of which
only `down(x) <= x <= up(x)` is used, and a nearest rounding of which nothing is used unless a lemma says
so. A derivative interval is read as an enclosure of every mean
slope, so no limit is needed and the tax kink is covered. The interval residual is proved to enclose the
exact value of the forecast less the target, for every parameter of the interval, any horizon and any
outward rounding. From this every answer of the solver is a statement about the whole declared domain, at
every exit of the run: `Certificate` says what a returned result carries, `Run` establishes it, and the
lemmas of `Certificates` draw the consequences.

The rounded midpoint `(lo + hi) / 2`, where both the sum and the half are rounded, can lie outside the
interval it halves. In the code's own 80-digit half-even context `Contexts.MidpointEscapes` says exactly for
which neighbours it does, and `Escapes` gives a piece of the solver's own partition that it happens to: the
band around a tax kink at 5/6. What follows:
- A bracket a few last-digit units wide can leave its certified region, and a record handed an unordered
  interval, or a representative outside its interval, makes `run()` raise; a wrong answer is never returned.
  The model returns `None` there.
- "Every zero of the domain lies in the returned interval" holds for margin and reinvestment solves without
  any condition, and for growth solves whose yearly cash losses, if any, come before the gains, for any
  target, when the interval lies above -1. For every other growth solve it holds when the interval is wider
  than fifteen units in the 80th digit. For any solve it holds under a condition that is computed before the
  call: `Sharpness.DigitsSuffice` bounds the width of interval evaluation over 36 last-digit units and compares
  it with the tolerance. Where it fails, the residual must change sign at least twice more outside the region.
- Under the same condition, a width tolerance of at least 41 units and no initial piece of six units or fewer,
  a result is always returned, whatever the budgets (`Sharpness.EnoughDigitsAreCalm` with `Run`). The stronger
  `Wide` asks for room for the whole iteration budget instead.

`Searching` says without the loop when refinement gives up and when a domain stays unresolved, both by an
if-and-only-if, and `Run` ties every region to it. `Completeness` turns this into an answer: a slope, a width
and a number of halvings that a caller computes before the call, with budgets that cover them, make the run
conclusive.

**Dispatch limiter and quotas** (`Limiter`, `Quotas`, `Transport`). The three Lua scripts are atomic steps
of a transition system; theorems quantify over every interleaving of reserve, confirm, cooldown and loss of
keys, with a clock that never runs back. `Quotas` runs `prepare` under its lock with arbitrary transaction
times. The row's `prepared_at` is filled by `clock_timestamp()` (infra/migrations/versions/0003_source_ingestion.py,
line 56), while the gate looks back from `now()`; the proofs use only that the stamp is not before the
transaction's time. Spacing of starts survives any loss of keys under an exact bound on the cooldown that
recreates a lost hash. `Transport` runs the live fetch against every behaviour of its environment, a close
that fails after the attempt was finished included: the store refuses to finish a terminal attempt again
(infra/migrations/versions/0003_source_ingestion.py, lines 203-220), so `fetch` then ends in an exception, or
in a lost lease beside a capture that was kept. The outcome of a fetch is a function of its environment, and
the theorems say for which environments an attempt succeeds, goes on, starts over or leaves which gap, when
the fetch ends without a gap, and when in an exception or a lost lease.

**Periods, history, sectors** (`Calendar`, `Periods`, `Comparisons`, `FiscalWindows`, `Decimals`,
`History`, `Sectors`). The assemblies are proved against an arbitrary daily flow: what a flag-free amount states about its reported
window follows from what its sources state about theirs. The digit formulas are proved sufficient, and
sharp at a thousand operands.

**Discovery and pagination** (`Inventories`, `FilingMonitor`, `Fred`). A complete inventory misses nothing
its documents present, a chain of polls reports each filing once, and pages behave like the list they cut.

## Model

| member | source | states |
|---|---|---|
| Intervals.AddContains | packages/core/valuation.py:97-103 | sums of members stay inside the outward-rounded sum, for any outward rounding |
| Intervals.MulContains | packages/core/valuation.py:111-117 | products of members stay inside the rounded corner hull, whatever the signs |
| Intervals.DivContains | packages/core/valuation.py:119-127 | quotients of members stay inside whenever the denominator interval avoids zero |
| Intervals.SquareContains | packages/core/valuation.py:129-133 | the second power of an interval encloses every mixed product of two members, which the quotient rule needs |
| Intervals.MulTracks | packages/core/valuation.py:154-157 | the product pair bounds both values and every mean slope of a product |
| Intervals.DivTracks | packages/core/valuation.py:159-163 | the quotient pair bounds both values and every mean slope of a quotient |
| Intervals.PositiveTracks | packages/core/valuation.py:165-174 | cutting off at zero keeps both enclosures, also across the kink |
| Forecasts.Evaluate | packages/core/valuation.py:32-80 | rows, explicit and terminal present values add up to the closed form of the operating value; the terminal share exists exactly for a positive value |
| Forecasts.ResolveValid | packages/core/valuation_payload.py:164-179 | every parameter of the declared domain yields a forecast inside the model's domains |
| Forecasts.ResolveTwice | packages/core/valuation_payload.py:199-208 | solving from the forecast resolved at the lower bound poses the same problem as solving from the scenario |
| Forecasts.YearCash | packages/core/valuation.py:41-49 | profits are taxed and losses are not; each year pays its reinvestment on its own revenue |
| Forecasts.TextbookValues | tests/core/test_valuation.py:63-71 | the hand oracle: ten a year and a terminal 143.4375, so 173.4375 over three years and 193.4375 over five |
| Forecasts.TextbookZero | tests/core/test_valuation.py:74-90 | at the target 193.4375 growth 0.1, reinvestment 0.05 or terminal margin 0.2 zeroes the exact residual of the matching solve |
| Residuals.ComputeResidual | packages/core/valuation.py:177-211 | the loop over years computes the interval residual, and that encloses the exact residual and its slopes |
| Residuals.Enclosure | packages/core/valuation.py:177-211 | for every domain and any two of its points the value interval holds both exact residuals and the derivative interval their mean slope |
| Monotone.StrictInMargin | packages/core/valuation_types.py:86-101 | the exact residual strictly increases with the terminal margin, for any horizon, on the whole real line |
| Monotone.StrictInReinvestment | packages/core/valuation_types.py:117-144 | the exact residual strictly decreases with reinvestment, for any horizon, on the whole real line |
| Certificates.ChainCovers | packages/core/valuation.py:345-346 | proof and unvisited domains together hold every parameter of the declared domain |
| Certificates.ChainApart | packages/core/valuation.py:317-343 | two of those domains share at most an end |
| Certificates.NoSolutionMeansNoZero | packages/core/valuation.py:348-357 | "no_solution_in_domain": no parameter of the domain zeroes the exact residual |
| Certificates.ConvergedMeansUnique | packages/core/valuation.py:348-357 | "converged": at most one zero in the whole domain, strictly opposite signs at the ends of the interval, residual within tolerance throughout it |
| Certificates.ZeroInsideIffIntervalMeetsRegion | packages/core/valuation.py:233-261 | what the certificate alone gives: a zero lies in the interval if and only if the interval meets the region it was refined from; always for margin and reinvestment |
| Certificates.MonotoneConvergedHoldsZero | packages/core/valuation.py:233-261 | margin and reinvestment: a converged interval holds every zero there is, under any rounding of midpoints |
| Certificates.WideIntervalHoldsZero | packages/core/valuation.py:233-261 | any variable: an interval wider than fifteen units in the 80th digit holds every zero of the domain |
| Certificates.SharpConvergedHoldsZero | packages/core/valuation.py:233-261 | any variable, any iteration budget: if around every zero the tolerance is met before the digits run out, a converged interval holds every zero |
| Certificates.SharpIntervalInside | packages/core/valuation.py:233-261 | ... and lies inside its region and inside the declared domain |
| Certificates.MissedZeroMeansMoreCrossings | packages/core/valuation.py:233-261 | a missed zero needs two further sign changes of the residual outside the region |
| Growth.SingleCrossing | packages/core/valuation.py:32-63 | growth solves with losses before gains and a positive target: at and after its first zero the residual only increases |
| Growth.GrowthConvergedHoldsZero | packages/core/valuation.py:233-261 | for them a converged interval whose representative is above -1, as its evaluation demands, holds every zero above -1 |
| Growth.GrowthNeverNonUnique | packages/core/valuation.py:348-357 | for them the answer can never be "non_unique" |
| Valleys.OnceRising | packages/core/valuation.py:32-63 | losses before gains, any target: once the value rises with growth it keeps rising |
| Valleys.ValleyConvergedHoldsZero | packages/core/valuation.py:233-261 | for any target a converged interval above -1 holds every zero of the domain |
| Certificates.NonUniqueMeansTwo | packages/core/valuation.py:348-357 | "non_unique": two regions sharing at most an end, each with a change of sign |
| Certificates.MonotoneNeverNonUnique | packages/core/valuation.py:348-357 | margin and reinvestment solves can never be answered "non_unique" |
| Midpoints.WideMidpointInside | packages/core/valuation.py:316-326 | a width above six units in the 80th digit keeps the rounded midpoint strictly inside |
| Midpoints.MidpointWithinThreeUnits | packages/core/valuation.py:317-317 | two half-even roundings move the midpoint by at most three units |
| Contexts.MidpointEscapes | packages/core/valuation.py:316-326 | for 80-digit neighbours n and n + 1 units between 0.5 and 1 the midpoint in this context lies outside them if and only if n mod 5 is 1, 2 or 3, and is otherwise one of them |
| Escapes.BandIsPiece | packages/core/valuation.py:263-280 | the one-unit band around the unrepresentable kink at 5/6 is a piece of the initial partition |
| Escapes.BandMidpointEscapes | packages/core/valuation.py:360-363 | the rounded midpoint of that band lies above it |
| Escapes.BandNeverReturned | packages/core/valuation_types.py:211-221 | so no certified result has that band as its interval: the representative check refuses it |
| Escapes.BandCanHoldTheZero | packages/core/valuation.py:263-280 | although a target met at 5/6 puts the zero into it |
| Escapes.KinkedExample | packages/core/valuation_types.py:117-144 | such problems exist: an accepted two-year forecast and specification with that kink |
| Sharpness.ResidualSized | packages/core/valuation.py:177-211 | the interval residual over any parameter interval of a given size exists and is no wider than the computed bound |
| Sharpness.SufficientDigitsAreSharp | packages/core/valuation.py:233-242 | if the bound over 36 last-digit units is within the tolerance, every such bracket with a change of sign is accepted |
| Sharpness.ContextSlips | packages/core/valuation.py:97-103 | the context moves a number by at most a part in 10^79 or its least unit |
| Sharpness.EnoughDigitsHoldZero | packages/core/valuation.py:233-261 | in this context, under that computed condition, a converged interval holds every zero of the domain |
| Sharpness.EnoughDigitsAreCalm | packages/core/valuation.py:282-374 | ... and a result is always returned, if no initial piece is six units wide or less |
| Contexts.ContextHasEightyDigits | packages/core/valuation.py:27-29 | the 80-digit half-even context has the rounding properties that the theorems use, at every power of ten within its exponents |
| Contexts.ContextOutward | packages/core/valuation.py:97-103 | its floor and ceiling roundings enclose |
| Contexts.CarriedIsExact | packages/core/valuation.py:27-29 | it carries every number of at most 80 digits exactly |
| Solving.KinkEnclosed | packages/core/valuation.py:263-274 | the margin at which a year starts to pay tax lies in the computed kink interval |
| Solving.KinkEndsAreCuts | packages/core/valuation.py:275-277 | every kink end strictly inside the domain becomes a cut |
| Solving.CutsExactly | packages/core/valuation.py:263-280 | the cuts are the two ends of the domain and the kink ends strictly inside it, and nothing else |
| Solving.SignedSlopeIsMonotone | packages/core/valuation.py:304-309 | a signed derivative interval makes the exact residual strictly monotone on the region |
| Solving.SplitStaysPlaced | packages/core/valuation.py:316-326 | with a width tolerance of 41 units every split stays ordered and leaves more than fifteen units |
| Solving.StraysNarrow | packages/core/valuation.py:241-260 | a bracket can leave its region only with fifteen units or fewer |
| Solving.SharpStillWide | packages/core/valuation.py:237-242 | a sharp problem accepts every bracket of 36 units or fewer that changes sign, so refinement never goes below |
| Solving.Solver.constructor | packages/core/valuation.py:218-225 | counters start at zero |
| Searching.StuckExactly | packages/core/valuation.py:233-261 | refinement gives up if and only if a descent of brackets, each the half that keeps the change of sign or the span of the quarter points, uses up the iterations or comes to a deadlock: a midpoint equal to an end, or a midpoint of unknown sign whose quarter points lack the two signs |
| Searching.UnresolvedExactly | packages/core/valuation.py:297-315 | a domain stays unresolved if and only if its residual interval holds zero and its derivative interval does too, or an end sign is unknown, or refinement between opposite signs gives up |
| Solving.Solver.At | packages/core/valuation.py:227-231 | budgeted evaluation: fails for the budget exactly when it is spent, otherwise costs one, and encloses or reports the arithmetic |
| Solving.Solver.SignAt | packages/core/valuation.py:244-246 | a nonzero sign is the sign of the exact residual |
| Solving.Solver.Turn | packages/core/valuation.py:236-260 | one iteration ends as the search does, within four evaluations, and a next bracket has opposite exact signs |
| Solving.Solver.Refine | packages/core/valuation.py:233-261 | finds, gives up and fails exactly as the search does unless the evaluations run out, which needs more than are left for its iterations; a found bracket has opposite exact signs in the region's direction, meets both tolerances, carries its residual, and stays inside the region or is at most fifteen units wide |
| Solving.Solver.Partition | packages/core/valuation.py:263-280 | the initial pieces tile the domain and number subdivisions plus one |
| Solving.Solver.Examine | packages/core/valuation.py:297-315 | decides about a domain exactly as the search says unless the evaluations run out, and whatever is decided is certified by exact facts about every point of it |
| Solving.Solver.Visit | packages/core/valuation.py:296-339 | one turn keeps the tiling, the count and the budgets, records what was judged or splits what stayed unresolved, and lowers 2*(max_subdivisions - subdivisions) + pending |
| Solving.Solver.Run | packages/core/valuation.py:282-374 | every returned result, on every exit, carries its certificate, and each of its regions is what the search says of that domain; a calm problem always gets a result; if no initial piece stays unresolved and the evaluations suffice, the proof is those pieces and nothing is left unvisited |
| Solving.Solver.Conclude | packages/core/valuation_types.py:194-224 | state, reason, headline scalar and record checks follow from the certified parts |
| Completeness.NarrowIsDone | packages/core/valuation.py:236-242 | a bracket of the planned width with a change of sign is accepted |
| Completeness.QuartersKnown | packages/core/valuation.py:250-258 | where the sign at the midpoint of a wider bracket is unknown, both quarter points have the signs that refinement needs |
| Completeness.SearchSucceeds | packages/core/valuation.py:233-261 | so refinement finds its root within one iteration more than the computed halvings |
| Completeness.SolveAsPlanned | packages/core/valuation.py:282-374 | with a computed slope, width and number of halvings and budgets that cover them, the run is conclusive: no_solution, converged or non_unique by how many initial pieces change sign |
| Completeness.ConvergesInContext | packages/core/valuation.py:282-374 | in the code's own context, an undivided domain with known opposite end signs, a signed slope, tolerances the digits can meet and budgets for the halvings is answered "converged", with an interval that holds every zero |
| Repricing.BuildBridge | packages/core/valuation_payload.py:141-161 | eligible exactly through the gate; with exact arithmetic the adjustment is cash plus nonoperating assets less debt, leases, preferred, noncontrolling and other claims, each totalled over its own kind, and target plus adjustment is price times shares |
| Repricing.TargetByKind | packages/core/valuation_payload.py:144-158 | the exact target is price times shares less cash and nonoperating assets plus every senior claim, kind by kind |
| Repricing.RoundTrip | packages/core/valuation_payload.py:199-216 | valuing the implied forecast returns the quoted price within tolerance plus bridge rounding, per share |
| Repricing.ExactBridgeHasNoSlack | packages/core/valuation_payload.py:141-161 | 40-digit inputs whose market value and claims fit 80 digits leave no rounding slack, derived from their digits |
| Repricing.MarketIsExact | packages/core/valuation_payload.py:151-152 | price times shares is never rounded for 40-digit inputs |
| Repricing.ToleranceIsExact | packages/core/valuation.py:234-234 | whenever its product and sum fit 80 digits the tolerance is absolute + relative*abs(target) exactly |
| Repricing.DeclaredRoundTrip | packages/core/valuation_payload.py:199-216 | joined: valuing the implied forecast returns the quoted price within (absolute + relative*abs(target))/shares |
| Repricing.CalculateScenario | packages/core/valuation_payload.py:199-228 | a scenario is evaluated exactly when its solve converged, and then reprices within the bound; a calm scenario is never refused |
| Limiter.Coordinator.ReserveScript | packages/ingest/limiter.py:43-57 | the script as one step of the shared state |
| Limiter.Coordinator.ConfirmScript | packages/ingest/limiter.py:58-72 | the script as one step of the shared state |
| Limiter.Coordinator.CooldownScript | packages/ingest/limiter.py:73-83 | the script as one step of the shared state; how long it blocks is CooldownWaits |
| Limiter.StartFollowsItsGrant | packages/ingest/limiter.py:55-64 | a start follows its own reservation within 0.05 s with no cooldown or loss of the hash between, and a token starts at most once |
| Limiter.CooldownRevokes | packages/ingest/limiter.py:80-82 | a cooldown revokes the outstanding grant for good |
| Limiter.StartsAreSpaced | packages/ingest/limiter.py:50-55 | while the hash is kept any two starts are at least 1/rate apart |
| Limiter.CooldownsHold | packages/ingest/limiter.py:64-65 | no start precedes the end of any cooldown announced before it |
| Limiter.CooldownWaits | packages/ingest/limiter.py:73-83 | while the hash is kept no start follows a cooldown of s seconds before s seconds have passed, nor a review cooldown before second 253370764800, whatever reserves, confirms and cooldowns come between |
| Limiter.ReviewIsYear9999 | packages/ingest/limiter.py:75-75 | that second is the beginning of January 1, 9999 |
| Limiter.DueStartIsGranted | packages/ingest/limiter.py:43-72 | when reserves are a second old, cooldowns are over, the last start is 1/rate ago and the last second holds fewer than ten, a reserve is granted and its confirm is a start |
| Limiter.NeverMoreThanTen | packages/ingest/limiter.py:66-68 | if only the hash is ever lost, no second holds more than ten starts |
| Limiter.QuietAfterLoss | packages/ingest/limiter.py:46-48 | after a loss nothing starts before the quiet time of the command that recreates the hash |
| Limiter.NoWindowSpansTheLoss | packages/ingest/limiter.py:46-48 | if both keys are lost and a reserve comes next, no one-second window holds starts from both sides |
| Limiter.SpacingSurvivesLoss | packages/ingest/limiter.py:43-83 | under any losses of either key or both starts stay a gap apart, if rates leave the gap and every cooldown that recreates a lost hash blocks for at least the gap |
| Limiter.TenUnderAnyLoss | packages/ingest/limiter.py:43-83 | with a gap of a tenth of a second no second holds more than ten starts even when the sorted set is lost |
| Limiter.ShortReopeningBreaksSpacing | packages/ingest/limiter.py:73-83 | conversely, for every rate and every shorter reopening cooldown a legal run with two starts exactly that close |
| Quotas.Store.Prepare | packages/ingest/provider_store.py:293-324 | one serialized transaction; an existing sequence is returned and reserves nothing, every refusal names its quota and leaves the table as it was |
| Quotas.QuotasAlwaysHold | packages/ingest/provider_store.py:257-276 | over every run each 1-hour, 1-day and 31-day window keeps the request and symbol quotas, even if times are not monotone in lock order |
| Quotas.BytesAlwaysHold | packages/ingest/provider_store.py:267-274 | the wire bytes reserved in any 31-day window stay within the quota |
| Quotas.AtMostThreeAttempts | packages/ingest/provider_store.py:237-255 | a request and resource never get more than three attempts |
| Quotas.AdmittedExactly | packages/ingest/provider_store.py:237-276 | a reservation later than all others is let through if and only if it is among its request's first three and, with it, every window keeps its request, symbol and byte quota; each refusal names what would be exceeded |
| Quotas.AppendKeepsWindows | packages/ingest/provider_store.py:258-265 | the newest row saw every other row of any window it falls into |
| Transport.ValidateRedirect | packages/ingest/transport.py:239-263 | accepted exactly for a screened location that resolves to the plain approved resource |
| Transport.RetryDelay | packages/ingest/transport.py:266-281 | a requested wait is never shortened, and is refused exactly beyond the horizon (section 10.2.3 of RFC 9110) |
| Transport.CooldownSeconds | packages/ingest/transport.py:652-657 | the shared cooldown is the requested delay, raised to 600 s for 403 and to 1 s for 429 and to nothing else |
| Transport.Fetch.Unmodified | packages/ingest/transport.py:494-529 | only a verified conditional capture stands in for a 304 body (section 15.4.5 of RFC 9110) |
| Transport.Fetch.Redirect | packages/ingest/transport.py:614-637 | the fetch goes on exactly for a validated target with attempts left; the next request goes to that target, without a validator, and the body is kept |
| Transport.Fetch.Failed | packages/ingest/transport.py:638-672 | an error answer is recorded, its wait is put to the limiter, and the fetch goes on exactly for status 408, 429, 500, 502, 503 or 504 with a representable wait whose cooldown, where one is needed, is accepted and fits |
| Transport.Fetch.Leave | packages/ingest/transport.py:673-699 | a failing close replaces what was under way; after finish it ends in an exception or a lost lease, and only then |
| Transport.Fetch.Attempt | packages/ingest/transport.py:370-708 | an attempt leads where its environment decides; it ends settled, or open only when the lease is lost; a late close happens exactly when the response was finished and its close fails |
| Transport.BackoffExactly | packages/ingest/transport.py:638-709 | another attempt with the same validator is wanted if and only if the lease holds and the transfer failed or a transient error answer allows it |
| Transport.AgainExactly | packages/ingest/transport.py:494-511 | the fetch starts over without a validator if and only if a 304 has no verified capture behind it or a 301, 302, 303, 307 or 308 leads back to the resource before the third attempt |
| Transport.SuccessExactly | packages/ingest/transport.py:512-613 | an attempt ends the fetch without a gap if and only if a 2xx body is stored, or a 304 has a verified capture, and the response closes |
| Transport.DispatchGaps | packages/ingest/transport.py:370-457 | which gap each way of not being answered leaves |
| Transport.AnswerGaps | packages/ingest/transport.py:459-699 | which gap each answer leaves that is neither a success nor worth another attempt |
| Transport.GapFreeExactly | packages/ingest/transport.py:328-727 | a fetch ends without a gap if and only if one of its three attempts succeeds and every earlier one goes on |
| Transport.FetchLive | packages/ingest/transport.py:328-727 | at most three attempts, each finished once and listed in order unless the lease is lost; each send follows its own confirmed permit and targets the resource; gap-free exactly if some attempt succeeds after attempts that go on, and then that attempt is the last and the capture is that of its answer or the kept one; a result is returned whenever no response closes badly, a lost lease only where one was lost |
| Transport.CrashExactlyWhenLate | packages/ingest/transport.py:673-699 | an exception leaves the fetch exactly when the close of a reached attempt fails after finish and the lease still holds |
| Transport.LeaseLostNeedsALoss | packages/ingest/transport.py:714-720 | a lost lease is reported only where some step of some attempt lost it |
| Transport.LateCloseLosesTheAnswer | packages/ingest/transport.py:673-699 | the failing run, through the whole fetch: a stored and finished success, a failing close, and an exception or a lost lease beside the capture |
| Transport.ThrottledThenAnswered | packages/ingest/transport.py:652-713 | a throttled run through the whole fetch: 429 with a wait of one second, then 200, returns the second answer's capture after two attempts |
| Transport.ConditionalFetchReuses | packages/ingest/transport.py:494-529 | a conditional run: a 304 hands over the kept capture after one attempt if it has validators, and otherwise never |
| Calendar.NextDayFollows | packages/core/periods.py:366-366 | adding one day adds one to the ordinal, across months and leap years |
| Periods.Match | packages/core/fiscal.py:132-145 | the search finds a label exactly when there is one |
| Periods.LabelUnique | packages/core/fiscal.py:132-145 | a period has one reviewed year and quarter, cumulative or not |
| Periods.SupportedYearLength | packages/core/fiscal.py:37-51 | a supported year is twelve calendar months or 52 or 53 whole weeks |
| Periods.Assemble | packages/core/periods.py:227-279 | formed exactly when there is no problem, every operand is in range and capital expenditure is not negative; then the exact signed sum with the exact sum of all errors |
| Periods.ErrorsAdd | packages/core/periods.py:243-249 | the signed sum is within the summed errors of the signed flows |
| Periods.ContiguousFlows | packages/core/periods.py:317-322 | adjoining periods add up to the period they span |
| Periods.TtmFromQuarters | packages/core/periods.py:295-331 | formed exactly for four supported adjoining quarters with summable operands, of one supported reviewed calendar if there is one; within the summed error of the flow over the window; twelve months under the calendar gate |
| Periods.QuarterFromYtd | packages/core/periods.py:334-374 | formed exactly for consecutive cumulative periods of one edition with summable operands; within the summed error of the flow over the quarter |
| Periods.TtmFromAnnualYtd | packages/core/periods.py:377-426 | formed exactly for a year, its opening and the next year's matching YTD with summable operands; within the summed error of the flow over the window |
| Periods.TrailingYear | packages/core/periods.py:295-331 | four calendar quarters in a row with operands in range always make up an amount: the sum of the four, twelve months from the first of them |
| Periods.MonthsBridge | packages/core/periods.py:334-426 | cumulative periods a quarter apart, and a year with matching opening months, always pass the calendar gates of the other two derivations |
| Periods.CalendarQuarters | packages/core/periods.py:306-315 | the quarters so formed of a calendar year run from January, April, July and October 1 to March 31, June 30, September 30 and December 31 |
| FiscalWindows.FourQuartersAreTwelveMonths | packages/core/periods.py:306-322 | four reviewed quarters of a month calendar are exactly twelve months |
| FiscalWindows.FourQuartersInWeeks | packages/core/periods.py:306-322 | in a week calendar they are 52 weeks plus one for each of at most two long quarters, 54 when two years meet in theirs |
| FiscalWindows.YtdQuarterLength | packages/core/periods.py:334-374 | the reviewed quarter between two cumulative periods is three months, or 13 or 14 weeks |
| FiscalWindows.AnnualBridgeInMonths | packages/core/periods.py:377-426 | the reviewed annual bridge of a month calendar is twelve months |
| FiscalWindows.AnnualBridgeInWeeks | packages/core/periods.py:377-426 | in a week calendar it is 52, 53 or 54 weeks |
| Comparisons.Comparable | packages/core/fiscal.py:147-168 | true exactly for the same quarter, or the whole year, of two adjoining years of one kind |
| Comparisons.ComparableIsLikeForLike | packages/core/fiscal.py:147-168 | comparable periods are disjoint and equally long; 13 weeks never meet 14 |
| Decimals.ExactSum | packages/core/periods.py:199-224 | a returned sum is exact, and up to a thousand operands in range it is always returned |
| Decimals.PartialSumExact | packages/core/periods.py:208-213 | every partial sum of up to a thousand operands fits the computed precision |
| Decimals.ThousandIsSharp | packages/core/periods.py:208-213 | with 1001 operands of fifty nines the precision no longer suffices |
| Decimals.InterpolationExact | packages/core/history.py:105-124 | both weighted terms and their sum fit the computed precision for every quarter weight |
| Decimals.Inexact | packages/core/periods.py:214-215 | the trap fires exactly when no coefficient of that many digits carries the number |
| History.HistoricalBand | packages/core/history.py:131-216 | eligible and excluded partition the samples with exact reasons, eligible and missing partition exactly 4*years expected quarters |
| History.BandIgnoresOrderAndCopies | packages/core/history.py:149-199 | reordering or exactly repeating samples changes neither eligible samples nor missing quarters nor percentiles |
| History.ExpectedCount | packages/core/history.py:192-197 | the window always holds exactly four quarter ends per year, also from February 29 |
| History.EligibleExactly | packages/core/history.py:149-189 | a sample is eligible if and only if it is an unflagged finite number for a quarter end inside the window, of the series, with a lineage, and no other sample of the series contradicts it |
| History.ReasonsExactly | packages/core/history.py:156-186 | beside an excluded sample stands one reason for each thing that speaks against it, a duplicate only where nothing else does |
| History.QuantileMonotone | packages/core/history.py:105-124 | a higher proportion never gives a lower percentile |
| History.QuantileMirrors | packages/core/history.py:105-124 | a percentile from below is the opposite percentile of the negated values from above |
| History.QuantileOfProgression | packages/core/history.py:105-124 | on evenly spaced values the percentile k/4 lies (n - 1)*k/4 steps above the first |
| History.BandOfProgression | packages/core/history.py:199-214 | a band whose sorted eligible values are evenly spaced has exactly those three quartiles |
| History.BandOrdered | packages/core/history.py:199-214 | minimum <= p25 <= p50 <= p75 <= maximum of the eligible values |
| Sectors.SelectOfSet | packages/core/sectors.py:179-203 | an issuer's snapshot selection ignores order and exact duplication |
| Sectors.Accept | packages/core/sectors.py:344-385 | one complete company is classified, counted and listed as its inputs say |
| Sectors.AccountRoster | packages/core/sectors.py:339-385 | lists, reasons, ratios and sign counts are exactly those of the distinct issuers |
| Sectors.ContributesExactly | packages/core/sectors.py:339-385 | an issuer contributes, and its ratio is listed, exactly by its one snapshot, its findings, its denominator against zero and error, and the kind of metric |
| Sectors.ExcludedExactly | packages/core/sectors.py:179-203 | which reason each excluded issuer carries |
| Sectors.SignsExactly | packages/core/sectors.py:376-381 | the sign counts are the numbers of issuers whose counted value is above, at and below zero |
| Sectors.RosterConserved | packages/core/sectors.py:386-386 | every issuer is in exactly one of contributing and excluded, v <= k <= n, ratios and their exclusions partition the roster |
| Sectors.SignsTotal | packages/core/sectors.py:379-381 | sign counts total v for growth metrics and k otherwise |
| Sectors.AccountOfSets | packages/core/sectors.py:339-385 | all of this ignores the order and exact duplication of snapshots |
| Sectors.CapCoverage | packages/core/sectors.py:433-447 | known exactly when every issuer's capitalization is; the share lies in [0,1] and is 1 for a full roster |
| Sectors.CountShares | packages/core/sectors.py:394-452 | breadth, issuer coverage and ratio eligibility are rounded shares in [0,1], known exactly when there is something to divide by |
| Sectors.PrecisionCarriesEnds | packages/core/sectors.py:656-660 | the histogram's digits carry the ends, the span and its first hundred multiples exactly |
| Sectors.BoundariesOrdered | packages/core/sectors.py:659-663 | rounded boundaries never step back, from the exact minimum to the exact maximum |
| Sectors.BoundaryExact | packages/core/sectors.py:659-663 | where the exact cut needs no rounding the boundary is the exact cut |
| Sectors.BisectRight | packages/core/sectors.py:666-666 | the number of boundaries at or below the value |
| Sectors.Histogram | packages/core/sectors.py:622-677 | refused, empty, one closed bin, or contiguous equal-width bins whose members are exactly the observations inside and whose counts total all |
| Sectors.InExactlyOneBin | packages/core/sectors.py:664-667 | every observation is in one bin and in no other |
| Inventories.Assemble | packages/ingest/sec_inventory.py:186-246 | refused exactly for unadvertised or repeated documents; window rows, gaps and each flag as specified |
| Inventories.CompleteMissesNothing | packages/ingest/sec_inventory.py:205-214 | a complete inventory holds every filing of the presented history in its window |
| Inventories.CompleteExactly | packages/ingest/sec_inventory.py:201-231 | complete if and only if no advertised document of the window is missing, every document has the advertised count and range, no document repeats an accession, and equal accessions in the window have equal text |
| Inventories.OneTextPerAccession | packages/ingest/sec_inventory.py:227-231 | in a complete inventory an accession has one source text |
| Inventories.SupplyOrderIrrelevant | packages/ingest/sec_inventory.py:195-231 | older documents in any order give the same rows, gaps, flags and verdict |
| Inventories.CleanPollSelectsHistory | packages/ingest/filing_monitor.py:42-70 | a clean poll selects exactly the admitted filings of the presented history |
| FilingMonitor.Select | packages/ingest/filing_monitor.py:42-70 | the loop fills the selected dictionary and notices every flag |
| FilingMonitor.SelectedExactly | packages/ingest/filing_monitor.py:57-70 | without duplicate accessions the selection is exactly the admitted rows |
| FilingMonitor.Compare | packages/ingest/filing_monitor.py:34-110 | refused exactly for an unpinned inventory, otherwise the specified comparison |
| FilingMonitor.EligiblePoll | packages/ingest/filing_monitor.py:72-96 | an eligible poll keeps everything unchanged and reports everything else once |
| FilingMonitor.ReportedExactly | packages/ingest/filing_monitor.py:57-86 | a row of a reviewed form verifiably accepted by the cutoff, and not by the baseline's, is reported as an amendment if and only if its form ends with "/A" and as a new filing otherwise; no other row is |
| FilingMonitor.EligibleExactly | packages/ingest/filing_monitor.py:42-83 | a poll is eligible if and only if both inventories are complete, unflagged and in order and every row accepted by the baseline is accepted again with the same metadata |
| FilingMonitor.NothingForgotten | packages/ingest/filing_monitor.py:74-83 | along a chain a selected filing stays selected with unchanged metadata |
| FilingMonitor.ReportedOnce | packages/ingest/filing_monitor.py:84-86 | no filing is reported by two polls of a chain |
| FilingMonitor.ReportsAreComplete | packages/ingest/filing_monitor.py:84-86 | seed and reports make up exactly the last selected set |
| Fred.ScanPage | packages/ingest/market_normalize.py:779-802 | the inner loop accepts a page exactly when the list so far stays within bounds, in order and free of overlaps |
| Fred.Normalize | packages/ingest/market_normalize.py:716-853 | the page loop computes the specified normalization, refusals included |
| Fred.PaginationTransparent | packages/ingest/market_normalize.py:716-853 | however a list is cut, an accepted normalization returns the rows of that list, and complete cuts are accepted alike |
| Fred.CutIsTransparent | packages/ingest/market_normalize.py:716-853 | one list cut into pages of any legal sizes, delivered in any order, is normalized like the whole list, refusals included, and like one page if it fits |
| Fred.ArrivalOrderIrrelevant | packages/ingest/market_normalize.py:716-716 | the same pages in any order give the same result |
| Fred.OneRowPerDate | packages/ingest/market_normalize.py:795-802 | for an as-of date at most one row per reference date is selected |
| Fred.SelectedExactly | packages/ingest/market_normalize.py:801-802 | the rows selected for a day are exactly those in force on it, first and last day included; without a day, all |
| Fred.AcceptedExactly | packages/ingest/market_normalize.py:779-800 | a list is normalized if and only if the bounds hold, every row is within them, dates never go back, and no two rows of a date are in force on the same day |

## Left out

- Forecasts.Evaluate: computes over exact reals; the 80-digit rounding of each step, and the digit and exponent limits on inputs, are not modelled.
- Repricing.CalculateScenario: the final addition and division are exact; sensitivities and payload assembly only repeat scenarios.
- Repricing.BuildBridge: takes the outcome of the evidence gate as an input.
- Certificates.ZeroInsideIffIntervalMeetsRegion: for growth solves outside the proved families the condition is on the result; Sharpness gives one before the call.
- Contexts.ContextHasEightyDigits: values beyond the largest exponent raise in the source and are not modelled.
- Solving.Solver.Run: a Decimal signal outside the interval division (overflow beyond 9999) takes the same path as the arithmetic fault and is not produced by the model.
- Completeness.SolveAsPlanned: its conditions suffice and are not necessary; a solve whose pieces must be split first may converge outside them, and then `Searching.UnresolvedExactly` and the certificate say why each region was left.
- Limiter.Coordinator.ReserveScript: clock readings are reals; the decimal printing of replies and the waiting loop of `acquire` are not modelled.
- Quotas.Store.Prepare: the policy guard and `ingestion_prepare` are an input that accepts or refuses the row.
- Transport.FetchLive: replay mode and header construction are not modelled; the archive, clock, network and the store's refusals are inputs.
- Periods.TtmFromQuarters: provenance, unit, scope and revision checks, and the calendar's identity and cutoff checks, enter as a set of policy findings; the same holds for the other two assemblies.
- Calendar.NextDayFollows: the calendar has no last day, so the overflow at `date.max` does not occur.
- History.HistoricalBand: the order of exclusions within one day, values of a wrong type, and whitespace beyond the four ASCII characters are not modelled.
- Sectors.AccountRoster: field specifications, evidence checks and informational flags are inputs; results are sets, so the sorting of issuers by name is not captured.
- Sectors.Histogram: the members of a bin are a set, so their sorting by name is not captured.
- Inventories.Assemble: rows are ordered by filing date only; ties by accession and capture, and the list of captures, are not modelled.
- Fred.Normalize: envelope and request identity checks, locators, value parsing and quality flags are not modelled.
- `ProviderTransport`, the other market normalizers, `compare_to_history`, `calculate_concentration`, aggregate totals and means, and `annual_amount` would only add easier members of the same kind.
- HTTP, Redis, PostgreSQL, archives, hashing, scripts and applications are foreign or presentation code.
