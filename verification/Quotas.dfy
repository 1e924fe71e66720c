/**
 Durable reservations against rolling account quotas (packages/ingest/provider_store.py, _reserve
 and prepare). All reservations for one source are serialized by an advisory lock. The gate looks back
 from the start of its transaction (now()), while the row it admits is stamped when it is written
 (clock_timestamp(), infra/migrations/versions/0003_source_ingestion.py:56), so neither time need grow
 in lock order.
 */
module Quotas {
  import opened Common

  const HOUR: int := 3600
  const DAY: int := 86400
  const MONTH: int := 31 * 86400
  /** PROVIDER_WIRE_LIMIT: twice the body limit plus 64 KiB. */
  const WIRE_LIMIT: int := 2 * (32 * 1024 * 1024) + 65536
  const ATTEMPTS: nat := 3

  datatype Quota = Quota(hourly: nat, daily: nat, monthly: nat, symbols: nat, wireBytes: nat)

  datatype Request = Request(id: nat, objectKey: nat, paramsHash: nat, fetch: nat)

  datatype Attempt = Attempt(request: nat, objectKey: nat, paramsHash: nat, fetch: nat, sequence: nat, at: int)

  datatype Outcome = Existing(row: nat) | Appended(row: nat) | OutOfAttempts | OutOfRequests | OutOfSymbols | Rejected

  // ----- what the SQL counts

  function Since(rows: seq<Attempt>, from: int): set<int> {
    set i | 0 <= i < |rows| && rows[i].at >= from
  }

  function SymbolsSince(rows: seq<Attempt>, from: int): set<nat> {
    set i | 0 <= i < |rows| && rows[i].at >= from :: rows[i].objectKey
  }

  function Consumed(rows: seq<Attempt>, r: Request): set<int> {
    set i | 0 <= i < |rows| && rows[i].request == r.id && rows[i].objectKey == r.objectKey && rows[i].paramsHash == r.paramsHash
  }

  predicate HasRow(rows: seq<Attempt>, r: Request, sequence: nat) {
    exists i :: 0 <= i < |rows| && rows[i].fetch == r.fetch && rows[i].sequence == sequence
  }

  /** The gate of _reserve: None lets the reservation through. Only the metered provider has a quota. */
  function Gate(rows: seq<Attempt>, r: Request, quota: Option<Quota>, now: int): Option<Outcome> {
    if |Consumed(rows, r)| >= ATTEMPTS then Some(OutOfAttempts)
    else if quota.None? then None
    else
      var q, monthly := quota.value, |Since(rows, now - MONTH)|;
      if |Since(rows, now - HOUR)| >= q.hourly || |Since(rows, now - DAY)| >= q.daily || monthly >= q.monthly
         || (monthly + 1) * WIRE_LIMIT > q.wireBytes then Some(OutOfRequests)
      else
        var symbols := SymbolsSince(rows, now - MONTH);
        if |symbols| + (if r.objectKey in symbols then 0 else 1) > q.symbols then Some(OutOfSymbols) else None
  }

  function Row(r: Request, sequence: nat, stamp: int): Attempt {
    Attempt(r.id, r.objectKey, r.paramsHash, r.fetch, sequence, stamp)
  }

  // ----- the store

  class Store {
    var rows: seq<Attempt>
    const quota: Option<Quota>

    constructor (quota: Option<Quota>)
      ensures rows == [] && this.quota == quota
    {
      rows, this.quota := [], quota;
    }

    /** One prepare transaction; `accepted` is the database's own verdict on the new row. */
    method Prepare(r: Request, sequence: nat, now: int, stamp: int, accepted: bool) returns (outcome: Outcome)
      modifies this`rows
      ensures rows == Prepared(old(rows), quota, Command(r, sequence, now, stamp, accepted))
      ensures outcome.Existing? <==> HasRow(old(rows), r, sequence)
      ensures outcome.Existing? ==> outcome.row < |rows| && rows[outcome.row].fetch == r.fetch && rows[outcome.row].sequence == sequence
      ensures !outcome.Existing? ==> var refusal := Gate(old(rows), r, quota, now);
                outcome == if refusal.Some? then refusal.value else if accepted then Appended(|old(rows)|) else Rejected
      ensures outcome.Appended? <==> |rows| == |old(rows)| + 1
      ensures !outcome.Appended? ==> rows == old(rows)
    {
      if HasRow(rows, r, sequence) {
        var i :| 0 <= i < |rows| && rows[i].fetch == r.fetch && rows[i].sequence == sequence;
        return Existing(i);
      }
      var refusal := Gate(rows, r, quota, now);
      if refusal.Some? {
        return refusal.value;
      }
      if !accepted {
        return Rejected;
      }
      rows := rows + [Row(r, sequence, stamp)];
      outcome := Appended(|rows| - 1);
    }
  }

  // ----- runs of the store

  datatype Command = Command(request: Request, sequence: nat, now: int, stamp: int, accepted: bool)

  /** A row is never stamped before its transaction began. */
  predicate Legal(run: seq<Command>) {
    forall i :: 0 <= i < |run| ==> run[i].now <= run[i].stamp
  }

  function Prepared(rows: seq<Attempt>, quota: Option<Quota>, c: Command): seq<Attempt> {
    if HasRow(rows, c.request, c.sequence) || Gate(rows, c.request, quota, c.now).Some? || !c.accepted then rows
    else rows + [Row(c.request, c.sequence, c.stamp)]
  }

  /** The table after any serialized run, whatever the order of its transaction times. */
  function After(quota: Option<Quota>, run: seq<Command>): seq<Attempt> {
    if run == [] then [] else Prepared(After(quota, run[..|run| - 1]), quota, run[|run| - 1])
  }

  // ----- every window

  /** Rows stamped in the closed window of the given length that begins at `from`. */
  ghost function Within(rows: seq<Attempt>, from: int, length: int): set<int> {
    set i | 0 <= i < |rows| && from <= rows[i].at <= from + length
  }

  ghost function SymbolsWithin(rows: seq<Attempt>, from: int, length: int): set<nat> {
    set i | 0 <= i < |rows| && from <= rows[i].at <= from + length :: rows[i].objectKey
  }

  ghost predicate WindowsHold(rows: seq<Attempt>, length: int, limit: nat) {
    forall from :: |Within(rows, from, length)| <= limit
  }

  ghost predicate SymbolsHold(rows: seq<Attempt>, limit: nat) {
    forall from :: |SymbolsWithin(rows, from, 31 * 86400)| <= limit
  }

  /** The newest row in lock order saw every other row of any window it falls into, because the gate
      looks back from a time no later than its stamp and without an upper bound. */
  lemma {:induction false} AppendKeepsWindows(rows: seq<Attempt>, row: Attempt, now: int, length: int, limit: nat)
    requires length >= 0 && now <= row.at && WindowsHold(rows, length, limit) && |Since(rows, now - length)| < limit
    ensures WindowsHold(rows + [row], length, limit)
  {
    var all := rows + [row];
    forall from
      ensures |Within(all, from, length)| <= limit
    {
      if from <= row.at <= from + length {
        var seen := Since(rows, now - length);
        assert Within(all, from, length) <= seen + {|rows|};
        SubsetCard(Within(all, from, length), seen + {|rows|});
      } else {
        assert Within(all, from, length) <= Within(rows, from, length);
        SubsetCard(Within(all, from, length), Within(rows, from, length));
      }
    }
  }

  lemma {:induction false} AppendKeepsSymbols(rows: seq<Attempt>, row: Attempt, now: int, limit: nat)
    requires SymbolsHold(rows, limit) && now <= row.at
    requires var symbols := SymbolsSince(rows, now - MONTH);
             |symbols| + (if row.objectKey in symbols then 0 else 1) <= limit
    ensures SymbolsHold(rows + [row], limit)
  {
    var all := rows + [row];
    forall from
      ensures |SymbolsWithin(all, from, MONTH)| <= limit
    {
      if from <= row.at <= from + MONTH {
        var seen := SymbolsSince(rows, now - MONTH);
        assert SymbolsWithin(all, from, MONTH) <= seen + {row.objectKey};
        SubsetCard(SymbolsWithin(all, from, MONTH), seen + {row.objectKey});
      } else {
        assert SymbolsWithin(all, from, MONTH) <= SymbolsWithin(rows, from, MONTH);
        SubsetCard(SymbolsWithin(all, from, MONTH), SymbolsWithin(rows, from, MONTH));
      }
    }
  }

  lemma {:induction false} EmptyWindows(length: int, limit: nat)
    ensures WindowsHold([], length, limit) && SymbolsHold([], limit)
  {
    forall from
      ensures |Within([], from, length)| <= limit && |SymbolsWithin([], from, MONTH)| <= limit
    {
      assert Within([], from, length) == {} && SymbolsWithin([], from, MONTH) == {};
    }
  }

  ghost predicate QuotaHolds(rows: seq<Attempt>, q: Quota) {
    RequestsHold(rows, q) && SymbolsHold(rows, q.symbols)
  }

  ghost predicate RequestsHold(rows: seq<Attempt>, q: Quota) {
    WindowsHold(rows, 3600, q.hourly) && WindowsHold(rows, 86400, q.daily) && WindowsHold(rows, 31 * 86400, q.monthly)
  }

  ghost predicate BytesHold(rows: seq<Attempt>, q: Quota) {
    forall from :: |Within(rows, from, 31 * 86400)| * 67174400 <= q.wireBytes
  }

  /** Over every serialized run, every hour, day and 31-day window respects the request and symbol quotas. */
  lemma {:induction false} QuotasAlwaysHold(q: Quota, run: seq<Command>)
    requires Legal(run)
    ensures QuotaHolds(After(Some(q), run), q)
  {
    hide WindowsHold, SymbolsHold, Since, SymbolsSince, Consumed, HasRow;
    if run == [] {
      EmptyWindows(HOUR, q.hourly);
      EmptyWindows(DAY, q.daily);
      EmptyWindows(MONTH, q.monthly);
      EmptyWindows(MONTH, q.symbols);
    } else {
      QuotasAlwaysHold(q, run[..|run| - 1]);
      var rows, c := After(Some(q), run[..|run| - 1]), run[|run| - 1];
      assert c.now <= c.stamp;
      if After(Some(q), run) != rows {
        var row := Row(c.request, c.sequence, c.stamp);
        AppendKeepsWindows(rows, row, c.now, HOUR, q.hourly);
        AppendKeepsWindows(rows, row, c.now, DAY, q.daily);
        AppendKeepsWindows(rows, row, c.now, MONTH, q.monthly);
        AppendKeepsSymbols(rows, row, c.now, q.symbols);
      }
    }
  }

  /** ... and the wire bytes reserved in any 31-day window, counting every attempt at its maximum. */
  lemma {:induction false} BytesAlwaysHold(q: Quota, run: seq<Command>)
    requires Legal(run)
    ensures BytesHold(After(Some(q), run), q)
  {
    hide Within, WindowsHold, Since, SymbolsSince, Consumed, HasRow;
    var limit := q.wireBytes / WIRE_LIMIT;
    ByteWindows(q, run, limit);
    forall from
      ensures |Within(After(Some(q), run), from, MONTH)| * WIRE_LIMIT <= q.wireBytes
    {
      WindowOf(After(Some(q), run), from, limit);
    }
  }

  lemma {:induction false} WindowOf(rows: seq<Attempt>, from: int, limit: nat)
    requires WindowsHold(rows, MONTH, limit)
    ensures |Within(rows, from, MONTH)| <= limit
  {
  }

  lemma {:induction false} ByteWindows(q: Quota, run: seq<Command>, limit: nat)
    requires Legal(run) && limit == q.wireBytes / WIRE_LIMIT
    ensures WindowsHold(After(Some(q), run), MONTH, limit)
  {
    hide WindowsHold, Since, SymbolsSince, Consumed, HasRow;
    if run == [] {
      EmptyWindows(MONTH, limit);
    } else {
      ByteWindows(q, run[..|run| - 1], limit);
      var rows, c := After(Some(q), run[..|run| - 1]), run[|run| - 1];
      if After(Some(q), run) != rows {
        AppendKeepsWindows(rows, Row(c.request, c.sequence, c.stamp), c.now, MONTH, limit);
      }
    }
  }

  /** Each request and resource gets at most three attempts, metered or not. */
  lemma {:induction false} AtMostThreeAttempts(quota: Option<Quota>, run: seq<Command>, r: Request)
    ensures |Consumed(After(quota, run), r)| <= 3
  {
    hide Since, SymbolsSince, HasRow, Prepared;
    if run == [] {
      assert Consumed([], r) == {};
    } else {
      AtMostThreeAttempts(quota, run[..|run| - 1], r);
      var rows, c := After(quota, run[..|run| - 1]), run[|run| - 1];
      PreparedUnderGate(rows, quota, c);
      if After(quota, run) != rows {
        var row := Row(c.request, c.sequence, c.stamp);
        if row.request == r.id && row.objectKey == r.objectKey && row.paramsHash == r.paramsHash {
          assert Consumed(rows, r) == Consumed(rows, c.request);
        }
        OneMoreConsumed(rows, row, r);
      }
    }
  }

  lemma {:induction false} PreparedUnderGate(rows: seq<Attempt>, quota: Option<Quota>, c: Command)
    ensures Prepared(rows, quota, c) == rows
         || (Prepared(rows, quota, c) == rows + [Row(c.request, c.sequence, c.stamp)] && |Consumed(rows, c.request)| < ATTEMPTS)
  {
  }

  lemma {:induction false} OneMoreConsumed(rows: seq<Attempt>, row: Attempt, r: Request)
    ensures Consumed(rows + [row], r) == Consumed(rows, r) +
            if row.request == r.id && row.objectKey == r.objectKey && row.paramsHash == r.paramsHash then {|rows|} else {}
  {
  }

  // ----- admitted exactly when nothing would be exceeded

  ghost predicate AllBy(rows: seq<Attempt>, now: int) {
    forall i :: 0 <= i < |rows| ==> rows[i].at <= now
  }

  /** With a row stamped now, the window that ends now holds what the gate counts, and this row. */
  lemma {:induction false} WindowEndingNow(rows: seq<Attempt>, row: Attempt, length: int, limit: nat)
    requires length >= 0 && AllBy(rows, row.at) && WindowsHold(rows, length, limit)
    ensures WindowsHold(rows + [row], length, limit) <==> |Since(rows, row.at - length)| < limit
  {
    var all := rows + [row];
    if WindowsHold(all, length, limit) {
      var seen := Since(rows, row.at - length);
      assert Within(all, row.at - length, length) == seen + {|rows|};
      assert |seen + {|rows|}| == |seen| + 1;
    } else if |Since(rows, row.at - length)| < limit {
      AppendKeepsWindows(rows, row, row.at, length, limit);
    }
  }

  lemma {:induction false} SymbolsEndingNow(rows: seq<Attempt>, row: Attempt, limit: nat)
    requires AllBy(rows, row.at) && SymbolsHold(rows, limit)
    ensures SymbolsHold(rows + [row], limit) <==> |SymbolsSince(rows, row.at - 31 * 86400) + {row.objectKey}| <= limit
  {
    var all, seen := rows + [row], SymbolsSince(rows, row.at - 31 * 86400);
    assert |seen + {row.objectKey}| == |seen| + (if row.objectKey in seen then 0 else 1);
    if SymbolsHold(all, limit) {
      assert forall i :: 0 <= i < |rows| ==> all[i] == rows[i];
      assert all[|rows|] == row;
      assert SymbolsWithin(all, row.at - 31 * 86400, 31 * 86400) == seen + {row.objectKey};
    } else if |seen + {row.objectKey}| <= limit {
      AppendKeepsSymbols(rows, row, row.at, limit);
    }
  }

  /** As wire bytes are reserved at their maximum, they bound the number of requests. */
  lemma {:induction false} BytesAreWindows(rows: seq<Attempt>, q: Quota)
    ensures BytesHold(rows, q) <==> WindowsHold(rows, 31 * 86400, q.wireBytes / 67174400)
  {
    hide Within;
    if BytesHold(rows, q) {
      forall from
        ensures |Within(rows, from, 31 * 86400)| <= q.wireBytes / 67174400
      {
        assert |Within(rows, from, 31 * 86400)| * 67174400 <= q.wireBytes;
      }
    }
    if WindowsHold(rows, 31 * 86400, q.wireBytes / 67174400) {
      forall from
        ensures |Within(rows, from, 31 * 86400)| * 67174400 <= q.wireBytes
      {
        assert |Within(rows, from, 31 * 86400)| <= q.wireBytes / 67174400;
      }
    }
  }

  /** A reservation later than all others is let through exactly when it is one of its request's first three and,
      with it, every window of every length keeps its quota. The refusal names what would be exceeded. */
  lemma {:induction false} AdmittedExactly(q: Quota, run: seq<Command>, r: Request, sequence: nat, now: int)
    requires Legal(run) && AllBy(After(Some(q), run), now)
    ensures var rows := After(Some(q), run);
            var outcome, all := Gate(rows, r, Some(q), now), rows + [Row(r, sequence, now)];
            && (outcome == None <==> |Consumed(rows, r)| < 3 && QuotaHolds(all, q) && BytesHold(all, q))
            && (outcome == Some(OutOfAttempts) <==> |Consumed(rows, r)| == 3)
            && (outcome == Some(OutOfRequests) <==> |Consumed(rows, r)| < 3 && !(RequestsHold(all, q) && BytesHold(all, q)))
            && (outcome == Some(OutOfSymbols) <==>
                  |Consumed(rows, r)| < 3 && RequestsHold(all, q) && BytesHold(all, q) && !SymbolsHold(all, q.symbols))
  {
    var rows, row := After(Some(q), run), Row(r, sequence, now);
    var symbols := SymbolsSince(rows, now - 31 * 86400);
    hide WindowsHold, SymbolsHold, BytesHold, Since, SymbolsSince, Consumed, AllBy, After;
    QuotasAlwaysHold(q, run);
    BytesAlwaysHold(q, run);
    AtMostThreeAttempts(Some(q), run, r);
    BytesAreWindows(rows, q);
    BytesAreWindows(rows + [row], q);
    WindowEndingNow(rows, row, 3600, q.hourly);
    WindowEndingNow(rows, row, 86400, q.daily);
    WindowEndingNow(rows, row, 31 * 86400, q.monthly);
    WindowEndingNow(rows, row, 31 * 86400, q.wireBytes / 67174400);
    SymbolsEndingNow(rows, row, q.symbols);
    if r.objectKey in symbols {
      assert symbols + {r.objectKey} == symbols;
    }
    assert |symbols + {r.objectKey}| == |symbols| + (if r.objectKey in symbols then 0 else 1);
  }

  /** Without a quota only the attempts are counted. */
  lemma {:induction false} UnmeteredExactly(run: seq<Command>, r: Request, now: int)
    ensures Gate(After(None, run), r, None, now) == if |Consumed(After(None, run), r)| < 3 then None else Some(OutOfAttempts)
  {
  }
}
