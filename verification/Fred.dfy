/**
 Observation pages with revision intervals (packages/ingest/market_normalize.py normalize_fred):
 pages are put in offset order, must tile the announced count, and their rows must be in date order
 with disjoint revision intervals per date.
 */
module Fred {
  import opened Common

  /** One revision: what the series said about `date` from `begin` through `end`. */
  datatype Observation = Observation(date: int, begin: int, end: int, value: string)

  /** `envelope` stands for the agreement of the request and the response fields. */
  datatype Page = Page(offset: int, limit: int, count: int, observations: seq<Observation>, envelope: bool)

  datatype Bounds = Bounds(start: int, end: int, realtimeStart: int, realtimeEnd: int, asOf: Option<int>)

  const MAX_LIMIT: int := 100000

  predicate BoundsAccepted(b: Bounds) {
    b.realtimeStart <= b.realtimeEnd && (b.asOf.Some? ==> b.realtimeStart <= b.asOf.value <= b.realtimeEnd)
  }

  // ----- what the accepted rows are

  predicate InBounds(o: Observation, b: Bounds) {
    b.start <= o.date <= b.end && b.realtimeStart <= o.begin <= o.end <= b.realtimeEnd
  }

  predicate Overlap(o: Observation, p: Observation) {
    o.date == p.date && o.begin <= p.end && p.begin <= o.end
  }

  /** Within bounds, in date order, and no two revisions of a date in force on the same day. */
  predicate Accepted(all: seq<Observation>, b: Bounds) {
    && (forall i :: 0 <= i < |all| ==> InBounds(all[i], b))
    && (forall i, j :: 0 <= i < j < |all| ==> all[i].date <= all[j].date && !Overlap(all[i], all[j]))
  }

  predicate InForce(o: Observation, asOf: Option<int>) {
    asOf.Some? ==> o.begin <= asOf.value <= o.end
  }

  function Rows(all: seq<Observation>, asOf: Option<int>): seq<Observation> {
    if all == [] then [] else
      var last := all[|all| - 1];
      Rows(all[..|all| - 1], asOf) + (if InForce(last, asOf) then [last] else [])
  }

  // ----- pages

  predicate PageFits(p: Page, count: int) {
    && p.envelope && 0 < p.limit <= MAX_LIMIT && p.count == count && p.offset <= count
    && |p.observations| == MinInt(p.limit, count - p.offset)
  }

  /** Consecutive pages from offset zero; `next` is where the following page must begin. */
  predicate Tiled(pages: seq<Page>, count: int, next: int) {
    if pages == [] then next == 0
    else
      var last := pages[|pages| - 1];
      PageFits(last, count) && last.offset == next - |last.observations| && Tiled(pages[..|pages| - 1], count, last.offset)
  }

  function Joined(pages: seq<Page>): seq<Observation> {
    if pages == [] then [] else Joined(pages[..|pages| - 1]) + pages[|pages| - 1].observations
  }

  predicate InOrder(pages: seq<Page>) {
    forall i :: 0 < i < |pages| ==> pages[i - 1].offset <= pages[i].offset
  }

  /** sorted(pages, key=offset): insertion after every page with the same or a smaller offset. */
  function Insert(sorted: seq<Page>, p: Page): (r: seq<Page>)
    requires InOrder(sorted)
    ensures InOrder(r) && |r| == |sorted| + 1
    ensures r[0] == if sorted == [] || p.offset < sorted[0].offset then p else sorted[0]
  {
    if sorted == [] then [p]
    else if p.offset < sorted[0].offset then [p] + sorted
    else [sorted[0]] + Insert(sorted[1..], p)
  }

  function Sorted(pages: seq<Page>): (r: seq<Page>)
    ensures InOrder(r) && |r| == |pages|
  {
    if pages == [] then [] else Insert(Sorted(pages[..|pages| - 1]), pages[|pages| - 1])
  }

  lemma {:induction false} InsertKeepsPages(sorted: seq<Page>, p: Page)
    requires InOrder(sorted)
    ensures multiset(Insert(sorted, p)) == multiset(sorted) + multiset{p}
  {
    hide InOrder;
    if sorted != [] && sorted[0].offset <= p.offset {
      FrontInOrder(sorted);
      InsertKeepsPages(sorted[1..], p);
      assert sorted == [sorted[0]] + sorted[1..];
    }
  }

  lemma {:induction false} SortedKeepsPages(pages: seq<Page>)
    ensures multiset(Sorted(pages)) == multiset(pages)
  {
    hide Insert, InOrder;
    if pages != [] {
      var n := |pages| - 1;
      SortedKeepsPages(pages[..n]);
      InsertKeepsPages(Sorted(pages[..n]), pages[n]);
      assert pages == pages[..n] + [pages[n]];
    }
  }

  lemma {:induction false} FrontInOrder(a: seq<Page>)
    requires InOrder(a) && a != []
    ensures InOrder(a[..|a| - 1]) && InOrder(a[1..])
  {
  }

  lemma {:induction false} OrderedPair(a: seq<Page>, i: nat, j: nat)
    requires InOrder(a) && i <= j < |a|
    ensures a[i].offset <= a[j].offset
    decreases j
  {
    if i < j {
      OrderedPair(a, i, j - 1);
    }
  }

  /** The specification of the whole normalization; None is the source's ValueError. */
  function Normalized(pages: seq<Page>, b: Bounds): Option<seq<Observation>> {
    if pages == [] || !BoundsAccepted(b) then None else
      var sorted := Sorted(pages);
      if Tiled(sorted, sorted[0].count, sorted[0].count) && Accepted(Joined(sorted), b) then Some(Rows(Joined(sorted), b.asOf)) else None
  }

  // ----- the loops

  datatype Span = Span(begin: int, end: int)

  /** Some seen revision of the date spans exactly this interval. */
  ghost predicate Seen(seen: seq<Observation>, date: int, span: Span) {
    exists i :: 0 <= i < |seen| && seen[i].date == date && Span(seen[i].begin, seen[i].end) == span
  }

  /** The interval lists per date that the source keeps: exactly the spans seen so far. */
  ghost predicate Indexes(intervals: map<int, seq<Span>>, seen: seq<Observation>) {
    && (forall i :: 0 <= i < |seen| ==> Listed(intervals, seen[i]))
    && (forall d, k :: d in intervals && 0 <= k < |intervals[d]| ==> Seen(seen, d, intervals[d][k]))
  }

  predicate Listed(intervals: map<int, seq<Span>>, o: Observation) {
    o.date in intervals && Span(o.begin, o.end) in intervals[o.date]
  }

  predicate Clashes(intervals: map<int, seq<Span>>, o: Observation) {
    o.date in intervals && exists k :: 0 <= k < |intervals[o.date]| && o.begin <= intervals[o.date][k].end && intervals[o.date][k].begin <= o.end
  }

  function Recorded(intervals: map<int, seq<Span>>, o: Observation): map<int, seq<Span>> {
    intervals[o.date := (if o.date in intervals then intervals[o.date] else []) + [Span(o.begin, o.end)]]
  }

  lemma {:induction false} ClashMeansOverlap(intervals: map<int, seq<Span>>, seen: seq<Observation>, o: Observation)
    requires Indexes(intervals, seen)
    ensures Clashes(intervals, o) <==> exists i :: 0 <= i < |seen| && Overlap(seen[i], o)
  {
    if Clashes(intervals, o) {
      var k :| 0 <= k < |intervals[o.date]| && o.begin <= intervals[o.date][k].end && intervals[o.date][k].begin <= o.end;
      assert Seen(seen, o.date, intervals[o.date][k]);
      var i :| 0 <= i < |seen| && seen[i].date == o.date && Span(seen[i].begin, seen[i].end) == intervals[o.date][k];
      assert Overlap(seen[i], o);
    }
    if i :| 0 <= i < |seen| && Overlap(seen[i], o) {
      assert Listed(intervals, seen[i]);
      var k :| 0 <= k < |intervals[o.date]| && intervals[o.date][k] == Span(seen[i].begin, seen[i].end);
    }
  }

  lemma {:induction false} SeenGrows(seen: seq<Observation>, o: Observation, date: int, span: Span)
    requires Seen(seen, date, span)
    ensures Seen(seen + [o], date, span)
  {
    var i :| 0 <= i < |seen| && seen[i].date == date && Span(seen[i].begin, seen[i].end) == span;
    assert (seen + [o])[i] == seen[i];
  }

  lemma {:induction false} RecordIndexes(intervals: map<int, seq<Span>>, seen: seq<Observation>, o: Observation)
    requires Indexes(intervals, seen)
    ensures Indexes(Recorded(intervals, o), seen + [o])
  {
    hide Seen;
    var next: map<int, seq<Span>> := Recorded(intervals, o);
    var all := seen + [o];
    forall d: int, k: int | d in next && 0 <= k < |next[d]|
      ensures Seen(all, d, next[d][k])
    {
      if d == o.date && k == |next[d]| - 1 {
        SeenLast(seen, o);
      } else {
        assert Seen(seen, d, intervals[d][k]);
        SeenGrows(seen, o, d, intervals[d][k]);
      }
    }
    forall i | 0 <= i < |all|
      ensures Listed(next, all[i])
    {
      if i < |seen| {
        assert Listed(intervals, seen[i]);
      } else {
        assert next[o.date][|next[o.date]| - 1] == Span(o.begin, o.end);
      }
    }
  }

  lemma {:induction false} SeenLast(seen: seq<Observation>, o: Observation)
    ensures Seen(seen + [o], o.date, Span(o.begin, o.end))
  {
    assert (seen + [o])[|seen|] == o;
  }

  lemma {:induction false} AcceptedGrows(seen: seq<Observation>, o: Observation, b: Bounds)
    requires Accepted(seen, b)
    ensures Accepted(seen + [o], b) <==>
            && InBounds(o, b) && (LastDate(seen).Some? ==> LastDate(seen).value <= o.date)
            && !(exists i :: 0 <= i < |seen| && Overlap(seen[i], o))
  {
    var all := seen + [o];
    assert forall i :: 0 <= i < |seen| ==> all[i] == seen[i];
    assert all[|seen|] == o;
    if Accepted(all, b) {
      assert InBounds(all[|seen|], b);
      forall i | 0 <= i < |seen|
        ensures !Overlap(seen[i], o) && seen[i].date <= o.date
      {
        assert all[i].date <= all[|seen|].date && !Overlap(all[i], all[|seen|]);
      }
    }
  }

  lemma {:induction false} OneMoreRow(seen: seq<Observation>, o: Observation, asOf: Option<int>)
    ensures Rows(seen + [o], asOf) == Rows(seen, asOf) + (if InForce(o, asOf) then [o] else [])
    ensures LastDate(seen + [o]) == Some(o.date)
  {
    assert (seen + [o])[..|seen|] == seen;
  }

  lemma {:induction false} AcceptedPrefix(all: seq<Observation>, n: nat, b: Bounds)
    requires Accepted(all, b) && n <= |all|
    ensures Accepted(all[..n], b)
  {
  }

  /** The inner loop over one page. */
  method ScanPage(page: Page, b: Bounds, ghost seen: seq<Observation>, intervals: map<int, seq<Span>>, rows: seq<Observation>, previous: Option<int>)
    returns (ok: bool, index: map<int, seq<Span>>, kept: seq<Observation>, last: Option<int>)
    requires Accepted(seen, b) && Indexes(intervals, seen) && rows == Rows(seen, b.asOf)
    requires previous == LastDate(seen)
    ensures ok <==> Accepted(seen + page.observations, b)
    ensures ok ==> Indexes(index, seen + page.observations) && kept == Rows(seen + page.observations, b.asOf)
    ensures ok ==> last == LastDate(seen + page.observations)
  {
    hide Indexes, Accepted, Rows, LastDate, InBounds, Clashes, Recorded, Overlap;
    ok, index, kept, last := true, intervals, rows, previous;
    ghost var whole := seen + page.observations;
    ghost var all := seen;
    assert seen + page.observations[..0] == seen;
    for i := 0 to |page.observations|
      invariant all == whole[..|seen| + i] == seen + page.observations[..i]
      invariant Accepted(all, b) && Indexes(index, all) && kept == Rows(all, b.asOf)
      invariant last == LastDate(all)
    {
      var o := page.observations[i];
      assert whole[..|seen| + i + 1] == all + [o] == seen + page.observations[..i + 1];
      AcceptedGrows(all, o, b);
      ClashMeansOverlap(index, all, o);
      if !InBounds(o, b) || (last.Some? && o.date < last.value) || Clashes(index, o) {
        if Accepted(whole, b) {
          AcceptedPrefix(whole, |seen| + i + 1, b);
        }
        return false, index, kept, last;
      }
      RecordIndexes(index, all, o);
      OneMoreRow(all, o, b.asOf);
      last := Some(o.date);
      index := Recorded(index, o);
      if InForce(o, b.asOf) {
        kept := kept + [o];
      }
      all := all + [o];
    }
    assert page.observations[..|page.observations|] == page.observations;
  }

  lemma {:induction false} TiledLength(pages: seq<Page>, count: int, next: int)
    requires Tiled(pages, count, next)
    ensures |Joined(pages)| == next
  {
    if pages != [] {
      TiledLength(pages[..|pages| - 1], count, pages[|pages| - 1].offset);
    }
  }

  lemma {:induction false} TiledFront(pages: seq<Page>, count: int, next: int, k: nat)
    requires Tiled(pages, count, next) && k <= |pages|
    ensures Tiled(pages[..k], count, |Joined(pages[..k])|)
  {
    if k == |pages| {
      TiledLength(pages, count, next);
      assert pages[..k] == pages;
    } else {
      TiledFront(pages[..|pages| - 1], count, pages[|pages| - 1].offset, k);
      assert pages[..|pages| - 1][..k] == pages[..k];
    }
  }

  lemma {:induction false} JoinedFront(pages: seq<Page>, k: nat)
    requires k <= |pages|
    ensures Joined(pages[..k]) <= Joined(pages)
  {
    if k == |pages| {
      assert pages[..k] == pages;
    } else {
      JoinedFront(pages[..|pages| - 1], k);
      assert pages[..|pages| - 1][..k] == pages[..k];
    }
  }

  lemma {:induction false} UntiledStays(pages: seq<Page>, count: int, i: nat)
    requires i < |pages| && !(PageFits(pages[i], count) && pages[i].offset == |Joined(pages[..i])|)
    ensures forall next :: !Tiled(pages, count, next)
  {
    hide PageFits;
    assert pages[..i + 1][..i] == pages[..i];
    if next :| Tiled(pages, count, next) {
      TiledFront(pages, count, next, i + 1);
      assert false;
    }
  }

  lemma {:induction false} RejectedStays(pages: seq<Page>, k: nat, b: Bounds)
    requires k <= |pages| && !Accepted(Joined(pages[..k]), b)
    ensures !Accepted(Joined(pages), b)
  {
    hide Accepted;
    JoinedFront(pages, k);
    var all, n := Joined(pages), |Joined(pages[..k])|;
    assert all[..n] == Joined(pages[..k]);
    if Accepted(all, b) {
      AcceptedPrefix(all, n, b);
      assert false;
    }
  }

  lemma {:induction false} TiledOneMore(pages: seq<Page>, i: nat, count: int)
    requires i < |pages|
    ensures Joined(pages[..i + 1]) == Joined(pages[..i]) + pages[i].observations
    ensures Tiled(pages[..i], count, |Joined(pages[..i])|) && PageFits(pages[i], count) && pages[i].offset == |Joined(pages[..i])|
            ==> Tiled(pages[..i + 1], count, |Joined(pages[..i + 1])|)
  {
    hide PageFits;
    assert pages[..i + 1][..i] == pages[..i];
  }

  function LastDate(seen: seq<Observation>): Option<int> {
    if seen == [] then None else Some(seen[|seen| - 1].date)
  }

  /** The page loop of normalize_fred, with its running offset, count, previous date and intervals. */
  method Normalize(pages: seq<Page>, b: Bounds) returns (result: Option<seq<Observation>>)
    ensures result == Normalized(pages, b)
  {
    hide Accepted, Indexes, Sorted, Tiled, Joined, Rows, LastDate, InOrder;
    if pages == [] || !BoundsAccepted(b) {
      return None;
    }
    var ordered := Sorted(pages);
    var total := ordered[0].count;
    var expected := 0;
    var intervals: map<int, seq<Span>> := map[];
    var rows: seq<Observation> := [];
    var previous: Option<int> := None;
    NothingSeen(b, total);
    assert ordered[..0] == [];
    for i := 0 to |ordered|
      invariant expected == |Joined(ordered[..i])| && Tiled(ordered[..i], total, expected)
      invariant Accepted(Joined(ordered[..i]), b) && Indexes(intervals, Joined(ordered[..i]))
      invariant rows == Rows(Joined(ordered[..i]), b.asOf) && previous == LastDate(Joined(ordered[..i]))
    {
      var page := ordered[i];
      TiledOneMore(ordered, i, total);
      if !PageFits(page, total) || page.offset != expected {
        UntiledStays(ordered, total, i);
        return None;
      }
      var ok, index, kept, last := ScanPage(page, b, Joined(ordered[..i]), intervals, rows, previous);
      if !ok {
        RejectedStays(ordered, i + 1, b);
        return None;
      }
      expected, intervals, rows, previous := expected + |page.observations|, index, kept, last;
    }
    assert ordered[..|ordered|] == ordered;
    if expected != total {
      TiledOnce(ordered, total, expected);
      return None;
    }
    result := Some(rows);
  }

  lemma {:induction false} TiledOnce(pages: seq<Page>, count: int, next: int)
    requires Tiled(pages, count, next)
    ensures forall other :: Tiled(pages, count, other) ==> other == next
  {
    TiledLength(pages, count, next);
    forall other | Tiled(pages, count, other)
      ensures other == next
    {
      TiledLength(pages, count, other);
    }
  }

  lemma {:induction false} NothingSeen(b: Bounds, count: int)
    ensures Joined([]) == [] && Tiled([], count, 0)
    ensures Accepted([], b) && Indexes(map[], []) && Rows([], b.asOf) == [] && LastDate([]) == None
  {
  }

  // ----- pagination is transparent

  /** A page that shows its own stretch of one list. */
  ghost predicate SliceOf(p: Page, all: seq<Observation>) {
    && 0 <= p.offset && p.offset + |p.observations| <= |all|
    && p.observations == all[p.offset..p.offset + |p.observations|]
  }

  lemma {:induction false} TiledSlicesJoin(pages: seq<Page>, count: int, next: int, all: seq<Observation>)
    requires Tiled(pages, count, next) && 0 <= next <= |all| && forall i :: 0 <= i < |pages| ==> SliceOf(pages[i], all)
    ensures Joined(pages) == all[..next]
  {
    hide PageFits;
    if pages != [] {
      var n := |pages| - 1;
      assert SliceOf(pages[n], all);
      assert forall i :: 0 <= i < n ==> pages[..n][i] == pages[i];
      TiledSlicesJoin(pages[..n], count, pages[n].offset, all);
      SlicesJoin(all, pages[n].offset, next);
    }
  }

  lemma {:induction false} SlicesJoin(all: seq<Observation>, a: int, b: int)
    requires 0 <= a <= b <= |all|
    ensures all[..a] + all[a..b] == all[..b]
  {
  }

  /** However one list is cut and in whatever order its pages arrive, an accepted normalization
      returns the rows of that list; and two complete cuts are accepted alike. */
  lemma {:induction false} PaginationTransparent(pages: seq<Page>, b: Bounds, all: seq<Observation>)
    requires pages != [] && (forall i :: 0 <= i < |pages| ==> SliceOf(pages[i], all) && pages[i].count == |all|)
    ensures Normalized(pages, b).Some? ==> Normalized(pages, b).value == Rows(all, b.asOf) && Accepted(all, b)
    ensures BoundsAccepted(b) && Tiled(Sorted(pages), |all|, |all|) ==> (Normalized(pages, b).Some? <==> Accepted(all, b))
  {
    hide Accepted, Rows, Sorted;
    var sorted := Sorted(pages);
    SortedKeepsPages(pages);
    forall i | 0 <= i < |sorted|
      ensures SliceOf(sorted[i], all) && sorted[i].count == |all|
    {
      assert sorted[i] in multiset(sorted);
      assert sorted[i] in pages;
    }
    if Tiled(sorted, |all|, |all|) {
      TiledSlicesJoin(sorted, |all|, |all|, all);
      assert all[..|all|] == all;
    }
  }

  // ----- the order of arrival does not matter

  lemma {:induction false} LastIsLargest(a: seq<Page>, b: seq<Page>)
    requires InOrder(a) && InOrder(b) && multiset(a) == multiset(b) && a != []
    ensures b != [] && a[|a| - 1].offset == b[|b| - 1].offset
  {
    var p, q := a[|a| - 1], b[|b| - 1];
    assert p in multiset(a) && q in multiset(b);
    assert p in b && q in a;
    var i := IndexOf(b, p);
    var j := IndexOf(a, q);
    OrderedPair(b, i, |b| - 1);
    OrderedPair(a, j, |a| - 1);
  }

  /** Equal offsets in a tiling are either the same position or two empty pages at the end. */
  lemma {:induction false} TiledOffsetsGrow(pages: seq<Page>, count: int, next: int, i: nat)
    requires Tiled(pages, count, next) && i < |pages|
    ensures 0 <= pages[i].offset && pages[i].offset + |pages[i].observations| <= next && PageFits(pages[i], count)
  {
    var n := |pages| - 1;
    TiledLength(pages[..n], count, pages[n].offset);
    if i < n {
      TiledOffsetsGrow(pages[..n], count, pages[n].offset, i);
    }
  }

  /** In a tiling, a page with the last offset has the observations of the last page. */
  lemma {:induction false} SameOffsetSameContent(pages: seq<Page>, count: int, next: int, p: Page)
    requires Tiled(pages, count, next) && pages != [] && p in pages && p.offset == pages[|pages| - 1].offset
    ensures PageFits(p, count) && p.observations == pages[|pages| - 1].observations
  {
    var n := |pages| - 1;
    var i :| 0 <= i < |pages| && pages[i] == p;
    TiledOffsetsGrow(pages, count, next, i);
    if i < n {
      TiledOffsetsGrow(pages[..n], count, pages[n].offset, i);
      assert |p.observations| == 0 && |pages[n].observations| == 0;
    }
  }

  /** Replacing one page by another with the same content leaves a tiling as it was. */
  lemma {:induction false} SwapTiled(pages: seq<Page>, count: int, next: int, k: nat, p: Page)
    requires Tiled(pages, count, next) && k < |pages| && PageFits(p, count)
    requires p.offset == pages[k].offset && p.observations == pages[k].observations
    ensures Tiled(pages[k := p], count, next) && Joined(pages[k := p]) == Joined(pages)
  {
    var n := |pages| - 1;
    if k == n {
      assert pages[k := p][..n] == pages[..n];
    } else {
      SwapTiled(pages[..n], count, pages[n].offset, k, p);
      assert pages[k := p][..n] == pages[..n][k := p];
    }
  }

  /** Two offset-ordered arrangements of the same pages tile alike and join to the same list. */
  lemma {:induction false} ArrangementsAgree(a: seq<Page>, b: seq<Page>, count: int, next: int)
    requires InOrder(a) && InOrder(b) && multiset(a) == multiset(b) && Tiled(a, count, next)
    ensures Tiled(b, count, next) && Joined(a) == Joined(b)
    decreases |a|
  {
    hide InOrder;
    if a == [] {
      assert |multiset(b)| == 0;
      assert b == [];
    } else {
      var n := |a| - 1;
      LastIsLargest(a, b);
      assert |multiset(a)| == |a| && |multiset(b)| == |b|;
      var q := b[n];
      assert q in multiset(b);
      SameOffsetSameContent(a, count, next, q);
      var k := IndexOf(a, q);
      SameOffsetAt(a, k, count, next);
      // Exchange q with the last page of a; both carry the same content at the same offset.
      var c := a[k := a[n]];
      SwapTiled(a, count, next, k, a[n]);
      var d := c[n := q];
      ExchangedInOrder(a, k, n, q);
      SwapTiled(c, count, next, n, q);
      assert multiset(d) == multiset(a);
      DropLast(d, b);
      FrontInOrder(d);
      FrontInOrder(b);
      ArrangementsAgree(d[..n], b[..n], count, q.offset);
    }
  }

  lemma {:induction false} IndexOf(a: seq<Page>, q: Page) returns (k: nat)
    requires q in a
    ensures k < |a| && a[k] == q
  {
    k :| 0 <= k < |a| && a[k] == q;
  }

  lemma {:induction false} SameOffsetAt(a: seq<Page>, k: nat, count: int, next: int)
    requires Tiled(a, count, next) && k < |a| && a[k].offset == a[|a| - 1].offset
    ensures PageFits(a[|a| - 1], count) && a[k].observations == a[|a| - 1].observations
  {
    SameOffsetSameContent(a, count, next, a[k]);
  }

  /** Pages from k to the end share one offset, so exchanging the ends keeps the order. */
  lemma {:induction false} ExchangedInOrder(a: seq<Page>, k: nat, n: nat, q: Page)
    requires InOrder(a) && k <= n == |a| - 1 && a[k] == q && q.offset == a[n].offset
    ensures InOrder(a[k := a[n]][n := q])
    ensures multiset(a[k := a[n]][n := q]) == multiset(a)
  {
    var d := a[k := a[n]][n := q];
    assert forall i :: 0 <= i < |a| ==> d[i].offset == a[i].offset;
  }

  lemma {:induction false} DropLast(a: seq<Page>, b: seq<Page>)
    requires a != [] && |a| == |b| && multiset(a) == multiset(b) && a[|a| - 1] == b[|b| - 1]
    ensures multiset(a[..|a| - 1]) == multiset(b[..|b| - 1])
  {
    FrontPages(a);
    FrontPages(b);
  }

  lemma {:induction false} FrontPages(a: seq<Page>)
    requires a != []
    ensures multiset(a[..|a| - 1]) == multiset(a) - multiset{a[|a| - 1]}
  {
    assert a == a[..|a| - 1] + [a[|a| - 1]];
  }

  /** The same pages in any order of arrival give the same result. */
  lemma {:induction false} ArrivalOrderIrrelevant(pages: seq<Page>, shuffled: seq<Page>, b: Bounds)
    requires multiset(pages) == multiset(shuffled)
    ensures Normalized(pages, b) == Normalized(shuffled, b)
  {
    hide Accepted, Rows, Sorted, InOrder;
    if pages == [] {
      assert |multiset(shuffled)| == 0;
      assert shuffled == [];
    } else {
      assert |multiset(pages)| == |pages| && |multiset(shuffled)| == |shuffled|;
      var x, y := Sorted(pages), Sorted(shuffled);
      SortedKeepsPages(pages);
      SortedKeepsPages(shuffled);
      if Tiled(x, x[0].count, x[0].count) {
        SameCount(x, y, x[0].count, x[0].count);
        ArrangementsAgree(x, y, x[0].count, x[0].count);
      } else if Tiled(y, y[0].count, y[0].count) {
        SameCount(y, x, y[0].count, y[0].count);
        ArrangementsAgree(y, x, y[0].count, y[0].count);
      }
    }
  }

  lemma {:induction false} SameCount(a: seq<Page>, b: seq<Page>, count: int, next: int)
    requires Tiled(a, count, next) && multiset(a) == multiset(b) && b != []
    ensures b[0].count == count
  {
    assert b[0] in multiset(b);
    var k := IndexOf(a, b[0]);
    TiledOffsetsGrow(a, count, next, k);
  }

  // ----- legal cuts

  function SumOf(limits: seq<int>): int {
    if limits == [] then 0 else SumOf(limits[..|limits| - 1]) + limits[|limits| - 1]
  }

  /** Page sizes that the source accepts, enough of them to show the whole list. */
  predicate CutSizes(all: seq<Observation>, limits: seq<int>) {
    limits != [] && SumOf(limits) >= |all| && forall i :: 0 <= i < |limits| ==> 0 < limits[i] <= 100000
  }

  function PageAt(all: seq<Observation>, offset: int, limit: int): Page
    requires 0 <= offset <= |all| && limit > 0
  {
    Page(offset, limit, |all|, all[offset..offset + MinInt(limit, |all| - offset)], true)
  }

  /** The pages of one list, of the given sizes, from offset zero on; once the list is used up they are empty. */
  function Cut(all: seq<Observation>, limits: seq<int>): (pages: seq<Page>)
    requires forall i :: 0 <= i < |limits| ==> 0 < limits[i] <= MAX_LIMIT
    ensures |pages| == |limits|
  {
    if limits == [] then [] else
      var n := |limits| - 1;
      SumNonnegative(limits[..n]);
      Cut(all, limits[..n]) + [PageAt(all, MinInt(|all|, SumOf(limits[..n])), limits[n])]
  }

  lemma {:induction false} SumNonnegative(limits: seq<int>)
    requires forall i :: 0 <= i < |limits| ==> limits[i] > 0
    ensures SumOf(limits) >= 0
  {
    if limits != [] {
      SumNonnegative(limits[..|limits| - 1]);
    }
  }

  /** The last page of a cut follows the pages before it. */
  lemma {:induction false} CutGrows(all: seq<Observation>, limits: seq<int>) returns (page: Page)
    requires limits != [] && forall i :: 0 <= i < |limits| ==> 0 < limits[i] <= MAX_LIMIT
    ensures Cut(all, limits) == Cut(all, limits[..|limits| - 1]) + [page]
    ensures PageFits(page, |all|) && SliceOf(page, all) && page.count == |all|
    ensures page.offset == MinInt(|all|, SumOf(limits[..|limits| - 1]))
    ensures page.offset + |page.observations| == MinInt(|all|, SumOf(limits))
  {
    var n := |limits| - 1;
    SumNonnegative(limits[..n]);
    PageAtFits(all, MinInt(|all|, SumOf(limits[..n])), limits[n]);
    page := PageAt(all, MinInt(|all|, SumOf(limits[..n])), limits[n]);
  }

  /** A cut tiles as far as its sizes reach. */
  lemma {:induction false} CutTiles(all: seq<Observation>, limits: seq<int>)
    requires forall i :: 0 <= i < |limits| ==> 0 < limits[i] <= MAX_LIMIT
    ensures Tiled(Cut(all, limits), |all|, MinInt(|all|, SumOf(limits)))
  {
    if limits != [] {
      var n := |limits| - 1;
      CutTiles(all, limits[..n]);
      var page := CutGrows(all, limits);
      hide PageFits, SliceOf, Cut;
      assert (Cut(all, limits[..n]) + [page])[..n] == Cut(all, limits[..n]);
    }
  }

  /** Its pages come in offset order. */
  lemma {:induction false} CutInOrder(all: seq<Observation>, limits: seq<int>)
    requires forall i :: 0 <= i < |limits| ==> 0 < limits[i] <= MAX_LIMIT
    ensures InOrder(Cut(all, limits))
    ensures limits != [] ==> Cut(all, limits)[|limits| - 1].offset <= MinInt(|all|, SumOf(limits))
  {
    if limits != [] {
      CutInOrder(all, limits[..|limits| - 1]);
      var page := CutGrows(all, limits);
      hide PageFits, SliceOf, Cut;
    }
  }

  /** Each of them is a slice of the list. */
  lemma {:induction false} CutSlices(all: seq<Observation>, limits: seq<int>)
    requires forall i :: 0 <= i < |limits| ==> 0 < limits[i] <= MAX_LIMIT
    ensures forall i :: 0 <= i < |limits| ==> SliceOf(Cut(all, limits)[i], all) && Cut(all, limits)[i].count == |all|
  {
    if limits != [] {
      CutSlices(all, limits[..|limits| - 1]);
      var page := CutGrows(all, limits);
      hide PageFits, SliceOf, Cut;
    }
  }

  lemma {:induction false} PageAtFits(all: seq<Observation>, offset: int, limit: int)
    requires 0 <= offset <= |all| && 0 < limit <= MAX_LIMIT
    ensures var p := PageAt(all, offset, limit);
            && PageFits(p, |all|) && SliceOf(p, all) && p.count == |all| && p.offset == offset
            && offset + |p.observations| == MinInt(|all|, offset + limit)
  {
  }

  lemma {:induction false} InsertLast(sorted: seq<Page>, p: Page)
    requires InOrder(sorted) && (sorted != [] ==> sorted[|sorted| - 1].offset <= p.offset)
    ensures Insert(sorted, p) == sorted + [p]
  {
    if sorted != [] {
      OrderedPair(sorted, 0, |sorted| - 1);
      FrontInOrder(sorted);
      InsertLast(sorted[1..], p);
    }
  }

  lemma {:induction false} SortedAlready(pages: seq<Page>)
    requires InOrder(pages)
    ensures Sorted(pages) == pages
  {
    if pages != [] {
      var n := |pages| - 1;
      FrontInOrder(pages);
      SortedAlready(pages[..n]);
      InsertLast(pages[..n], pages[n]);
    }
  }

  /** What a normalization of the whole list amounts to. */
  function Whole(all: seq<Observation>, b: Bounds): Option<seq<Observation>> {
    if BoundsAccepted(b) && Accepted(all, b) then Some(Rows(all, b.asOf)) else None
  }

  /** Cut one list into pages of any legal sizes and deliver them in any order: the result is the same,
      refusals included, and it is that of the one page if the list fits one. */
  lemma {:induction false} CutIsTransparent(all: seq<Observation>, limits: seq<int>, pages: seq<Page>, b: Bounds)
    requires CutSizes(all, limits) && multiset(pages) == multiset(Cut(all, limits))
    ensures Normalized(pages, b) == Whole(all, b)
    ensures |all| <= 100000 ==> Normalized([PageAt(all, 0, 100000)], b) == Whole(all, b)
  {
    hide Accepted, Rows, Normalized;
    CutInOneOrder(all, limits, b);
    ArrivalOrderIrrelevant(pages, Cut(all, limits), b);
    if |all| <= MAX_LIMIT {
      OnePageCut(all);
      CutInOneOrder(all, [MAX_LIMIT], b);
    }
  }

  lemma {:induction false} OnePageCut(all: seq<Observation>)
    ensures Cut(all, [MAX_LIMIT]) == [PageAt(all, 0, MAX_LIMIT)] && SumOf([MAX_LIMIT]) == MAX_LIMIT
  {
    assert [MAX_LIMIT][..0] == [];
  }

  lemma {:induction false} CutInOneOrder(all: seq<Observation>, limits: seq<int>, b: Bounds)
    requires CutSizes(all, limits)
    ensures Normalized(Cut(all, limits), b) == Whole(all, b)
  {
    hide Accepted, Rows, Sorted, Cut;
    var pages := Cut(all, limits);
    CutTiles(all, limits);
    CutInOrder(all, limits);
    CutSlices(all, limits);
    SortedAlready(pages);
    PaginationTransparent(pages, b, all);
  }

  // ----- point-in-time selection

  /** For any as-of date, at most one row per reference date is selected. */
  lemma {:induction false} OneRowPerDate(all: seq<Observation>, b: Bounds, i: nat, j: nat)
    requires Accepted(all, b) && b.asOf.Some? && i < j < |Rows(all, b.asOf)|
    ensures Rows(all, b.asOf)[i].date < Rows(all, b.asOf)[j].date
  {
    var x, y := RowIndices(all, b.asOf, i, j);
    assert all[x].date <= all[y].date;
    assert !Overlap(all[x], all[y]);
    assert InForce(all[x], b.asOf) && InForce(all[y], b.asOf);
  }

  lemma {:induction false} RowIndices(all: seq<Observation>, asOf: Option<int>, i: nat, j: nat) returns (x: nat, y: nat)
    requires i < j < |Rows(all, asOf)|
    ensures x < y < |all| && all[x] == Rows(all, asOf)[i] && all[y] == Rows(all, asOf)[j]
    ensures InForce(all[x], asOf) && InForce(all[y], asOf)
  {
    var n := |all| - 1;
    if j < |Rows(all[..n], asOf)| {
      x, y := RowIndices(all[..n], asOf, i, j);
    } else {
      y := n;
      x := RowIndex(all[..n], asOf, i);
    }
  }

  lemma {:induction false} RowIndex(all: seq<Observation>, asOf: Option<int>, i: nat) returns (x: nat)
    requires i < |Rows(all, asOf)|
    ensures x < |all| && all[x] == Rows(all, asOf)[i] && InForce(all[x], asOf)
  {
    var n := |all| - 1;
    if i < |Rows(all[..n], asOf)| {
      x := RowIndex(all[..n], asOf, i);
    } else {
      x := n;
    }
  }

  /** The rows selected for a day are those in force on it, its first and last day included; without an as-of
      day every row is selected. */
  lemma {:induction false} SelectedExactly(all: seq<Observation>, asOf: Option<int>, o: Observation)
    ensures o in Rows(all, asOf) <==> o in all && (asOf.Some? ==> o.begin <= asOf.value && asOf.value <= o.end)
    ensures asOf.None? ==> Rows(all, asOf) == all
  {
    if all != [] {
      SelectedExactly(all[..|all| - 1], asOf, o);
      assert all == all[..|all| - 1] + [all[|all| - 1]];
    }
  }

  ghost predicate Speaks(o: Observation, day: int) {
    o.begin <= day && day <= o.end
  }

  /** Both revisions speak on some day. */
  ghost predicate ShareADay(o: Observation, p: Observation) {
    exists day :: Speaks(o, day) && Speaks(p, day)
  }

  /** A list is normalized exactly when the bounds hold together, every row lies within them, dates never go
      back, and no two rows of a date are in force on the same day. */
  lemma {:induction false} AcceptedExactly(all: seq<Observation>, b: Bounds)
    ensures Whole(all, b).Some? <==>
            && b.realtimeStart <= b.realtimeEnd && (b.asOf.Some? ==> b.realtimeStart <= b.asOf.value <= b.realtimeEnd)
            && (forall o :: o in all ==> b.start <= o.date <= b.end && b.realtimeStart <= o.begin <= o.end <= b.realtimeEnd)
            && (forall i, j :: 0 <= i < j < |all| ==>
                  all[i].date <= all[j].date && (all[i].date == all[j].date ==> !ShareADay(all[i], all[j])))
  {
    hide Rows;
    forall i, j | 0 <= i < j < |all| && all[i].begin <= all[i].end && all[j].begin <= all[j].end
      ensures Overlap(all[i], all[j]) <==> all[i].date == all[j].date && ShareADay(all[i], all[j])
    {
      if Overlap(all[i], all[j]) {
        var day := if all[i].begin <= all[j].begin then all[j].begin else all[i].begin;
        assert Speaks(all[i], day) && Speaks(all[j], day);
      }
    }
    if forall i :: 0 <= i < |all| ==> InBounds(all[i], b) {
      forall o | o in all
        ensures InBounds(o, b)
      {
      }
    }
    if forall o :: o in all ==> b.start <= o.date <= b.end && b.realtimeStart <= o.begin <= o.end <= b.realtimeEnd {
      forall i | 0 <= i < |all|
        ensures InBounds(all[i], b)
      {
        assert all[i] in all;
      }
    }
  }
}
