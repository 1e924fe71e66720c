/**
 Own-history bands (packages/core/history.py): which samples count, which quarters are missing, and
 the quartiles of the samples that remain.
 */
module History {
  import opened Common
  import opened Calendar

  /** A sample value; `text` is the spelling that tells equal numbers apart. */
  datatype Value = Missing | NotFinite(text: string) | OutOfRange(text: string) | Number(v: real, text: string)

  datatype Point = Point(day: Date, series: string, value: Value, inputHash: string, flags: seq<string>)

  datatype Reason =
    | Flag(name: string) | OutsideWindow | AfterAsOf | NotQuarterEnd | IncompatibleSeries | MissingLineage
    | MissingValue | NonfiniteValue | RangeExceeded | ConflictingQuarter | DuplicateSample

  datatype Excluded = Excluded(point: Point, reasons: set<Reason>)

  datatype Band = Band(
    start: Date,
    eligible: seq<Point>,
    excluded: seq<Excluded>,
    expected: seq<Date>,
    missing: seq<Date>,
    quartiles: Option<(real, real, real)>)

  /** Calendar order of valid dates as a number. */
  function Key(d: Date): int {
    d.year * 10000 + d.month * 100 + d.day
  }

  lemma {:induction false} KeyUnique(d: Date, e: Date)
    requires ValidDate(d) && ValidDate(e) && Key(d) == Key(e)
    ensures d == e
  {
    assert d.day <= 31 && e.day <= 31;
  }

  /** The same day so many years earlier, with February 29 clamped. */
  function WindowStart(asOf: Date, years: int): Date
    requires ValidDate(asOf) && asOf.year > years
  {
    var y := asOf.year - years;
    Date(y, asOf.month, if asOf.day <= DaysInMonth(y, asOf.month) then asOf.day else DaysInMonth(y, asOf.month))
  }

  function QuarterEnd(y: int, q: int): Date {
    Date(y, 3 * q, if q == 1 || q == 4 then 31 else 30)
  }

  predicate IsQuarterEnd(d: Date) {
    (d.month == 3 && d.day == 31) || (d.month == 6 && d.day == 30) || (d.month == 9 && d.day == 30) || (d.month == 12 && d.day == 31)
  }

  predicate Between(start: Date, d: Date, asOf: Date) {
    Key(start) < Key(d) <= Key(asOf)
  }

  // ----- reasons

  function Named(flags: seq<string>): (r: set<Reason>)
    ensures r == {} <==> flags == []
  {
    if flags == [] then {} else Named(flags[..|flags| - 1]) + {Flag(flags[|flags| - 1])}
  }

  /** strip() leaves nothing. */
  predicate Blank(s: string) {
    forall i :: 0 <= i < |s| ==> s[i] in {' ', '\t', '\n', '\r'}
  }

  /** Every reason that concerns the sample alone. */
  function OwnReasons(p: Point, start: Date, asOf: Date, series: string): set<Reason> {
    Named(p.flags)
    + (if Key(p.day) <= Key(start) then {OutsideWindow} else if Key(p.day) > Key(asOf) then {AfterAsOf} else {})
    + (if !IsQuarterEnd(p.day) then {NotQuarterEnd} else {})
    + (if p.series != series then {IncompatibleSeries} else {})
    + (if Blank(p.inputHash) then {MissingLineage} else {})
    + (match p.value
       case Missing => {MissingValue}
       case NotFinite(_) => {NonfiniteValue}
       case OutOfRange(_) => {RangeExceeded}
       case Number(_, _) => {})
  }

  /** The samples that take part in conflict detection. */
  predicate Competes(p: Point, start: Date, asOf: Date, series: string) {
    p.series == series && Between(start, p.day, asOf)
  }

  /** Two different samples of the series claim this day. */
  predicate Conflicting(points: seq<Point>, start: Date, asOf: Date, series: string, day: Date) {
    exists i, j :: 0 <= i < |points| && 0 <= j < |points| && points[i] != points[j] && points[i].day == day && points[j].day == day
      && Competes(points[i], start, asOf, series) && Competes(points[j], start, asOf, series)
  }

  /** The sample contributes. */
  predicate Counts(points: seq<Point>, start: Date, asOf: Date, series: string, p: Point) {
    OwnReasons(p, start, asOf, series) == {} && !Conflicting(points, start, asOf, series, p.day)
  }

  /** The reasons of a sample that is left out: its own and its quarter's conflict, or, when neither
      stands against it, that its exact copy was counted. */
  function Exclusion(points: seq<Point>, start: Date, asOf: Date, series: string, p: Point): set<Reason> {
    if Counts(points, start, asOf, series, p) then {DuplicateSample}
    else OwnReasons(p, start, asOf, series)
         + (if p.series == series && Conflicting(points, start, asOf, series, p.day) then {ConflictingQuarter} else {})
  }

  ghost predicate DaysIncrease(s: seq<Point>) {
    forall i, j :: 0 <= i < j < |s| ==> Key(s[i].day) < Key(s[j].day)
  }

  // ----- order of samples

  ghost predicate InDayOrder(s: seq<Point>) {
    forall i :: 0 < i < |s| ==> Key(s[i - 1].day) <= Key(s[i].day)
  }

  function InsertByDay(sorted: seq<Point>, p: Point): (r: seq<Point>)
    ensures |r| == |sorted| + 1
  {
    if sorted == [] then [p]
    else if Key(p.day) < Key(sorted[0].day) then [p] + sorted
    else [sorted[0]] + InsertByDay(sorted[1..], p)
  }

  function SortByDay(points: seq<Point>): (r: seq<Point>)
    ensures |r| == |points|
  {
    if points == [] then [] else InsertByDay(SortByDay(points[..|points| - 1]), points[|points| - 1])
  }

  lemma {:induction false} InsertKeepsOrder(sorted: seq<Point>, p: Point)
    requires InDayOrder(sorted)
    ensures InDayOrder(InsertByDay(sorted, p))
    ensures InsertByDay(sorted, p)[0] == p || (sorted != [] && InsertByDay(sorted, p)[0] == sorted[0])
  {
    if sorted != [] && Key(sorted[0].day) <= Key(p.day) {
      InsertKeepsOrder(sorted[1..], p);
    }
  }

  lemma {:induction false} InsertKeepsPoints(sorted: seq<Point>, p: Point)
    ensures multiset(InsertByDay(sorted, p)) == multiset(sorted) + multiset{p}
  {
    if sorted != [] && Key(sorted[0].day) <= Key(p.day) {
      InsertKeepsPoints(sorted[1..], p);
      assert sorted == [sorted[0]] + sorted[1..];
    }
  }

  lemma {:induction false} SortKeeps(points: seq<Point>)
    ensures InDayOrder(SortByDay(points)) && multiset(SortByDay(points)) == multiset(points)
  {
    hide InsertByDay;
    if points != [] {
      var n := |points| - 1;
      SortKeeps(points[..n]);
      InsertKeepsOrder(SortByDay(points[..n]), points[n]);
      InsertKeepsPoints(SortByDay(points[..n]), points[n]);
      assert points == points[..n] + [points[n]];
    }
  }

  // ----- quartiles

  ghost predicate Ascending(v: seq<real>) {
    forall i :: 0 < i < |v| ==> v[i - 1] <= v[i]
  }

  lemma {:induction false} AscendingPair(v: seq<real>, i: nat, j: nat)
    requires Ascending(v) && i <= j < |v|
    ensures v[i] <= v[j]
    decreases j
  {
    if i < j {
      AscendingPair(v, i, j - 1);
    }
  }

  function InsertValue(sorted: seq<real>, x: real): (r: seq<real>)
    ensures |r| == |sorted| + 1
  {
    if sorted == [] then [x] else if x < sorted[0] then [x] + sorted else [sorted[0]] + InsertValue(sorted[1..], x)
  }

  function SortValues(v: seq<real>): (r: seq<real>)
    ensures |r| == |v|
  {
    if v == [] then [] else InsertValue(SortValues(v[..|v| - 1]), v[|v| - 1])
  }

  lemma {:induction false} InsertValueAscends(sorted: seq<real>, x: real)
    requires Ascending(sorted)
    ensures Ascending(InsertValue(sorted, x))
    ensures InsertValue(sorted, x)[0] == x || (sorted != [] && InsertValue(sorted, x)[0] == sorted[0])
  {
    if sorted != [] && sorted[0] <= x {
      InsertValueAscends(sorted[1..], x);
    }
  }

  lemma {:induction false} InsertValueKeeps(sorted: seq<real>, x: real)
    ensures multiset(InsertValue(sorted, x)) == multiset(sorted) + multiset{x}
  {
    if sorted != [] && sorted[0] <= x {
      InsertValueKeeps(sorted[1..], x);
      assert sorted == [sorted[0]] + sorted[1..];
    }
  }

  lemma {:induction false} SortValuesKeeps(v: seq<real>)
    ensures Ascending(SortValues(v)) && multiset(SortValues(v)) == multiset(v)
  {
    hide InsertValue;
    if v != [] {
      SortValuesKeeps(v[..|v| - 1]);
      InsertValueAscends(SortValues(v[..|v| - 1]), v[|v| - 1]);
      InsertValueKeeps(SortValues(v[..|v| - 1]), v[|v| - 1]);
      assert v == v[..|v| - 1] + [v[|v| - 1]];
    }
  }

  /** Interpolation at position (n - 1) * k/4. */
  function Quantile(v: seq<real>, k: nat): real
    requires |v| > 0 && k <= 4
  {
    var position := (|v| - 1) * k;
    var lower, rest := position / 4, position % 4;
    LowerInside(|v|, k);
    if rest == 0 then v[lower] else v[lower] * (1.0 - rest as real / 4.0) + v[lower + 1] * (rest as real / 4.0)
  }

  lemma {:induction false} LowerInside(n: nat, k: nat)
    requires n > 0 && k <= 4
    ensures 0 <= (n - 1) * k / 4 < n && ((n - 1) * k % 4 != 0 ==> (n - 1) * k / 4 + 1 < n)
  {
    assert (n - 1) * k <= (n - 1) * 4;
  }

  lemma {:induction false} QuantileBetween(v: seq<real>, k: nat)
    requires |v| > 0 && k <= 4 && Ascending(v)
    ensures var lower := (|v| - 1) * k / 4;
            0 <= lower < |v| && v[lower] <= Quantile(v, k) && ((|v| - 1) * k % 4 != 0 ==> lower + 1 < |v| && Quantile(v, k) <= v[lower + 1])
    ensures (|v| - 1) * k % 4 == 0 ==> Quantile(v, k) == v[(|v| - 1) * k / 4]
  {
    LowerInside(|v|, k);
    var lower, rest := (|v| - 1) * k / 4, (|v| - 1) * k % 4;
    if rest != 0 {
      AscendingPair(v, lower, lower + 1);
      WeightedBetween(v[lower], v[lower + 1], rest);
    }
  }

  lemma {:induction false} WeightedBetween(a: real, b: real, rest: nat)
    requires a <= b && 1 <= rest <= 3
    ensures a <= a * (1.0 - rest as real / 4.0) + b * (rest as real / 4.0) <= b
  {
    if rest == 1 {
      assert a * 0.75 + b * 0.25 == a + (b - a) * 0.25;
    } else if rest == 2 {
      assert a * 0.5 + b * 0.5 == a + (b - a) * 0.5;
    } else {
      assert a * 0.25 + b * 0.75 == a + (b - a) * 0.75;
    }
  }

  lemma {:induction false} WeightedMonotone(a: real, b: real, r: nat, s: nat)
    requires a <= b && 1 <= r <= s <= 3
    ensures a * (1.0 - r as real / 4.0) + b * (r as real / 4.0) <= a * (1.0 - s as real / 4.0) + b * (s as real / 4.0)
  {
    Step(a, b, r);
    Step(a, b, s);
  }

  lemma {:induction false} Step(a: real, b: real, r: nat)
    requires 1 <= r <= 3
    ensures a * (1.0 - r as real / 4.0) + b * (r as real / 4.0) == a + (if r == 1 then 0.25 else if r == 2 then 0.5 else 0.75) * (b - a)
  {
    if r == 1 {
      assert a * 0.75 + b * 0.25 == a + (b - a) * 0.25;
    } else if r == 2 {
      assert a * 0.5 + b * 0.5 == a + (b - a) * 0.5;
    } else {
      assert a * 0.25 + b * 0.75 == a + (b - a) * 0.75;
    }
  }

  /** The list from its other end, with every sign changed. */
  function Mirrored(v: seq<real>): (w: seq<real>)
    ensures |w| == |v| && forall i :: 0 <= i < |v| ==> w[i] == -v[|v| - 1 - i]
  {
    seq(|v|, i requires 0 <= i < |v| => -v[|v| - 1 - i])
  }

  /** Between two samples, r quarters of the way. */
  function Weighted(x: real, y: real, r: nat): real {
    x * (1.0 - r as real / 4.0) + y * (r as real / 4.0)
  }

  lemma {:induction false} QuantileAt(v: seq<real>, k: nat, a: nat, r: nat)
    requires |v| > 0 && k <= 4 && a == (|v| - 1) * k / 4 && r == (|v| - 1) * k % 4
    ensures a < |v| && (r == 0 ==> Quantile(v, k) == v[a])
    ensures r > 0 ==> a + 1 < |v| && Quantile(v, k) == Weighted(v[a], v[a + 1], r)
  {
    LowerInside(|v|, k);
  }

  /** A percentile from below is the opposite percentile from above. */
  lemma {:induction false} QuantileMirrors(v: seq<real>, k: nat)
    requires |v| > 0 && k <= 4
    ensures Quantile(Mirrored(v), 4 - k) == -Quantile(v, k)
  {
    var n := |v| - 1;
    var a, r := n * k / 4, n * k % 4;
    var w := Mirrored(v);
    QuantileAt(v, k, a, r);
    MirrorPosition(n, k, a, r);
    hide Quantile, Weighted;
    if r == 0 {
      QuantileAt(w, 4 - k, n - a, 0);
    } else {
      QuantileAt(w, 4 - k, n - a - 1, 4 - r);
      MirroredWeights(v[a], v[a + 1], r);
    }
  }

  lemma {:induction false} MirroredWeights(x: real, y: real, r: nat)
    requires 1 <= r <= 3
    ensures Weighted(-y, -x, 4 - r) == -Weighted(x, y, r)
  {
    if r == 1 {
      assert 1.0 - 3 as real / 4.0 == 0.25 && 1.0 - 1 as real / 4.0 == 0.75;
    } else if r == 2 {
      assert 1.0 - 2 as real / 4.0 == 0.5;
    } else {
      assert 1.0 - 1 as real / 4.0 == 0.75 && 1.0 - 3 as real / 4.0 == 0.25;
    }
  }

  lemma {:induction false} MirrorPosition(n: nat, k: nat, a: nat, r: nat)
    requires k <= 4 && a == n * k / 4 && r == n * k % 4
    ensures if r == 0 then n * (4 - k) / 4 == n - a && n * (4 - k) % 4 == 0
            else n * (4 - k) / 4 == n - a - 1 && n * (4 - k) % 4 == 4 - r
  {
    assert n * (4 - k) == 4 * n - n * k;
    assert n * k == 4 * a + r;
  }

  /** m quarter steps of d up from a. */
  function QuarterSteps(a: real, d: real, m: nat): real {
    a + m as real / 4.0 * d
  }

  ghost predicate Progression(v: seq<real>, a: real, d: real) {
    forall i :: 0 <= i < |v| ==> v[i] == a + i as real * d
  }

  /** On evenly spaced samples a percentile falls evenly between the ends: (n - 1) * k / 4 steps up. */
  lemma {:induction false} QuantileOfProgression(v: seq<real>, a: real, d: real, k: nat)
    requires |v| > 0 && k <= 4 && Progression(v, a, d)
    ensures Quantile(v, k) == QuarterSteps(a, d, (|v| - 1) * k)
  {
    var n := |v| - 1;
    var q, r := n * k / 4, n * k % 4;
    QuantileAt(v, k, q, r);
    hide Quantile;
    if r > 0 {
      assert v[q + 1] == a + (q + 1) as real * d;
    }
    assert v[q] == a + q as real * d;
    EvenSteps(a, d, q, r, n * k);
  }

  lemma {:induction false} EvenSteps(a: real, d: real, q: nat, r: nat, m: nat)
    requires m == 4 * q + r && r < 4
    ensures r == 0 ==> a + q as real * d == a + m as real / 4.0 * d
    ensures r > 0 ==> (a + q as real * d) * (1.0 - r as real / 4.0) + (a + (q + 1) as real * d) * (r as real / 4.0) == a + m as real / 4.0 * d
  {
    var x, y := q as real, r as real;
    assert m as real == 4.0 * x + y && (q + 1) as real == x + 1.0;
    assert m as real / 4.0 * d == x * d + y / 4.0 * d;
    assert (a + x * d) * (1.0 - y / 4.0) + (a + (x + 1.0) * d) * (y / 4.0) == a + x * d + y / 4.0 * d;
  }

  /** A higher proportion never gives a lower percentile. */
  lemma {:induction false} QuantileMonotone(v: seq<real>, k: nat, m: nat)
    requires |v| > 0 && k <= m <= 4 && Ascending(v)
    ensures Quantile(v, k) <= Quantile(v, m)
  {
    QuantileBetween(v, k);
    QuantileBetween(v, m);
    var n := |v| - 1;
    assert n * k <= n * m;
    var a, b, r, s := n * k / 4, n * m / 4, n * k % 4, n * m % 4;
    if a == b {
      assert r <= s;
      if r > 0 {
        AscendingPair(v, a, a + 1);
        WeightedMonotone(v[a], v[a + 1], r, s);
      }
    } else {
      assert a + 1 <= b;
      AscendingPair(v, a + 1, b);
      AscendingPair(v, a, b);
    }
  }

  /** min <= p25 <= p50 <= p75 <= max. */
  lemma {:induction false} QuartilesOrdered(v: seq<real>)
    requires |v| > 0 && Ascending(v)
    ensures v[0] <= Quantile(v, 1) <= Quantile(v, 2) <= Quantile(v, 3) <= v[|v| - 1]
  {
    QuantileMonotone(v, 0, 1);
    QuantileMonotone(v, 1, 2);
    QuantileMonotone(v, 2, 3);
    QuantileMonotone(v, 3, 4);
    assert Quantile(v, 0) == v[0];
    assert (|v| - 1) * 4 / 4 == |v| - 1 && (|v| - 1) * 4 % 4 == 0;
  }

  // ----- the expected quarters

  function One(start: Date, d: Date, asOf: Date): seq<Date> {
    if Between(start, d, asOf) then [d] else []
  }

  /** The quarter ends of one year inside the window. */
  function QuartersOf(y: int, start: Date, asOf: Date): seq<Date> {
    One(start, QuarterEnd(y, 1), asOf) + One(start, QuarterEnd(y, 2), asOf) + One(start, QuarterEnd(y, 3), asOf) + One(start, QuarterEnd(y, 4), asOf)
  }

  /** Those of the years from the window's first up to, not including, y. */
  function ExpectedBefore(y: int, start: Date, asOf: Date): seq<Date>
    decreases y - start.year
  {
    if y <= start.year then [] else ExpectedBefore(y - 1, start, asOf) + QuartersOf(y - 1, start, asOf)
  }

  function Expected(start: Date, asOf: Date): seq<Date> {
    ExpectedBefore(asOf.year + 1, start, asOf)
  }

  lemma {:induction false} FullYears(y: int, start: Date, asOf: Date)
    requires ValidDate(start) && ValidDate(asOf) && start.year + 1 <= y <= asOf.year
    ensures |ExpectedBefore(y, start, asOf)| == |QuartersOf(start.year, start, asOf)| + 4 * (y - start.year - 1)
    decreases y - start.year
  {
    hide QuartersOf, ValidDate;
    if y == start.year + 1 {
      assert ExpectedBefore(start.year, start, asOf) == [];
    } else {
      FullYears(y - 1, start, asOf);
      InteriorYear(y - 1, start, asOf);
    }
  }

  lemma {:induction false} InteriorYear(y: int, start: Date, asOf: Date)
    requires ValidDate(start) && ValidDate(asOf) && start.year < y < asOf.year
    ensures |QuartersOf(y, start, asOf)| == 4
  {
    assert start.day <= 31 && asOf.day <= 31;
  }

  /** A quarter end counts in exactly one of the two boundary years; clamping February 29 passes none. */
  lemma {:induction false} BoundaryYears(asOf: Date, years: int)
    requires ValidDate(asOf) && 0 < years < asOf.year
    ensures var start := WindowStart(asOf, years);
            |QuartersOf(start.year, start, asOf)| + |QuartersOf(asOf.year, start, asOf)| == 4
  {
    var start := WindowStart(asOf, years);
    assert start.day == asOf.day || (asOf.month == 2 && start.day == 28 && asOf.day == 29);
    OneOfTwo(asOf, start, 1);
    OneOfTwo(asOf, start, 2);
    OneOfTwo(asOf, start, 3);
    OneOfTwo(asOf, start, 4);
  }

  lemma {:induction false} OneOfTwo(asOf: Date, start: Date, q: int)
    requires ValidDate(asOf) && 1 <= q <= 4 && start.year < asOf.year && start.month == asOf.month
    requires start.day == asOf.day || (asOf.month == 2 && start.day == 28 && asOf.day == 29)
    ensures |One(start, QuarterEnd(start.year, q), asOf)| + |One(start, QuarterEnd(asOf.year, q), asOf)| == 1
  {
    assert asOf.day <= 31;
  }

  /** The window always holds exactly four quarter ends per year. */
  lemma {:induction false} ExpectedCount(asOf: Date, years: int)
    requires ValidDate(asOf) && 0 < years < asOf.year
    ensures |Expected(WindowStart(asOf, years), asOf)| == 4 * years
  {
    hide QuartersOf;
    var start := WindowStart(asOf, years);
    FullYears(asOf.year, start, asOf);
    BoundaryYears(asOf, years);
  }

  lemma {:induction false} QuarterMembers(y: int, start: Date, asOf: Date, d: Date)
    ensures d in QuartersOf(y, start, asOf) <==> d.year == y && IsQuarterEnd(d) && Between(start, d, asOf)
  {
    if d.year == y && IsQuarterEnd(d) {
      assert d == QuarterEnd(y, 1) || d == QuarterEnd(y, 2) || d == QuarterEnd(y, 3) || d == QuarterEnd(y, 4);
    }
    OneMembers(start, QuarterEnd(y, 1), asOf, d);
    OneMembers(start, QuarterEnd(y, 2), asOf, d);
    OneMembers(start, QuarterEnd(y, 3), asOf, d);
    OneMembers(start, QuarterEnd(y, 4), asOf, d);
  }

  lemma {:induction false} OneMembers(start: Date, q: Date, asOf: Date, d: Date)
    ensures d in One(start, q, asOf) <==> d == q && Between(start, q, asOf)
  {
  }

  lemma {:induction false} ExpectedMembers(y: int, start: Date, asOf: Date, d: Date)
    ensures d in ExpectedBefore(y, start, asOf) <==> start.year <= d.year < y && IsQuarterEnd(d) && Between(start, d, asOf)
    decreases y - start.year
  {
    hide QuartersOf, IsQuarterEnd, Between;
    if y > start.year {
      ExpectedMembers(y - 1, start, asOf, d);
      QuarterMembers(y - 1, start, asOf, d);
    }
  }

  ghost predicate NoRepeats(s: seq<Date>) {
    forall i, j :: 0 <= i < j < |s| ==> s[i] != s[j]
  }

  lemma {:induction false} QuartersDistinct(y: int, start: Date, asOf: Date)
    ensures NoRepeats(QuartersOf(y, start, asOf))
  {
    hide Between;
  }

  lemma {:induction false} ExpectedDistinct(y: int, start: Date, asOf: Date)
    ensures NoRepeats(ExpectedBefore(y, start, asOf))
    decreases y - start.year
  {
    hide QuartersOf;
    if y > start.year {
      ExpectedDistinct(y - 1, start, asOf);
      QuartersDistinct(y - 1, start, asOf);
      var a, b := ExpectedBefore(y - 1, start, asOf), QuartersOf(y - 1, start, asOf);
      forall i, j | 0 <= i < |a| && 0 <= j < |b|
        ensures a[i] != b[j]
      {
        ExpectedMembers(y - 1, start, asOf, a[i]);
        QuarterMembers(y - 1, start, asOf, b[j]);
      }
    }
  }

  /** The dates of s that are not in the set, in order. */
  function Without(s: seq<Date>, days: set<Date>): seq<Date> {
    if s == [] then [] else
      Without(s[..|s| - 1], days) + (if s[|s| - 1] in days then [] else [s[|s| - 1]])
  }

  lemma {:induction false} WithoutMembers(s: seq<Date>, days: set<Date>, d: Date)
    ensures d in Without(s, days) <==> d in s && d !in days
  {
    if s != [] {
      WithoutMembers(s[..|s| - 1], days, d);
      assert s == s[..|s| - 1] + [s[|s| - 1]];
    }
  }

  lemma {:induction false} WithoutCount(s: seq<Date>, days: set<Date>)
    requires NoRepeats(s) && forall d :: d in days ==> d in s
    ensures |Without(s, days)| + |days| == |s|
  {
    if s == [] {
      assert days == {};
    } else {
      var n := |s| - 1;
      var front, last := s[..n], s[n];
      assert s == front + [last];
      assert last !in front;
      if last in days {
        WithoutCount(front, days - {last});
        WithoutSame(front, days, last);
      } else {
        WithoutCount(front, days);
      }
    }
  }

  lemma {:induction false} WithoutSame(s: seq<Date>, days: set<Date>, d: Date)
    requires d !in s
    ensures Without(s, days) == Without(s, days - {d})
  {
    if s != [] {
      assert s == s[..|s| - 1] + [s[|s| - 1]];
      WithoutSame(s[..|s| - 1], days, d);
    }
  }

  // ----- the band

  ghost predicate ValidPoints(points: seq<Point>) {
    forall i :: 0 <= i < |points| ==> ValidDate(points[i].day)
  }

  function Days(s: seq<Point>): set<Date> {
    set i | 0 <= i < |s| :: s[i].day
  }

  function PointsOf(excluded: seq<Excluded>): (s: seq<Point>)
    ensures |s| == |excluded|
  {
    if excluded == [] then [] else PointsOf(excluded[..|excluded| - 1]) + [excluded[|excluded| - 1].point]
  }

  function Values(eligible: seq<Point>): seq<real>
    requires forall i :: 0 <= i < |eligible| ==> eligible[i].value.Number?
  {
    if eligible == [] then [] else Values(eligible[..|eligible| - 1]) + [eligible[|eligible| - 1].value.v]
  }

  /** The reasons a sample is given, once the counted days before it are known. */
  function Reasons(points: seq<Point>, start: Date, asOf: Date, series: string, p: Point, seen: set<Date>): set<Reason> {
    var own := OwnReasons(p, start, asOf, series);
    if p.series == series && Conflicting(points, start, asOf, series, p.day) then own + {ConflictingQuarter}
    else if own == {} && p.day in seen then {DuplicateSample}
    else own
  }

  ghost predicate Explained(points: seq<Point>, start: Date, asOf: Date, series: string, e: Excluded) {
    e.reasons == Exclusion(points, start, asOf, series, e.point) != {}
  }

  /** What the second loop has established after some prefix of the ordered samples. */
  ghost predicate Partitioned(points: seq<Point>, start: Date, asOf: Date, series: string, prefix: seq<Point>, eligible: seq<Point>, excluded: seq<Excluded>)
  {
    && DaysIncrease(eligible)
    && (forall p :: p in eligible <==> p in prefix && Counts(points, start, asOf, series, p))
    && (forall i :: 0 <= i < |excluded| ==> Explained(points, start, asOf, series, excluded[i]))
    && multiset(eligible) + multiset(PointsOf(excluded)) == multiset(prefix)
  }

  lemma {:induction false} CountedIsUnique(points: seq<Point>, start: Date, asOf: Date, series: string, p: Point, q: Point)
    requires p in points && q in points && Counts(points, start, asOf, series, p) && Counts(points, start, asOf, series, q) && p.day == q.day
    ensures p == q
  {
    OwnMeansCompetes(p, start, asOf, series);
    OwnMeansCompetes(q, start, asOf, series);
  }

  lemma {:induction false} OwnMeansCompetes(p: Point, start: Date, asOf: Date, series: string)
    requires OwnReasons(p, start, asOf, series) == {}
    ensures Competes(p, start, asOf, series) && IsQuarterEnd(p.day) && p.value.Number? && p.flags == []
  {
    var r := OwnReasons(p, start, asOf, series);
    assert IncompatibleSeries !in r && OutsideWindow !in r && AfterAsOf !in r && NotQuarterEnd !in r;
    assert MissingValue !in r && NonfiniteValue !in r && RangeExceeded !in r;
    assert Named(p.flags) <= r;
  }

  lemma {:induction false} PartitionGrows(points: seq<Point>, start: Date, asOf: Date, series: string, prefix: seq<Point>, p: Point,
                                          eligible: seq<Point>, excluded: seq<Excluded>)
    requires ValidPoints(points) && Partitioned(points, start, asOf, series, prefix, eligible, excluded)
    requires p in points && (forall i :: 0 <= i < |prefix| ==> prefix[i] in points && Key(prefix[i].day) <= Key(p.day))
    ensures var reasons := Reasons(points, start, asOf, series, p, Days(eligible));
            if reasons == {} then Partitioned(points, start, asOf, series, prefix + [p], eligible + [p], excluded)
            else Partitioned(points, start, asOf, series, prefix + [p], eligible, excluded + [Excluded(p, reasons)])
  {
    hide OwnReasons, Conflicting, Partitioned, Days;
    var reasons := Reasons(points, start, asOf, series, p, Days(eligible));
    if reasons == {} {
      OwnMeansCompetes(p, start, asOf, series);
      EligibleGrows(points, start, asOf, series, prefix, p, eligible, excluded);
    } else {
      ExcludedGrows(points, start, asOf, series, prefix, p, eligible, excluded, reasons);
    }
  }

  lemma {:induction false} EligibleGrows(points: seq<Point>, start: Date, asOf: Date, series: string, prefix: seq<Point>, p: Point,
                                         eligible: seq<Point>, excluded: seq<Excluded>)
    requires ValidPoints(points) && Partitioned(points, start, asOf, series, prefix, eligible, excluded)
    requires p in points && (forall i :: 0 <= i < |prefix| ==> prefix[i] in points && Key(prefix[i].day) <= Key(p.day))
    requires Counts(points, start, asOf, series, p) && p.day !in Days(eligible)
    ensures Partitioned(points, start, asOf, series, prefix + [p], eligible + [p], excluded)
  {
    hide Counts, PointsOf, ValidDate, Key, Explained;
    forall i | 0 <= i < |eligible|
      ensures Key(eligible[i].day) < Key(p.day)
    {
      assert eligible[i] in eligible;
      assert eligible[i].day in Days(eligible);
      DifferentDays(points, eligible[i], p);
    }
  }

  lemma {:induction false} DifferentDays(points: seq<Point>, p: Point, q: Point)
    requires ValidPoints(points) && p in points && q in points && p.day != q.day
    ensures Key(p.day) != Key(q.day)
  {
    if Key(p.day) == Key(q.day) {
      KeyUnique(p.day, q.day);
      assert false;
    }
  }

  lemma {:induction false} ExcludedGrows(points: seq<Point>, start: Date, asOf: Date, series: string, prefix: seq<Point>, p: Point,
                                         eligible: seq<Point>, excluded: seq<Excluded>, reasons: set<Reason>)
    requires Partitioned(points, start, asOf, series, prefix, eligible, excluded) && p in points && reasons != {}
    requires forall i :: 0 <= i < |prefix| ==> prefix[i] in points
    requires reasons == Reasons(points, start, asOf, series, p, Days(eligible))
    ensures Partitioned(points, start, asOf, series, prefix + [p], eligible, excluded + [Excluded(p, reasons)])
  {
    ReasonsExplain(points, start, asOf, series, p, Days(eligible));
    AlreadyCounted(points, start, asOf, series, p, prefix, eligible, excluded);
    hide OwnReasons, Conflicting, Days, DaysIncrease, Explained, Counts, Reasons, Key, PointsOf;
    PointsAppend(eligible, excluded, Excluded(p, reasons), prefix);
    EligibleStays(points, start, asOf, series, prefix, p, eligible);
    var longer := excluded + [Excluded(p, reasons)];
    assert forall i :: 0 <= i < |longer| ==> Explained(points, start, asOf, series, longer[i]);
  }

  lemma {:induction false} EligibleStays(points: seq<Point>, start: Date, asOf: Date, series: string, prefix: seq<Point>, p: Point, eligible: seq<Point>)
    requires forall q :: q in eligible <==> q in prefix && Counts(points, start, asOf, series, q)
    requires Counts(points, start, asOf, series, p) ==> p in eligible
    ensures forall q :: q in eligible <==> q in prefix + [p] && Counts(points, start, asOf, series, q)
  {
    hide Counts;
  }

  lemma {:induction false} PointsAppend(eligible: seq<Point>, excluded: seq<Excluded>, e: Excluded, prefix: seq<Point>)
    requires multiset(eligible) + multiset(PointsOf(excluded)) == multiset(prefix)
    ensures multiset(eligible) + multiset(PointsOf(excluded + [e])) == multiset(prefix + [e.point])
  {
    assert (excluded + [e])[..|excluded|] == excluded;
  }

  lemma {:induction false} ReasonsExplain(points: seq<Point>, start: Date, asOf: Date, series: string, p: Point, seen: set<Date>)
    requires Reasons(points, start, asOf, series, p, seen) != {}
    ensures Explained(points, start, asOf, series, Excluded(p, Reasons(points, start, asOf, series, p, seen)))
    ensures Counts(points, start, asOf, series, p) ==> p.day in seen
  {
    hide OwnReasons, Conflicting;
    if OwnReasons(p, start, asOf, series) == {} {
      OwnMeansCompetes(p, start, asOf, series);
    }
  }

  /** A sample that counts and yet is left out has its exact copy among the counted ones. */
  lemma {:induction false} AlreadyCounted(points: seq<Point>, start: Date, asOf: Date, series: string, p: Point, prefix: seq<Point>,
                                          eligible: seq<Point>, excluded: seq<Excluded>)
    requires Partitioned(points, start, asOf, series, prefix, eligible, excluded) && p in points
    requires forall i :: 0 <= i < |prefix| ==> prefix[i] in points
    requires Counts(points, start, asOf, series, p) ==> p.day in Days(eligible)
    ensures Counts(points, start, asOf, series, p) ==> p in eligible
  {
    hide Counts, Days, Explained, DaysIncrease;
    if Counts(points, start, asOf, series, p) {
      var e := OnDay(eligible, p.day);
      CountedIsUnique(points, start, asOf, series, p, e);
    }
  }

  lemma {:induction false} OnDay(s: seq<Point>, d: Date) returns (p: Point)
    requires d in Days(s)
    ensures p in s && p.day == d
  {
    var i :| 0 <= i < |s| && s[i].day == d;
    p := s[i];
  }

  /** The band is a function of the set of samples: an increasing list is fixed by its members. */
  lemma {:induction false} IncreasingUnique(a: seq<Point>, b: seq<Point>)
    requires DaysIncrease(a) && DaysIncrease(b) && forall p :: p in a <==> p in b
    ensures a == b
    decreases |a|
  {
    if a == [] {
      if b != [] {
        HasMember(b);
        assert false;
      }
    } else {
      LastAmong(a, b);
      LastAmong(b, a);
      var x, y := a[|a| - 1], b[|b| - 1];
      hide DaysIncrease, Key;
      FrontIncreases(a);
      FrontIncreases(b);
      var c, d := a[..|a| - 1], b[..|b| - 1];
      forall p
        ensures p in c <==> p in d
      {
        FrontMembers(a, p);
        FrontMembers(b, p);
      }
      IncreasingUnique(c, d);
      assert a == c + [x] && b == d + [y];
    }
  }

  /** The last sample of one list cannot be later than that of the other. */
  lemma {:induction false} LastAmong(a: seq<Point>, b: seq<Point>)
    requires DaysIncrease(a) && DaysIncrease(b) && a != [] && forall p :: p in a <==> p in b
    ensures b != [] && (a[|a| - 1] == b[|b| - 1] || Key(a[|a| - 1].day) < Key(b[|b| - 1].day))
  {
    hide Key;
    var x := a[|a| - 1];
    assert x in a;
    assert x in b;
    var i :| 0 <= i < |b| && b[i] == x;
  }

  lemma {:induction false} FrontIncreases(a: seq<Point>)
    requires a != [] && DaysIncrease(a)
    ensures DaysIncrease(a[..|a| - 1])
  {
    hide Key;
  }

  lemma {:induction false} HasMember(a: seq<Point>)
    requires a != []
    ensures exists p :: p in a
  {
    assert a[0] in a;
  }

  lemma {:induction false} FrontMembers(a: seq<Point>, p: Point)
    requires a != [] && DaysIncrease(a)
    ensures p in a[..|a| - 1] <==> p in a && p != a[|a| - 1]
  {
    assert a == a[..|a| - 1] + [a[|a| - 1]];
  }

  lemma {:induction false} DistinctDays(s: seq<Point>)
    requires DaysIncrease(s)
    ensures |Days(s)| == |s|
  {
    if s == [] {
      assert Days(s) == {};
    } else {
      var n := |s| - 1;
      var front := s[..n];
      DistinctDays(front);
      assert Days(s) == Days(front) + {s[n].day};
      assert s[n].day !in Days(front);
    }
  }

  /** The samples are split, the expected quarters are split, and enough samples give the quartiles. */
  ghost predicate IsBand(points: seq<Point>, asOf: Date, series: string, years: nat, minimum: nat, b: Band)
    requires ValidDate(asOf) && asOf.year > years && minimum >= 1
  {
    && b.start == WindowStart(asOf, years)
    && DaysIncrease(b.eligible)
    && (forall p :: p in b.eligible <==> p in points && Counts(points, b.start, asOf, series, p))
    && multiset(b.eligible) + multiset(PointsOf(b.excluded)) == multiset(points)
    && (forall i :: 0 <= i < |b.excluded| ==> Explained(points, b.start, asOf, series, b.excluded[i]))
    && b.expected == Expected(b.start, asOf) && |b.expected| == 4 * years
    && b.missing == Without(b.expected, Days(b.eligible)) && |b.missing| + |b.eligible| == 4 * years
    && (forall p :: p in b.eligible ==> p.day in b.expected)
    && (forall i :: 0 <= i < |b.eligible| ==> b.eligible[i].value.Number?)
    && (b.quartiles.Some? <==> |b.eligible| >= minimum)
    && (b.quartiles.Some? ==> b.quartiles == Some(Quartiles(b.eligible)))
  }

  /** None is the ValueError for a date without a representable window or a blank series identity. The
      years and the minimum are a reviewed policy's. */
  method HistoricalBand(points: seq<Point>, asOf: Date, series: string, years: nat, minimum: nat) returns (b: Option<Band>)
    requires ValidPoints(points) && ValidDate(asOf) && years > 0 && minimum >= 1
    ensures b.Some? <==> asOf.year > years && !Blank(series)
    ensures b.Some? ==> IsBand(points, asOf, series, years, minimum, b.value)
  {
    hide IsBand, ValidDate;
    if asOf.year <= years || Blank(series) {
      return None;
    }
    var band := FormBand(points, asOf, series, years, minimum);
    b := Some(band);
  }

  method FormBand(points: seq<Point>, asOf: Date, series: string, years: nat, minimum: nat) returns (b: Band)
    requires ValidPoints(points) && ValidDate(asOf) && 0 < years < asOf.year && minimum >= 1
    ensures IsBand(points, asOf, series, years, minimum, b)
  {
    hide Counts, Conflicting, OwnReasons, ExpectedBefore, QuartersOf, DaysIncrease, Days, Key, ValidDate, DaysInMonth, PointsOf, Without, Quartiles, Explained;
    var start := WindowStart(asOf, years);
    StartValid(asOf, years);
    var eligible, excluded := Divide(points, start, asOf, series);
    var expected := Expected(start, asOf);
    ExpectedCount(asOf, years);
    ExpectedDistinct(asOf.year + 1, start, asOf);
    ValidMembers(points, eligible);
    EligibleExpected(points, start, asOf, series, eligible);
    DistinctDays(eligible);
    WithoutCount(expected, Days(eligible));
    var missing := Without(expected, Days(eligible));
    var quartiles := if |eligible| >= minimum then Some(Quartiles(eligible)) else None;
    b := Band(start, eligible, excluded, expected, missing, quartiles);
  }

  lemma {:induction false} StartValid(asOf: Date, years: int)
    requires ValidDate(asOf) && 0 < years < asOf.year
    ensures ValidDate(WindowStart(asOf, years)) && WindowStart(asOf, years).year <= asOf.year
  {
  }

  lemma {:induction false} ValidMembers(points: seq<Point>, eligible: seq<Point>)
    requires ValidPoints(points) && forall p :: p in eligible ==> p in points
    ensures forall p :: p in eligible ==> ValidDate(p.day)
  {
    hide ValidDate;
  }

  /** The second loop of historical_band. */
  method Divide(points: seq<Point>, start: Date, asOf: Date, series: string) returns (eligible: seq<Point>, excluded: seq<Excluded>)
    requires ValidPoints(points)
    ensures DaysIncrease(eligible)
    ensures forall p :: p in eligible <==> p in points && Counts(points, start, asOf, series, p)
    ensures forall i :: 0 <= i < |excluded| ==> Explained(points, start, asOf, series, excluded[i])
    ensures multiset(eligible) + multiset(PointsOf(excluded)) == multiset(points)
  {
    hide Counts, Conflicting, OwnReasons, Partitioned, DaysIncrease, InDayOrder, Days, Reasons, PointsOf, SortByDay, ValidDate, Key, Explained;
    var ordered := SortByDay(points);
    SortKeeps(points);
    eligible, excluded := [], [];
    var seen: set<Date> := {};
    NothingPartitioned(points, start, asOf, series);
    for i := 0 to |ordered|
      invariant Partitioned(points, start, asOf, series, ordered[..i], eligible, excluded)
      invariant seen == Days(eligible)
    {
      var p := ordered[i];
      BeforeInOrder(points, ordered, i);
      PartitionGrows(points, start, asOf, series, ordered[..i], p, eligible, excluded);
      assert ordered[..i + 1] == ordered[..i] + [p];
      var reasons := Reasons(points, start, asOf, series, p, seen);
      if reasons != {} {
        excluded := excluded + [Excluded(p, reasons)];
      } else {
        DaysGrow(eligible, p);
        eligible := eligible + [p];
        seen := seen + {p.day};
      }
    }
    assert ordered[..|ordered|] == ordered;
    PartitionDone(points, start, asOf, series, ordered, eligible, excluded);
  }

  function Quartiles(eligible: seq<Point>): (real, real, real)
    requires |eligible| > 0 && forall i :: 0 <= i < |eligible| ==> eligible[i].value.Number?
  {
    ValuesLength(eligible);
    var v := SortValues(Values(eligible));
    (Quantile(v, 1), Quantile(v, 2), Quantile(v, 3))
  }

  lemma {:induction false} ValuesLength(eligible: seq<Point>)
    requires forall i :: 0 <= i < |eligible| ==> eligible[i].value.Number?
    ensures |Values(eligible)| == |eligible|
  {
    if eligible != [] {
      ValuesLength(eligible[..|eligible| - 1]);
    }
  }

  /** The quartiles of a band lie in order between its smallest and largest sample. */
  lemma {:induction false} BandOrdered(eligible: seq<Point>)
    requires |eligible| > 0 && forall i :: 0 <= i < |eligible| ==> eligible[i].value.Number?
    ensures var (a, b, c) := Quartiles(eligible);
            var v := SortValues(Values(eligible));
            |v| == |eligible| && multiset(v) == multiset(Values(eligible)) && v[0] <= a <= b <= c <= v[|v| - 1]
  {
    ValuesLength(eligible);
    SortValuesKeeps(Values(eligible));
    QuartilesOrdered(SortValues(Values(eligible)));
  }

  lemma {:induction false} NothingPartitioned(points: seq<Point>, start: Date, asOf: Date, series: string)
    ensures Partitioned(points, start, asOf, series, [], [], []) && Days([]) == {}
  {
  }

  lemma {:induction false} DaysGrow(s: seq<Point>, p: Point)
    ensures Days(s + [p]) == Days(s) + {p.day}
  {
    var t := s + [p];
    forall d | d in Days(s) + {p.day}
      ensures d in Days(t)
    {
      if d in Days(s) {
        var i :| 0 <= i < |s| && s[i].day == d;
        assert t[i].day == d;
      } else {
        assert t[|s|].day == d;
      }
    }
  }

  lemma {:induction false} BeforeInOrder(points: seq<Point>, ordered: seq<Point>, i: nat)
    requires InDayOrder(ordered) && multiset(ordered) == multiset(points) && i < |ordered|
    ensures ordered[i] in points
    ensures forall j :: 0 <= j < i ==> ordered[..i][j] in points && Key(ordered[..i][j].day) <= Key(ordered[i].day)
  {
    assert ordered[i] in multiset(ordered);
    forall j | 0 <= j < i
      ensures ordered[j] in points && Key(ordered[j].day) <= Key(ordered[i].day)
    {
      assert ordered[j] in multiset(ordered);
      DayPair(ordered, j, i);
    }
  }

  lemma {:induction false} DayPair(s: seq<Point>, i: nat, j: nat)
    requires InDayOrder(s) && i <= j < |s|
    ensures Key(s[i].day) <= Key(s[j].day)
    decreases j
  {
    if i < j {
      DayPair(s, i, j - 1);
    }
  }

  lemma {:induction false} PartitionDone(points: seq<Point>, start: Date, asOf: Date, series: string, ordered: seq<Point>,
                                         eligible: seq<Point>, excluded: seq<Excluded>)
    requires Partitioned(points, start, asOf, series, ordered, eligible, excluded) && multiset(ordered) == multiset(points)
    ensures DaysIncrease(eligible)
    ensures forall p :: p in eligible <==> p in points && Counts(points, start, asOf, series, p)
    ensures forall i :: 0 <= i < |excluded| ==> Explained(points, start, asOf, series, excluded[i])
    ensures multiset(eligible) + multiset(PointsOf(excluded)) == multiset(points)
  {
    hide Counts, Explained;
    assert forall p :: p in ordered <==> p in multiset(ordered);
    assert forall p :: p in points <==> p in multiset(points);
  }

  lemma {:induction false} EligibleExpected(points: seq<Point>, start: Date, asOf: Date, series: string, eligible: seq<Point>)
    requires ValidDate(asOf) && forall p :: p in eligible ==> Counts(points, start, asOf, series, p) && ValidDate(p.day)
    requires start.year <= asOf.year && ValidDate(start)
    ensures forall p :: p in eligible ==> p.day in Expected(start, asOf) && p.value.Number?
    ensures forall d :: d in Days(eligible) ==> d in Expected(start, asOf)
    ensures forall i :: 0 <= i < |eligible| ==> eligible[i].value.Number?
  {
    hide ExpectedBefore, OwnReasons, Conflicting;
    forall p | p in eligible
      ensures p.day in Expected(start, asOf) && p.value.Number?
    {
      OwnMeansCompetes(p, start, asOf, series);
      ExpectedMembers(asOf.year + 1, start, asOf, p.day);
      YearsInside(start, p.day, asOf);
    }
  }

  lemma {:induction false} YearsInside(start: Date, d: Date, asOf: Date)
    requires ValidDate(start) && ValidDate(d) && ValidDate(asOf) && Between(start, d, asOf)
    ensures start.year <= d.year <= asOf.year
  {
    assert start.day <= 31 && d.day <= 31 && asOf.day <= 31;
  }

  /** The three quartiles of a band whose n samples are evenly spaced: one, two and three quarters of the way
      from the least to the greatest. */
  lemma {:induction false} BandOfProgression(points: seq<Point>, asOf: Date, series: string, years: nat, minimum: nat, b: Band, a: real, d: real)
    requires ValidDate(asOf) && asOf.year > years && minimum >= 1 && IsBand(points, asOf, series, years, minimum, b) && b.quartiles.Some?
    requires (forall i :: 0 <= i < |b.eligible| ==> b.eligible[i].value.Number?) && Progression(SortValues(Values(b.eligible)), a, d)
    ensures var m := |b.eligible| - 1;
            m >= 0 && b.quartiles == Some((QuarterSteps(a, d, m), QuarterSteps(a, d, m * 2), QuarterSteps(a, d, m * 3)))
  {
    hide Counts, DaysIncrease, Explained, ExpectedBefore, Without, Days, PointsOf, ValidDate, Quartiles, SortValues, Progression, Values, QuarterSteps;
    QuartilesOfProgression(b.eligible, a, d);
  }

  lemma {:induction false} QuartilesOfProgression(eligible: seq<Point>, a: real, d: real)
    requires |eligible| > 0 && (forall i :: 0 <= i < |eligible| ==> eligible[i].value.Number?) && Progression(SortValues(Values(eligible)), a, d)
    ensures var m := |eligible| - 1;
            Quartiles(eligible) == (QuarterSteps(a, d, m), QuarterSteps(a, d, m * 2), QuarterSteps(a, d, m * 3))
  {
    hide Quantile, QuarterSteps, Progression, SortValues, Values;
    ValuesLength(eligible);
    SortValuesKeeps(Values(eligible));
    var v := SortValues(Values(eligible));
    assert |multiset(v)| == |v| && |multiset(Values(eligible))| == |Values(eligible)|;
    QuantileOfProgression(v, a, d, 1);
    QuantileOfProgression(v, a, d, 2);
    QuantileOfProgression(v, a, d, 3);
    assert (|v| - 1) * 1 == |v| - 1;
  }

  /** Reordering the samples, or repeating one exactly, leaves everything but the list of exclusions
      unchanged, down to the percentiles. */
  lemma {:induction false} BandIgnoresOrderAndCopies(points: seq<Point>, other: seq<Point>, asOf: Date, series: string, years: nat, minimum: nat, a: Band, b: Band)
    requires ValidDate(asOf) && asOf.year > years && minimum >= 1 && forall p :: p in points <==> p in other
    requires IsBand(points, asOf, series, years, minimum, a) && IsBand(other, asOf, series, years, minimum, b)
    ensures a.start == b.start && a.eligible == b.eligible && a.expected == b.expected && a.missing == b.missing && a.quartiles == b.quartiles
  {
    hide Counts, DaysIncrease, Explained, ExpectedBefore, Without, Days, Quartiles, PointsOf, ValidDate;
    BandOfSet(points, other, a.start, asOf, series, a.eligible, b.eligible);
  }

  /** The counted samples are a function of the set of samples. */
  lemma {:induction false} BandOfSet(points: seq<Point>, other: seq<Point>, start: Date, asOf: Date, series: string, e: seq<Point>, f: seq<Point>)
    requires forall p :: p in points <==> p in other
    requires DaysIncrease(e) && forall p :: p in e <==> p in points && Counts(points, start, asOf, series, p)
    requires DaysIncrease(f) && forall p :: p in f <==> p in other && Counts(other, start, asOf, series, p)
    ensures e == f
  {
    hide DaysIncrease, OwnReasons;
    forall day
      ensures Conflicting(points, start, asOf, series, day) <==> Conflicting(other, start, asOf, series, day)
    {
      ConflictOfSet(points, other, start, asOf, series, day);
      ConflictOfSet(other, points, start, asOf, series, day);
    }
    IncreasingUnique(e, f);
  }

  lemma {:induction false} ConflictOfSet(points: seq<Point>, other: seq<Point>, start: Date, asOf: Date, series: string, day: Date)
    requires forall p :: p in points ==> p in other
    ensures Conflicting(points, start, asOf, series, day) ==> Conflicting(other, start, asOf, series, day)
  {
    hide Competes;
    if Conflicting(points, start, asOf, series, day) {
      var i, j :| 0 <= i < |points| && 0 <= j < |points| && points[i] != points[j] && points[i].day == day && points[j].day == day
        && Competes(points[i], start, asOf, series) && Competes(points[j], start, asOf, series);
      assert points[i] in other && points[j] in other;
      var k :| 0 <= k < |other| && other[k] == points[i];
      var l :| 0 <= l < |other| && other[l] == points[j];
    }
  }

  // ----- which samples count

  ghost predicate Earlier(d: Date, e: Date) {
    d.year < e.year || (d.year == e.year && (d.month < e.month || (d.month == e.month && d.day < e.day)))
  }

  lemma {:induction false} KeyOrder(d: Date, e: Date)
    requires ValidDate(d) && ValidDate(e)
    ensures Key(d) < Key(e) <==> Earlier(d, e)
  {
  }

  /** Another sample of the series says something else about the same day. */
  ghost predicate Contradicted(points: seq<Point>, p: Point) {
    exists q :: q in points && q != p && q.series == p.series && q.day == p.day
  }

  /** After the window's start and not after its end. */
  ghost predicate InsideWindow(p: Point, start: Date, asOf: Date) {
    Earlier(start, p.day) && !Earlier(asOf, p.day)
  }

  /** A sample is eligible exactly if it is an unflagged finite number for a quarter end inside the window, of the
      series, with a lineage, and no other sample of the series contradicts it. */
  lemma {:induction false} EligibleExactly(points: seq<Point>, asOf: Date, series: string, years: nat, minimum: nat, b: Band, p: Point)
    requires ValidPoints(points) && ValidDate(asOf) && 0 < years < asOf.year && minimum >= 1
    requires IsBand(points, asOf, series, years, minimum, b) && p in points
    ensures p in b.eligible <==>
            && p.flags == [] && p.series == series && p.value.Number? && !Contradicted(points, p) && InsideWindow(p, b.start, asOf)
            && (((p.day.month == 3 || p.day.month == 12) && p.day.day == 31) || ((p.day.month == 6 || p.day.month == 9) && p.day.day == 30))
            && (exists i :: 0 <= i < |p.inputHash| && p.inputHash[i] !in {' ', '\t', '\n', '\r'})
  {
    hide DaysIncrease, PointsOf, Explained, Expected, Without, Days, Quartiles, Key, Earlier, ValidDate, Conflicting;
    StartValid(asOf, years);
    ValidMember(points, p);
    KeyOrder(b.start, p.day);
    KeyOrder(asOf, p.day);
    if p.series == series && InsideWindow(p, b.start, asOf) {
      ConflictingExactly(points, b.start, asOf, series, p);
    }
  }

  lemma {:induction false} ValidMember(points: seq<Point>, p: Point)
    requires ValidPoints(points) && p in points
    ensures ValidDate(p.day)
  {
    hide ValidDate;
  }

  lemma {:induction false} ConflictingExactly(points: seq<Point>, start: Date, asOf: Date, series: string, p: Point)
    requires p in points && p.series == series && Competes(p, start, asOf, series)
    ensures Conflicting(points, start, asOf, series, p.day) <==> Contradicted(points, p)
  {
    hide Key;
    if Conflicting(points, start, asOf, series, p.day) {
      var i, j :| 0 <= i < |points| && 0 <= j < |points| && points[i] != points[j] && points[i].day == p.day && points[j].day == p.day
        && Competes(points[i], start, asOf, series) && Competes(points[j], start, asOf, series);
      var q := if points[i] != p then points[i] else points[j];
      assert q in points && q != p;
    }
    if Contradicted(points, p) {
      var q :| q in points && q != p && q.series == p.series && q.day == p.day;
      var i :| 0 <= i < |points| && points[i] == p;
      var j :| 0 <= j < |points| && points[j] == q;
      assert Competes(points[i], start, asOf, series) && Competes(points[j], start, asOf, series);
    }
  }

  /** Each reason stands exactly for what it says of the sample. */
  ghost predicate SaysWhy(p: Point, start: Date, asOf: Date, series: string, r: set<Reason>) {
    && (OutsideWindow in r <==> !Earlier(start, p.day))
    && (AfterAsOf in r <==> Earlier(start, p.day) && Earlier(asOf, p.day))
    && (NotQuarterEnd in r <==> !(((p.day.month == 3 || p.day.month == 12) && p.day.day == 31) || ((p.day.month == 6 || p.day.month == 9) && p.day.day == 30)))
    && (IncompatibleSeries in r <==> p.series != series)
    && (MissingLineage in r <==> forall i :: 0 <= i < |p.inputHash| ==> p.inputHash[i] in {' ', '\t', '\n', '\r'})
    && (MissingValue in r <==> p.value.Missing?) && (NonfiniteValue in r <==> p.value.NotFinite?) && (RangeExceeded in r <==> p.value.OutOfRange?)
    && (forall f :: Flag(f) in r <==> f in p.flags)
  }

  lemma {:induction false} OwnReasonsSayWhy(p: Point, start: Date, asOf: Date, series: string)
    requires ValidDate(start) && ValidDate(asOf) && ValidDate(p.day)
    ensures SaysWhy(p, start, asOf, series, OwnReasons(p, start, asOf, series))
    ensures DuplicateSample !in OwnReasons(p, start, asOf, series) && ConflictingQuarter !in OwnReasons(p, start, asOf, series)
  {
    OwnDateReasons(p, start, asOf, series);
    OwnContentReasons(p, start, asOf, series);
    hide OwnReasons, Earlier, ValidDate;
  }

  lemma {:induction false} OwnDateReasons(p: Point, start: Date, asOf: Date, series: string)
    requires ValidDate(start) && ValidDate(asOf) && ValidDate(p.day)
    ensures var r := OwnReasons(p, start, asOf, series);
            && (OutsideWindow in r <==> !Earlier(start, p.day))
            && (AfterAsOf in r <==> Earlier(start, p.day) && Earlier(asOf, p.day))
            && (NotQuarterEnd in r <==> !IsQuarterEnd(p.day))
            && (IncompatibleSeries in r <==> p.series != series)
  {
    KeyOrder(start, p.day);
    KeyOrder(asOf, p.day);
    NamedFlags(p.flags);
    hide Key, Earlier, Named, ValidDate, Blank, IsQuarterEnd;
  }

  lemma {:induction false} OwnContentReasons(p: Point, start: Date, asOf: Date, series: string)
    ensures var r := OwnReasons(p, start, asOf, series);
            && (MissingLineage in r <==> Blank(p.inputHash))
            && (MissingValue in r <==> p.value.Missing?) && (NonfiniteValue in r <==> p.value.NotFinite?) && (RangeExceeded in r <==> p.value.OutOfRange?)
            && (forall f :: Flag(f) in r <==> f in p.flags)
            && DuplicateSample !in r && ConflictingQuarter !in r
  {
    NamedFlags(p.flags);
    hide Key, Named, Blank, IsQuarterEnd;
  }

  lemma {:induction false} MoreSaysWhy(p: Point, start: Date, asOf: Date, series: string, r: set<Reason>, more: set<Reason>)
    requires SaysWhy(p, start, asOf, series, r) && more <= {DuplicateSample, ConflictingQuarter}
    ensures SaysWhy(p, start, asOf, series, r + more)
  {
  }

  /** Beside an excluded sample stands one reason for each thing that speaks against it, the conflict exactly where another
      sample of the series in the window contradicts it, and the duplicate only where nothing else stands. */
  lemma {:induction false} ReasonsExactly(points: seq<Point>, start: Date, asOf: Date, series: string, e: Excluded)
    requires Explained(points, start, asOf, series, e) && ValidDate(start) && ValidDate(asOf) && ValidDate(e.point.day) && e.point in points
    ensures SaysWhy(e.point, start, asOf, series, e.reasons)
    ensures ConflictingQuarter in e.reasons <==> e.point.series == series && InsideWindow(e.point, start, asOf) && Contradicted(points, e.point)
    ensures DuplicateSample in e.reasons ==> e.reasons == {DuplicateSample}
  {
    var p := e.point;
    var own := OwnReasons(p, start, asOf, series);
    OwnReasonsSayWhy(p, start, asOf, series);
    if p.series == series {
      ConflictInWindow(points, start, asOf, series, p);
    }
    hide OwnReasons, SaysWhy, Conflicting, InsideWindow, ValidDate, Contradicted;
    var more := if Counts(points, start, asOf, series, p) then {DuplicateSample}
                else if p.series == series && Conflicting(points, start, asOf, series, p.day) then {ConflictingQuarter} else {};
    MoreSaysWhy(p, start, asOf, series, own, more);
    assert e.reasons == own + more;
  }

  lemma {:induction false} ConflictInWindow(points: seq<Point>, start: Date, asOf: Date, series: string, p: Point)
    requires p in points && ValidDate(start) && ValidDate(asOf) && ValidDate(p.day) && p.series == series
    ensures Conflicting(points, start, asOf, series, p.day) <==> InsideWindow(p, start, asOf) && Contradicted(points, p)
  {
    KeyOrder(start, p.day);
    KeyOrder(asOf, p.day);
    hide Key, Earlier, ValidDate, Contradicted;
    if InsideWindow(p, start, asOf) {
      ConflictingExactly(points, start, asOf, series, p);
    }
  }

  lemma {:induction false} NamedFlags(flags: seq<string>)
    ensures forall f :: Flag(f) in Named(flags) <==> f in flags
    ensures forall r :: r in Named(flags) ==> r.Flag?
  {
    if flags != [] {
      NamedFlags(flags[..|flags| - 1]);
      assert flags == flags[..|flags| - 1] + [flags[|flags| - 1]];
    }
  }
}
