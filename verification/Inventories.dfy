/**
 Assembly of an issuer's filing inventory from the recent Submissions document and the older documents
 it advertises (packages/ingest/sec_inventory.py assemble_inventory).
 */
module Inventories {
  import opened Common
  import M = FilingMonitor

  /** A parsed filing together with the source text of its row. */
  datatype Row = Row(filing: M.Filing, raw: string)

  datatype Reference = Reference(name: string, count: nat, from: int, to: int)

  datatype Document = Document(cik: string, name: Option<string>, rows: seq<Row>, references: seq<Reference>)

  datatype Flag = MissingHistory | DuplicateAccessions | MetadataMismatch | ConflictingMetadata

  datatype Assembled = Assembled(cik: string, start: int, end: int, rows: seq<Row>, complete: bool, missing: set<string>, flags: set<Flag>)

  // ----- what the root advertises

  /** The dictionary of references; a repeated name keeps its last row. */
  function Advertised(references: seq<Reference>): map<string, Reference> {
    if references == [] then map[] else
      var last := references[|references| - 1];
      Advertised(references[..|references| - 1])[last.name := last]
  }

  predicate IsAdvertised(recent: Document, d: Document) {
    d.cik == recent.cik && d.name.Some? && d.name.value in Advertised(recent.references)
  }

  predicate Acceptable(recent: Document, older: seq<Document>) {
    && (forall i :: 0 <= i < |older| ==> IsAdvertised(recent, older[i]))
    && (forall i, j :: 0 <= i < j < |older| ==> older[i].name != older[j].name)
  }

  /** Advertised documents whose stated range meets the window. */
  function Needed(recent: Document, start: int, end: int): set<string> {
    var advertised := Advertised(recent.references);
    set n | n in advertised && advertised[n].from <= end && advertised[n].to >= start
  }

  function Names(older: seq<Document>): set<string> {
    set i | 0 <= i < |older| && older[i].name.Some? :: older[i].name.value
  }

  // ----- rows

  function Joined(older: seq<Document>): seq<Row> {
    if older == [] then [] else Joined(older[..|older| - 1]) + older[|older| - 1].rows
  }

  predicate Inside(row: Row, start: int, end: int) {
    start <= row.filing.metadata.filed <= end
  }

  function InWindow(rows: seq<Row>, start: int, end: int): seq<Row> {
    if rows == [] then [] else
      InWindow(rows[..|rows| - 1], start, end) + (if Inside(rows[|rows| - 1], start, end) then [rows[|rows| - 1]] else [])
  }

  predicate RepeatsAccession(rows: seq<Row>) {
    exists i, j :: 0 <= i < j < |rows| && rows[i].filing.metadata.accession == rows[j].filing.metadata.accession
  }

  /** The document is not what the root says it is. */
  predicate Mismatched(recent: Document, d: Document)
    requires IsAdvertised(recent, d)
  {
    var reference := Advertised(recent.references)[d.name.value];
    |d.rows| != reference.count || exists i :: 0 <= i < |d.rows| && !Inside(d.rows[i], reference.from, reference.to)
  }

  predicate Disagree(a: Row, b: Row) {
    a.filing.metadata.accession == b.filing.metadata.accession && a.raw != b.raw
  }

  predicate Conflicting(rows: seq<Row>) {
    exists i, j :: 0 <= i < |rows| && 0 <= j < |rows| && Disagree(rows[i], rows[j])
  }

  /** sorted by filing date, stable. */
  function Insert(sorted: seq<Row>, row: Row): (r: seq<Row>)
    ensures multiset(r) == multiset(sorted) + multiset{row}
  {
    if sorted == [] || sorted[|sorted| - 1].filing.metadata.filed <= row.filing.metadata.filed then sorted + [row]
    else
      assert sorted == sorted[..|sorted| - 1] + [sorted[|sorted| - 1]];
      Insert(sorted[..|sorted| - 1], row) + [sorted[|sorted| - 1]]
  }

  predicate ByDate(rows: seq<Row>) {
    forall i, j :: 0 <= i < j < |rows| ==> rows[i].filing.metadata.filed <= rows[j].filing.metadata.filed
  }

  lemma {:induction false} InsertByDate(sorted: seq<Row>, row: Row)
    requires ByDate(sorted)
    ensures ByDate(Insert(sorted, row))
  {
    if !(sorted == [] || sorted[|sorted| - 1].filing.metadata.filed <= row.filing.metadata.filed) {
      var front, last := sorted[..|sorted| - 1], sorted[|sorted| - 1];
      InsertByDate(front, row);
      var r := Insert(front, row);
      forall i | 0 <= i < |r|
        ensures r[i].filing.metadata.filed <= last.filing.metadata.filed
      {
        assert r[i] in multiset(r);
        assert r[i] in multiset(front) || r[i] == row;
        assert forall k :: k in multiset(front) ==> k in front;
      }
    }
  }

  // ----- the specification

  ghost predicate IsInventory(recent: Document, older: seq<Document>, start: int, end: int, a: Assembled)
    requires Acceptable(recent, older)
  {
    var selected := InWindow(recent.rows + Joined(older), start, end);
    && a.cik == recent.cik && a.start == start && a.end == end
    && multiset(a.rows) == multiset(selected) && ByDate(a.rows)
    && a.missing == Needed(recent, start, end) - Names(older)
    && (MissingHistory in a.flags <==> a.missing != {})
    && (DuplicateAccessions in a.flags <==> RepeatsAccession(recent.rows) || exists i :: 0 <= i < |older| && RepeatsAccession(older[i].rows))
    && (MetadataMismatch in a.flags <==> exists i :: 0 <= i < |older| && Mismatched(recent, older[i]))
    && (ConflictingMetadata in a.flags <==> Conflicting(selected))
    && (a.complete <==> a.flags == {})
  }

  /** None is the source's ValueError. */
  method Assemble(recent: Document, older: seq<Document>, start: int, end: int) returns (r: Option<Assembled>)
    ensures r.Some? <==> recent.name.None? && start <= end && Acceptable(recent, older)
    ensures r.Some? ==> IsInventory(recent, older, start, end, r.value)
  {
    hide RepeatsAccession, Mismatched, Conflicting, Advertised, Needed, Joined, InWindow, ByDate, IsAdvertised;
    if recent.name.Some? || start > end {
      return None;
    }
    var ok, supplied := Supply(recent, older);
    if !ok {
      return None;
    }
    var flags: set<Flag> := {};
    var missing := Needed(recent, start, end) - supplied;
    if missing != {} {
      flags := flags + {MissingHistory};
    }
    var duplicated, mismatched := RepeatsAccession(recent.rows), false;
    for i := 0 to |older|
      invariant duplicated <==> RepeatsAccession(recent.rows) || exists j :: 0 <= j < i && RepeatsAccession(older[j].rows)
      invariant mismatched <==> exists j :: 0 <= j < i && Mismatched(recent, older[j])
    {
      duplicated := duplicated || RepeatsAccession(older[i].rows);
      mismatched := mismatched || Mismatched(recent, older[i]);
    }
    if duplicated {
      flags := flags + {DuplicateAccessions};
    }
    if mismatched {
      flags := flags + {MetadataMismatch};
    }
    var selected := InWindow(recent.rows + Joined(older), start, end);
    var conflict := FindConflict(selected);
    if conflict {
      flags := flags + {ConflictingMetadata};
    }
    var rows := SortRows(selected);
    r := Some(Assembled(recent.cik, start, end, rows, flags == {}, missing, flags));
  }

  /** The checks that each older document was advertised and is supplied once. */
  method Supply(recent: Document, older: seq<Document>) returns (ok: bool, supplied: set<string>)
    ensures ok <==> Acceptable(recent, older)
    ensures ok ==> supplied == Names(older)
  {
    hide IsAdvertised, Names;
    supplied := {};
    NoNames();
    ok := true;
    for i := 0 to |older|
      invariant ok && Acceptable(recent, older[..i]) && supplied == Names(older[..i])
    {
      var d := older[i];
      assert older[..i + 1] == older[..i] + [d];
      NamesGrow(recent, older[..i], d);
      if !IsAdvertised(recent, d) {
        assert older[i] == d;
        return false, supplied;
      }
      SupplyOneMore(recent, older[..i], d);
      if d.name.Some? && d.name.value in supplied {
        PrefixAcceptable(recent, older, i + 1);
        return false, supplied;
      }
      if d.name.Some? {
        supplied := supplied + {d.name.value};
      }
    }
    assert older[..|older|] == older;
  }

  lemma {:induction false} NoNames()
    ensures Names([]) == {}
  {
  }

  lemma {:induction false} NamesGrow(recent: Document, older: seq<Document>, d: Document)
    ensures Names(older + [d]) == Names(older) + (if d.name.Some? then {d.name.value} else {})
    ensures IsAdvertised(recent, d) ==> d.name.Some?
  {
    var all := older + [d];
    forall n | n in Names(older)
      ensures n in Names(all)
    {
      var i :| 0 <= i < |older| && older[i].name == Some(n);
      assert all[i].name == Some(n);
    }
    assert d.name.Some? ==> all[|older|].name == d.name;
  }

  lemma {:induction false} SupplyOneMore(recent: Document, older: seq<Document>, d: Document)
    requires Acceptable(recent, older) && IsAdvertised(recent, d)
    ensures Acceptable(recent, older + [d]) <==> d.name.value !in Names(older)
  {
    hide Advertised;
    var all := older + [d];
    if d.name.value in Names(older) {
      var i :| 0 <= i < |older| && older[i].name.Some? && older[i].name.value == d.name.value;
      assert all[i].name == all[|older|].name;
    } else {
      forall i | 0 <= i < |older|
        ensures all[i].name != d.name
      {
        assert IsAdvertised(recent, older[i]);
      }
    }
  }

  lemma {:induction false} PrefixAcceptable(recent: Document, older: seq<Document>, n: nat)
    requires n <= |older|
    ensures Acceptable(recent, older) ==> Acceptable(recent, older[..n])
  {
    hide IsAdvertised;
  }

  /** The identities dictionary: every accession with the row texts seen for it. */
  method FindConflict(rows: seq<Row>) returns (conflict: bool)
    ensures conflict <==> Conflicting(rows)
  {
    hide Conflicting, Seen;
    var identities: map<string, set<string>> := map[];
    conflict := false;
    NoConflict();
    for n := 0 to |rows|
      invariant conflict <==> Conflicting(rows[..n])
      invariant forall a, t :: a in identities && t in identities[a] ==> Seen(rows[..n], a, t)
      invariant forall i :: 0 <= i < n ==> rows[i].filing.metadata.accession in identities && rows[i].raw in identities[rows[i].filing.metadata.accession]
    {
      var a, t := rows[n].filing.metadata.accession, rows[n].raw;
      var known := if a in identities then identities[a] else {};
      assert rows[..n + 1] == rows[..n] + [rows[n]];
      ConflictGrows(rows[..n], rows[n], known);
      conflict := conflict || exists u :: u in known && u != t;
      SeenGrows(rows[..n], rows[n]);
      identities := identities[a := known + {t}];
    }
    assert rows[..|rows|] == rows;
  }

  ghost predicate Seen(rows: seq<Row>, accession: string, raw: string) {
    exists i :: 0 <= i < |rows| && rows[i].filing.metadata.accession == accession && rows[i].raw == raw
  }

  lemma {:induction false} SeenGrows(rows: seq<Row>, row: Row)
    ensures Seen(rows + [row], row.filing.metadata.accession, row.raw)
    ensures forall a, t :: Seen(rows, a, t) ==> Seen(rows + [row], a, t)
  {
    var all := rows + [row];
    assert all[|rows|] == row;
    forall a, t | Seen(rows, a, t)
      ensures Seen(all, a, t)
    {
      var i :| 0 <= i < |rows| && rows[i].filing.metadata.accession == a && rows[i].raw == t;
      assert all[i] == rows[i];
    }
  }

  lemma {:induction false} NoConflict()
    ensures !Conflicting([])
  {
  }

  lemma {:induction false} ConflictGrows(rows: seq<Row>, row: Row, known: set<string>)
    requires forall t :: t in known ==> Seen(rows, row.filing.metadata.accession, t)
    requires forall i :: 0 <= i < |rows| && rows[i].filing.metadata.accession == row.filing.metadata.accession ==> rows[i].raw in known
    ensures Conflicting(rows + [row]) <==> Conflicting(rows) || exists t :: t in known && t != row.raw
  {
    var all := rows + [row];
    if Conflicting(rows) {
      var i, j :| 0 <= i < |rows| && 0 <= j < |rows| && Disagree(rows[i], rows[j]);
      assert Disagree(all[i], all[j]);
    }
    if t :| t in known && t != row.raw {
      assert Seen(rows, row.filing.metadata.accession, t);
      var i :| 0 <= i < |rows| && rows[i].filing.metadata.accession == row.filing.metadata.accession && rows[i].raw == t;
      assert Disagree(all[i], all[|rows|]);
    }
    if Conflicting(all) {
      var i, j :| 0 <= i < |all| && 0 <= j < |all| && Disagree(all[i], all[j]);
      if i < |rows| && j < |rows| {
        assert Disagree(rows[i], rows[j]);
      } else {
        var k := if i < |rows| then i else j;
        assert rows[k].raw in known;
      }
    }
  }

  method SortRows(rows: seq<Row>) returns (sorted: seq<Row>)
    ensures multiset(sorted) == multiset(rows) && ByDate(sorted)
  {
    hide ByDate;
    sorted := [];
    NothingByDate();
    for i := 0 to |rows|
      invariant multiset(sorted) == multiset(rows[..i]) && ByDate(sorted)
    {
      assert rows[..i + 1] == rows[..i] + [rows[i]];
      InsertByDate(sorted, rows[i]);
      sorted := Insert(sorted, rows[i]);
    }
    assert rows[..|rows|] == rows;
  }

  lemma {:induction false} NothingByDate()
    ensures ByDate([])
  {
  }

  // ----- what a complete inventory is worth

  lemma {:induction false} InWindowMembers(rows: seq<Row>, start: int, end: int, row: Row)
    ensures row in InWindow(rows, start, end) <==> row in rows && Inside(row, start, end)
  {
    if rows != [] {
      InWindowMembers(rows[..|rows| - 1], start, end, row);
      assert rows == rows[..|rows| - 1] + [rows[|rows| - 1]];
    }
  }

  lemma {:induction false} JoinedMembers(older: seq<Document>, k: nat, row: Row)
    requires k < |older| && row in older[k].rows
    ensures row in Joined(older)
  {
    if k < |older| - 1 {
      JoinedMembers(older[..|older| - 1], k, row);
    }
  }

  lemma {:induction false} InventoryMembers(recent: Document, older: seq<Document>, start: int, end: int, a: Assembled, row: Row)
    requires Acceptable(recent, older) && IsInventory(recent, older, start, end, a)
    ensures row in a.rows <==> (row in recent.rows || row in Joined(older)) && Inside(row, start, end)
  {
    hide Acceptable, Conflicting, RepeatsAccession, Needed, Names, ByDate, Joined;
    InWindowMembers(recent.rows + Joined(older), start, end, row);
    assert row in a.rows <==> row in multiset(a.rows);
  }

  /** The issuer's filings as the root presents them: each is in the recent document or in the stated
      range of an advertised one, and an advertised document holds every filing of its range that the
      recent document does not. */
  ghost predicate Presents(recent: Document, older: seq<Document>, history: set<Row>)
    requires Acceptable(recent, older)
  {
    var advertised := Advertised(recent.references);
    && (forall row :: row in history && row !in recent.rows ==>
          exists n :: n in advertised && Inside(row, advertised[n].from, advertised[n].to))
    && (forall i, row :: 0 <= i < |older| && row in history && row !in recent.rows && InRangeOf(recent, older[i], row) ==> row in older[i].rows)
  }

  predicate InRangeOf(recent: Document, d: Document, row: Row) {
    var advertised := Advertised(recent.references);
    d.name.Some? && d.name.value in advertised && Inside(row, advertised[d.name.value].from, advertised[d.name.value].to)
  }

  lemma {:induction false} StillMissing(recent: Document, older: seq<Document>, start: int, end: int, a: Assembled, n: string)
    requires Acceptable(recent, older) && IsInventory(recent, older, start, end, a)
    requires n in Needed(recent, start, end) && n !in Names(older)
    ensures MissingHistory in a.flags
  {
    hide Conflicting, RepeatsAccession, ByDate, Advertised, InWindow, Joined, Mismatched, Needed, Names, Acceptable;
    assert n in a.missing;
  }

  /** A complete inventory holds every filing of the issuer's history that falls in its window. */
  lemma {:induction false} CompleteMissesNothing(recent: Document, older: seq<Document>, start: int, end: int, a: Assembled, history: set<Row>, row: Row)
    requires Acceptable(recent, older) && IsInventory(recent, older, start, end, a) && a.complete
    requires Presents(recent, older, history) && row in history && Inside(row, start, end)
    ensures row in a.rows
  {
    hide Conflicting, RepeatsAccession, ByDate, Advertised, InWindow, Joined, Mismatched;
    InventoryMembers(recent, older, start, end, a, row);
    if row !in recent.rows {
      var advertised := Advertised(recent.references);
      var n :| n in advertised && Inside(row, advertised[n].from, advertised[n].to);
      assert n in Needed(recent, start, end);
      assert MissingHistory !in a.flags;
      if n !in Names(older) {
        StillMissing(recent, older, start, end, a, n);
        assert false;
      }
      var i :| 0 <= i < |older| && older[i].name.Some? && older[i].name.value == n;
      JoinedMembers(older, i, row);
    }
  }

  /** In a complete inventory an accession has one source text, wherever it was listed. */
  lemma {:induction false} OneTextPerAccession(recent: Document, older: seq<Document>, start: int, end: int, a: Assembled, i: nat, j: nat)
    requires Acceptable(recent, older) && IsInventory(recent, older, start, end, a) && a.complete && i < |a.rows| && j < |a.rows|
    requires a.rows[i].filing.metadata.accession == a.rows[j].filing.metadata.accession
    ensures a.rows[i].raw == a.rows[j].raw
  {
    hide Acceptable, RepeatsAccession, Needed, Names, ByDate, Joined, InWindow, Advertised;
    var selected := InWindow(recent.rows + Joined(older), start, end);
    assert a.rows[i] in multiset(a.rows) && a.rows[j] in multiset(a.rows);
    assert a.rows[i] in multiset(selected) && a.rows[j] in multiset(selected);
    var k :| 0 <= k < |selected| && selected[k] == a.rows[i];
    var l :| 0 <= l < |selected| && selected[l] == a.rows[j];
    assert ConflictingMetadata !in a.flags;
    assert !Disagree(selected[k], selected[l]);
  }

  // ----- the order of the older documents

  lemma {:induction false} JoinedConcat(a: seq<Document>, b: seq<Document>)
    ensures Joined(a + b) == Joined(a) + Joined(b)
  {
    if b == [] {
      assert a + b == a;
    } else {
      var m := |b| - 1;
      assert (a + b)[..|a| + m] == a + b[..m];
      JoinedConcat(a, b[..m]);
    }
  }

  lemma {:induction false} JoinedTakeOut(older: seq<Document>, k: nat)
    requires k < |older|
    ensures multiset(Joined(older)) == multiset(Joined(older[..k] + older[k + 1..])) + multiset(older[k].rows)
  {
    var front, back := older[..k], older[k + 1..];
    assert older == front + ([older[k]] + back);
    JoinedConcat(front, [older[k]] + back);
    JoinedConcat([older[k]], back);
    JoinedConcat(front, back);
    assert [older[k]][..0] == [];
    assert Joined([older[k]]) == older[k].rows;
  }

  lemma {:induction false} JoinedOfPermutation(a: seq<Document>, b: seq<Document>)
    requires multiset(a) == multiset(b)
    ensures multiset(Joined(a)) == multiset(Joined(b))
    decreases |a|
  {
    assert |a| == |multiset(a)| == |multiset(b)| == |b|;
    if a != [] {
      var n := |a| - 1;
      assert a == a[..n] + [a[n]];
      assert a[n] in multiset(b);
      var k :| 0 <= k < |b| && b[k] == a[n];
      assert b == b[..k] + [b[k]] + b[k + 1..];
      var rest := b[..k] + b[k + 1..];
      assert multiset(rest) == multiset(b) - multiset{b[k]};
      JoinedOfPermutation(a[..n], rest);
      JoinedTakeOut(b, k);
    }
  }

  lemma {:induction false} InWindowCount(rows: seq<Row>, start: int, end: int, row: Row)
    ensures multiset(InWindow(rows, start, end))[row] == if Inside(row, start, end) then multiset(rows)[row] else 0
  {
    if rows != [] {
      InWindowCount(rows[..|rows| - 1], start, end, row);
      assert rows == rows[..|rows| - 1] + [rows[|rows| - 1]];
    }
  }

  /** Older documents may be supplied in any order: the same filings, gaps and verdict come out. */
  lemma {:induction false} SupplyOrderIrrelevant(recent: Document, older: seq<Document>, shuffled: seq<Document>, start: int, end: int, a: Assembled, b: Assembled)
    requires Acceptable(recent, older) && Acceptable(recent, shuffled) && multiset(older) == multiset(shuffled)
    requires IsInventory(recent, older, start, end, a) && IsInventory(recent, shuffled, start, end, b)
    ensures multiset(a.rows) == multiset(b.rows) && a.missing == b.missing && a.flags == b.flags && a.complete == b.complete
  {
    hide Acceptable, RepeatsAccession, Mismatched, Conflicting, ByDate, Advertised, InWindow, Joined, Needed, Names;
    SameRows(recent, older, shuffled, start, end);
    SameDocuments(recent, older, shuffled);
    var x, y := InWindow(recent.rows + Joined(older), start, end), InWindow(recent.rows + Joined(shuffled), start, end);
    ConflictOfSet(x, y);
    ConflictOfSet(y, x);
    forall f: Flag
      ensures f in a.flags <==> f in b.flags
    {
      match f {
        case MissingHistory =>
        case DuplicateAccessions =>
        case MetadataMismatch =>
        case ConflictingMetadata =>
      }
    }
  }

  lemma {:induction false} SameRows(recent: Document, older: seq<Document>, shuffled: seq<Document>, start: int, end: int)
    requires multiset(older) == multiset(shuffled)
    ensures multiset(InWindow(recent.rows + Joined(older), start, end)) == multiset(InWindow(recent.rows + Joined(shuffled), start, end))
  {
    hide InWindow, Joined;
    JoinedOfPermutation(older, shuffled);
    var x, y := recent.rows + Joined(older), recent.rows + Joined(shuffled);
    assert multiset(x) == multiset(y);
    forall row: Row
      ensures multiset(InWindow(x, start, end))[row] == multiset(InWindow(y, start, end))[row]
    {
      InWindowCount(x, start, end, row);
      InWindowCount(y, start, end, row);
    }
  }

  lemma {:induction false} SameDocuments(recent: Document, older: seq<Document>, shuffled: seq<Document>)
    requires Acceptable(recent, older) && Acceptable(recent, shuffled) && multiset(older) == multiset(shuffled)
    ensures Names(older) == Names(shuffled)
    ensures (exists i :: 0 <= i < |older| && RepeatsAccession(older[i].rows)) <==> (exists i :: 0 <= i < |shuffled| && RepeatsAccession(shuffled[i].rows))
    ensures (exists i :: 0 <= i < |older| && Mismatched(recent, older[i])) <==> (exists i :: 0 <= i < |shuffled| && Mismatched(recent, shuffled[i]))
  {
    DocumentsAmong(recent, older, shuffled);
    DocumentsAmong(recent, shuffled, older);
  }

  lemma {:induction false} DocumentsAmong(recent: Document, a: seq<Document>, b: seq<Document>)
    requires Acceptable(recent, a) && Acceptable(recent, b) && multiset(a) == multiset(b)
    ensures Names(a) <= Names(b)
    ensures (exists i :: 0 <= i < |a| && RepeatsAccession(a[i].rows)) ==> exists i :: 0 <= i < |b| && RepeatsAccession(b[i].rows)
    ensures (exists i :: 0 <= i < |a| && Mismatched(recent, a[i])) ==> exists i :: 0 <= i < |b| && Mismatched(recent, b[i])
  {
    hide RepeatsAccession, Mismatched, Advertised;
    forall i | 0 <= i < |a|
      ensures exists j :: 0 <= j < |b| && b[j] == a[i]
    {
      assert a[i] in multiset(a);
      assert a[i] in multiset(b);
    }
  }

  lemma {:induction false} ConflictOfSet(a: seq<Row>, b: seq<Row>)
    requires multiset(a) == multiset(b)
    ensures Conflicting(a) ==> Conflicting(b)
  {
    if Conflicting(a) {
      var i, j :| 0 <= i < |a| && 0 <= j < |a| && Disagree(a[i], a[j]);
      assert a[i] in multiset(a) && a[j] in multiset(a);
      assert a[i] in multiset(b) && a[j] in multiset(b);
      var k :| 0 <= k < |b| && b[k] == a[i];
      var l :| 0 <= l < |b| && b[l] == a[j];
      assert Disagree(b[k], b[l]);
    }
  }

  // ----- what the monitor then sees

  function Filings(rows: seq<Row>): (f: seq<M.Filing>)
    ensures |f| == |rows| && forall i :: 0 <= i < |f| ==> f[i] == rows[i].filing
  {
    if rows == [] then [] else Filings(rows[..|rows| - 1]) + [rows[|rows| - 1].filing]
  }

  function FlagNames(flags: set<Flag>): set<string> {
    set f | f in flags :: match f
      case MissingHistory => "missing_advertised_history"
      case DuplicateAccessions => "duplicate_accessions_in_document"
      case MetadataMismatch => "older_inventory_metadata_mismatch"
      case ConflictingMetadata => "conflicting_filing_metadata"
  }

  function ForMonitor(a: Assembled): M.Inventory {
    M.Inventory(a.cik, a.start, a.end, Filings(a.rows), a.complete, FlagNames(a.flags))
  }

  /** From the documents to the poll: a clean poll selects every admitted filing of the issuer's history
      in its window, and selects nothing that no document lists. */
  lemma {:induction false} CleanPollSelectsHistory(recent: Document, older: seq<Document>, start: int, end: int, a: Assembled,
                                                   history: set<Row>, row: Row, forms: set<string>, cutoff: int)
    requires Acceptable(recent, older) && IsInventory(recent, older, start, end, a)
    requires M.Clean(ForMonitor(a), forms, cutoff)
    requires Presents(recent, older, history) && row in history && Inside(row, start, end)
    ensures M.Admitted(row.filing, forms, cutoff) <==> row.filing.metadata.accession in M.Selected(Filings(a.rows), forms, cutoff)
    ensures M.Admitted(row.filing, forms, cutoff) ==> M.Selected(Filings(a.rows), forms, cutoff)[row.filing.metadata.accession] == row.filing
  {
    hide Acceptable, IsInventory, Presents, M.Selected, M.Admitted, M.Suspect;
    CompleteMissesNothing(recent, older, start, end, a, history, row);
    var i :| 0 <= i < |a.rows| && a.rows[i] == row;
    M.SelectedExactly(Filings(a.rows), forms, cutoff, i);
  }

  // ----- exactly when an inventory is complete

  /** Reference k is the last of its name, which is the one that counts. */
  ghost predicate LastOfName(references: seq<Reference>, k: int) {
    0 <= k < |references| && forall l :: k < l < |references| ==> references[l].name != references[k].name
  }

  lemma {:induction false} AdvertisedExactly(references: seq<Reference>, n: string)
    ensures n in Advertised(references) <==> exists k :: LastOfName(references, k) && references[k].name == n
    ensures forall k :: LastOfName(references, k) && references[k].name == n ==> n in Advertised(references) && Advertised(references)[n] == references[k]
  {
    if references != [] {
      var front, last := references[..|references| - 1], references[|references| - 1];
      AdvertisedExactly(front, n);
      if last.name == n {
        assert LastOfName(references, |references| - 1);
      } else {
        forall k: int
          ensures LastOfName(references, k) && references[k].name == n <==> LastOfName(front, k) && front[k].name == n
        {
          if LastOfName(front, k) && front[k].name == n {
            assert LastOfName(references, k);
          }
          if LastOfName(references, k) && references[k].name == n {
            assert LastOfName(front, k);
          }
        }
        if n in Advertised(references) {
          var k :| LastOfName(front, k) && front[k].name == n;
          assert LastOfName(references, k) && references[k].name == n;
        }
      }
    }
  }

  /** The document holds as many rows as its reference says, all of them filed within its range. */
  ghost predicate AsAdvertised(recent: Document, d: Document) {
    forall k :: LastOfName(recent.references, k) && d.name == Some(recent.references[k].name) ==>
      && |d.rows| == recent.references[k].count
      && forall row :: row in d.rows ==> recent.references[k].from <= row.filing.metadata.filed <= recent.references[k].to
  }

  ghost predicate EachAccessionOnce(rows: seq<Row>) {
    forall i, j :: 0 <= i < |rows| && 0 <= j < |rows| && rows[i].filing.metadata.accession == rows[j].filing.metadata.accession ==> i == j
  }

  /** Every advertised document whose range meets the window is supplied. */
  ghost predicate NothingMissing(recent: Document, older: seq<Document>, start: int, end: int) {
    forall k :: LastOfName(recent.references, k) && recent.references[k].from <= end && start <= recent.references[k].to ==>
      exists d :: d in older && d.name == Some(recent.references[k].name)
  }

  ghost predicate OneText(rows: seq<Row>) {
    forall x, y :: x in rows && y in rows && x.filing.metadata.accession == y.filing.metadata.accession ==> x.raw == y.raw
  }

  /** An inventory is complete exactly if no document of its window is missing, every document has the advertised
      count and range and no accession twice, and equal accessions come with equal text. */
  lemma {:induction false} CompleteExactly(recent: Document, older: seq<Document>, start: int, end: int, a: Assembled)
    requires Acceptable(recent, older) && IsInventory(recent, older, start, end, a)
    ensures a.complete <==>
            && NothingMissing(recent, older, start, end)
            && (forall d :: d in older ==> AsAdvertised(recent, d) && EachAccessionOnce(d.rows))
            && EachAccessionOnce(recent.rows) && OneText(a.rows)
  {
    hide Conflicting, RepeatsAccession, Mismatched, Needed, Names, ByDate, Joined, InWindow, Advertised, NothingMissing, AsAdvertised,
      EachAccessionOnce, OneText, IsAdvertised;
    MissingExactly(recent, older, start, end);
    RepeatsExactly(recent.rows);
    forall i | 0 <= i < |older|
      ensures Mismatched(recent, older[i]) <==> !AsAdvertised(recent, older[i])
      ensures RepeatsAccession(older[i].rows) <==> !EachAccessionOnce(older[i].rows)
    {
      RepeatsExactly(older[i].rows);
      MismatchedExactly(recent, older[i]);
    }
    var selected := InWindow(recent.rows + Joined(older), start, end);
    ConflictExactly(selected, a.rows);
    FourFlags(a.flags);
    assert forall i :: 0 <= i < |older| ==> older[i] in older;
  }

  lemma {:induction false} FourFlags(flags: set<Flag>)
    ensures flags == {} <==> MissingHistory !in flags && DuplicateAccessions !in flags && MetadataMismatch !in flags && ConflictingMetadata !in flags
  {
    if flags != {} {
      var f :| f in flags;
      match f {
        case MissingHistory =>
        case DuplicateAccessions =>
        case MetadataMismatch =>
        case ConflictingMetadata =>
      }
    }
  }

  lemma {:induction false} RepeatsExactly(rows: seq<Row>)
    ensures RepeatsAccession(rows) <==> !EachAccessionOnce(rows)
  {
    if !EachAccessionOnce(rows) {
      var i, j :| 0 <= i < |rows| && 0 <= j < |rows| && rows[i].filing.metadata.accession == rows[j].filing.metadata.accession && i != j;
      if i < j {
        assert rows[i].filing.metadata.accession == rows[j].filing.metadata.accession;
      } else {
        assert rows[j].filing.metadata.accession == rows[i].filing.metadata.accession;
      }
    }
  }

  lemma {:induction false} MismatchedExactly(recent: Document, d: Document)
    requires IsAdvertised(recent, d)
    ensures Mismatched(recent, d) <==> !AsAdvertised(recent, d)
  {
    hide Advertised;
    AdvertisedExactly(recent.references, d.name.value);
    var k :| LastOfName(recent.references, k) && recent.references[k].name == d.name.value;
    var reference := Advertised(recent.references)[d.name.value];
    assert reference == recent.references[k];
    if !Mismatched(recent, d) {
      forall row | row in d.rows
        ensures Inside(row, reference.from, reference.to)
      {
      }
    } else if |d.rows| == reference.count {
      var i :| 0 <= i < |d.rows| && !Inside(d.rows[i], reference.from, reference.to);
      assert d.rows[i] in d.rows;
    }
  }

  lemma {:induction false} MissingExactly(recent: Document, older: seq<Document>, start: int, end: int)
    ensures Needed(recent, start, end) - Names(older) == {} <==> NothingMissing(recent, older, start, end)
  {
    hide Advertised;
    if NothingMissing(recent, older, start, end) {
      forall n | n in Needed(recent, start, end)
        ensures n in Names(older)
      {
        AdvertisedExactly(recent.references, n);
        var k :| LastOfName(recent.references, k) && recent.references[k].name == n;
        var d :| d in older && d.name == Some(n);
      }
    }
    if Needed(recent, start, end) - Names(older) == {} {
      forall k | LastOfName(recent.references, k) && recent.references[k].from <= end && start <= recent.references[k].to
        ensures exists d :: d in older && d.name == Some(recent.references[k].name)
      {
        var n := recent.references[k].name;
        AdvertisedExactly(recent.references, n);
        assert n in Needed(recent, start, end);
        M.NothingLeft(Needed(recent, start, end), Names(older));
        assert n in Names(older);
        var i :| 0 <= i < |older| && older[i].name.Some? && older[i].name.value == n;
        assert older[i] in older;
      }
    }
  }

  lemma {:induction false} ConflictExactly(selected: seq<Row>, rows: seq<Row>)
    requires multiset(rows) == multiset(selected)
    ensures Conflicting(selected) <==> !OneText(rows)
  {
    forall x
      ensures x in rows <==> x in selected
    {
      assert x in rows <==> x in multiset(rows);
      assert x in selected <==> x in multiset(selected);
    }
    if Conflicting(selected) {
      var i, j :| 0 <= i < |selected| && 0 <= j < |selected| && Disagree(selected[i], selected[j]);
      assert selected[i] in rows && selected[j] in rows;
    }
    if !OneText(rows) {
      var x, y :| x in rows && y in rows && x.filing.metadata.accession == y.filing.metadata.accession && x.raw != y.raw;
      var i :| 0 <= i < |selected| && selected[i] == x;
      var j :| 0 <= j < |selected| && selected[j] == y;
      assert Disagree(selected[i], selected[j]);
    }
  }
}
