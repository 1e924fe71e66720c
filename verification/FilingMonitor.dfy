/**
 Comparison of pinned filing inventories (packages/ingest/filing_monitor.py compare_inventories)
 and what a chain of polls reports, when each poll starts from the previous one.
 */
module FilingMonitor {
  import opened Common

  type Accession = string

  /** One inventory row: what identifies the filing, and where it was seen. */
  datatype Filing = Filing(metadata: Metadata, capture: nat, locator: string)

  datatype Metadata = Metadata(
    accession: Accession,
    form: string,
    filed: int,
    reportEnd: Option<int>,
    primary: Option<string>,
    acceptanceRaw: Option<string>,
    acceptance: Option<int>,
    verified: bool)

  datatype Inventory = Inventory(cik: string, start: int, end: int, filings: seq<Filing>, complete: bool, flags: set<string>)

  datatype Plan = Plan(cik: string, start: int, end: int, forms: set<string>, baselineCutoff: int, cutoff: int)

  datatype Outcome = Incomplete | MixedChanges | NewFiling | Amendment | NoChange

  datatype Comparison = Comparison(
    outcome: Outcome,
    eligible: bool,
    newFilings: map<Accession, Filing>,
    amendments: map<Accession, Filing>,
    changed: set<Accession>,
    missing: set<Accession>)

  predicate EndsWithA(form: string) {
    |form| >= 2 && form[|form| - 2..] == "/A"
  }

  // ----- selection

  /** A row that the cutoff lets through: reviewed form, verified acceptance, accepted in time. */
  predicate Admitted(f: Filing, forms: set<string>, cutoff: int) {
    f.metadata.form in forms && f.metadata.acceptance.Some? && f.metadata.verified && f.metadata.acceptance.value <= cutoff
  }

  /** The selected dictionary; a later row with the same accession replaces the earlier one. */
  function Selected(filings: seq<Filing>, forms: set<string>, cutoff: int): map<Accession, Filing> {
    if filings == [] then map[] else
      var front, last := Selected(filings[..|filings| - 1], forms, cutoff), filings[|filings| - 1];
      if Admitted(last, forms, cutoff) then front[last.metadata.accession := last] else front
  }

  /** A row that raises a flag by itself. */
  predicate Suspect(f: Filing, forms: set<string>, cutoff: int) {
    f.metadata.form in forms &&
      (f.metadata.acceptance.None? || !f.metadata.verified
       || (f.metadata.acceptance.value <= cutoff && (f.metadata.reportEnd.None? || f.metadata.primary.None?)))
  }

  predicate Duplicated(filings: seq<Filing>) {
    exists i, j :: 0 <= i < j < |filings| && filings[i].metadata.accession == filings[j].metadata.accession
  }

  /** The inventory raises none of its label's flags. */
  predicate Clean(inventory: Inventory, forms: set<string>, cutoff: int) {
    && inventory.complete && inventory.flags == {} && !Duplicated(inventory.filings)
    && forall i :: 0 <= i < |inventory.filings| ==> !Suspect(inventory.filings[i], forms, cutoff)
  }

  predicate Pinned(inventory: Inventory, plan: Plan) {
    inventory.cik == plan.cik && inventory.start == plan.start && inventory.end == plan.end
  }

  /** The nested `selected`: one pass that fills the dictionary and notes whether a flag was raised. */
  method Select(inventory: Inventory, forms: set<string>, cutoff: int) returns (result: map<Accession, Filing>, clean: bool)
    ensures result == Selected(inventory.filings, forms, cutoff)
    ensures clean <==> Clean(inventory, forms, cutoff)
  {
    result := map[];
    clean := inventory.complete && inventory.flags == {} && !Duplicated(inventory.filings);
    for i := 0 to |inventory.filings|
      invariant result == Selected(inventory.filings[..i], forms, cutoff)
      invariant clean <==> inventory.complete && inventory.flags == {} && !Duplicated(inventory.filings)
                           && forall j :: 0 <= j < i ==> !Suspect(inventory.filings[j], forms, cutoff)
    {
      var f := inventory.filings[i];
      assert inventory.filings[..i + 1][..i] == inventory.filings[..i];
      if f.metadata.form !in forms {
        continue;
      }
      if f.metadata.acceptance.None? || !f.metadata.verified {
        clean := false;
        continue;
      }
      if f.metadata.acceptance.value > cutoff {
        continue;
      }
      if f.metadata.reportEnd.None? || f.metadata.primary.None? {
        clean := false;
      }
      result := result[f.metadata.accession := f];
    }
    assert inventory.filings[..|inventory.filings|] == inventory.filings;
  }

  // ----- comparison

  function Additions(before: map<Accession, Filing>, after: map<Accession, Filing>, amended: bool): map<Accession, Filing> {
    map k | k in after && k !in before && EndsWithA(after[k].metadata.form) == amended :: after[k]
  }

  function Changed(before: map<Accession, Filing>, after: map<Accession, Filing>): set<Accession> {
    set k | k in before && k in after && before[k].metadata != after[k].metadata
  }

  lemma {:induction false} NothingLeft(a: set<Accession>, b: set<Accession>)
    ensures a - b == {} <==> a <= b
  {
    if a - b == {} {
      forall k | k in a
        ensures k in b
      {
        assert k !in a - b;
      }
    }
  }

  /** None is the ValueError for an inventory that differs from the pinned issuer or window. */
  method Compare(baseline: Inventory, current: Inventory, plan: Plan) returns (c: Option<Comparison>)
    ensures c.Some? <==> Pinned(baseline, plan) && Pinned(current, plan)
    ensures c.Some? ==> c.value == Compared(baseline, current, plan)
  {
    if !Pinned(baseline, plan) || !Pinned(current, plan) {
      return None;
    }
    var before, cleanOld := Select(baseline, plan.forms, plan.baselineCutoff);
    var after, cleanNew := Select(current, plan.forms, plan.cutoff);
    var missing := before.Keys - after.Keys;
    NothingLeft(before.Keys, after.Keys);
    var changed := Changed(before, after);
    var flagged := !cleanOld || !cleanNew || missing != {} || changed != {};
    var originals, amendments := Additions(before, after, false), Additions(before, after, true);
    var outcome :=
      if flagged then Incomplete
      else if originals != map[] && amendments != map[] then MixedChanges
      else if originals != map[] then NewFiling
      else if amendments != map[] then Amendment
      else NoChange;
    c := Some(Comparison(outcome, !flagged, originals, amendments, changed, missing));
  }

  function Compared(baseline: Inventory, current: Inventory, plan: Plan): Comparison {
    var before, after := Selected(baseline.filings, plan.forms, plan.baselineCutoff), Selected(current.filings, plan.forms, plan.cutoff);
    var originals, amendments := Additions(before, after, false), Additions(before, after, true);
    var eligible := Clean(baseline, plan.forms, plan.baselineCutoff) && Clean(current, plan.forms, plan.cutoff)
      && before.Keys <= after.Keys && Changed(before, after) == {};
    Comparison(
      if !eligible then Incomplete
      else if originals != map[] && amendments != map[] then MixedChanges
      else if originals != map[] then NewFiling
      else if amendments != map[] then Amendment
      else NoChange,
      eligible, originals, amendments, Changed(before, after), before.Keys - after.Keys)
  }

  /** What one eligible poll says: everything it had is still there unchanged, and everything else it
      now has was reported exactly once, as a new filing or as an amendment. */
  lemma {:induction false} EligiblePoll(baseline: Inventory, current: Inventory, plan: Plan)
    requires Compared(baseline, current, plan).eligible
    ensures var before, after, c := Selected(baseline.filings, plan.forms, plan.baselineCutoff),
                               Selected(current.filings, plan.forms, plan.cutoff), Compared(baseline, current, plan);
            && (forall k :: k in before ==> k in after && after[k].metadata == before[k].metadata)
            && c.newFilings.Keys + c.amendments.Keys == after.Keys - before.Keys
            && c.newFilings.Keys !! c.amendments.Keys
            && (c.outcome.NoChange? <==> after.Keys == before.Keys)
  {
    hide Selected, Clean;
    var before, after := Selected(baseline.filings, plan.forms, plan.baselineCutoff), Selected(current.filings, plan.forms, plan.cutoff);
    var c := Compared(baseline, current, plan);
    forall k | k in before
      ensures k in after && after[k].metadata == before[k].metadata
    {
      assert k in after;
      assert k !in Changed(before, after);
    }
    assert c.newFilings.Keys + c.amendments.Keys == after.Keys - before.Keys;
    if after.Keys == before.Keys {
      assert c.newFilings == map[] && c.amendments == map[];
    } else if c.newFilings == map[] && c.amendments == map[] {
      NothingLeft(after.Keys, before.Keys);
      assert false;
    }
  }

  // ----- chains of polls

  /** One retained poll: an inventory, and the cutoff it was read at. */
  datatype Poll = Poll(inventory: Inventory, cutoff: int)

  function View(p: Poll, forms: set<string>): map<Accession, Filing> {
    Selected(p.inventory.filings, forms, p.cutoff)
  }

  /** Poll i compared with the retained poll before it. */
  function Report(polls: seq<Poll>, template: Plan, i: nat): Comparison
    requires 0 < i < |polls|
  {
    Compared(polls[i - 1].inventory, polls[i].inventory, template.(baselineCutoff := polls[i - 1].cutoff, cutoff := polls[i].cutoff))
  }

  function Reported(polls: seq<Poll>, template: Plan, i: nat): set<Accession>
    requires 0 < i < |polls|
  {
    Report(polls, template, i).newFilings.Keys + Report(polls, template, i).amendments.Keys
  }

  ghost predicate EligibleChain(polls: seq<Poll>, template: Plan) {
    |polls| > 0 && forall i :: 0 < i < |polls| ==> Report(polls, template, i).eligible
  }

  lemma {:induction false} EligibleStep(polls: seq<Poll>, template: Plan, i: nat)
    requires EligibleChain(polls, template) && 0 < i < |polls|
    ensures var before, after := View(polls[i - 1], template.forms), View(polls[i], template.forms);
            && (forall k :: k in before ==> k in after && after[k].metadata == before[k].metadata)
            && Reported(polls, template, i) == after.Keys - before.Keys
  {
    hide Selected, Compared;
    assert Report(polls, template, i).eligible;
    EligiblePoll(polls[i - 1].inventory, polls[i].inventory,
                 template.(baselineCutoff := polls[i - 1].cutoff, cutoff := polls[i].cutoff));
  }

  /** Once selected, a filing stays selected with unchanged metadata for the rest of the chain. */
  lemma {:induction false} NothingForgotten(polls: seq<Poll>, template: Plan, i: nat, j: nat, k: Accession)
    requires EligibleChain(polls, template) && i <= j < |polls| && k in View(polls[i], template.forms)
    ensures k in View(polls[j], template.forms)
    ensures View(polls[j], template.forms)[k].metadata == View(polls[i], template.forms)[k].metadata
    decreases j
  {
    hide View, Reported;
    if i < j {
      NothingForgotten(polls, template, i, j - 1, k);
      EligibleStep(polls, template, j);
    }
  }

  /** No filing is reported twice along a chain. */
  lemma {:induction false} ReportedOnce(polls: seq<Poll>, template: Plan, i: nat, j: nat)
    requires EligibleChain(polls, template) && 0 < i < j < |polls|
    ensures Reported(polls, template, i) !! Reported(polls, template, j)
  {
    hide View, Reported;
    EligibleStep(polls, template, i);
    EligibleStep(polls, template, j);
    forall k | k in Reported(polls, template, i)
      ensures k !in Reported(polls, template, j)
    {
      NothingForgotten(polls, template, i, j - 1, k);
    }
  }

  ghost function AllReported(polls: seq<Poll>, template: Plan, n: nat): set<Accession>
    requires n < |polls|
  {
    if n == 0 then {} else AllReported(polls, template, n - 1) + Reported(polls, template, n)
  }

  /** The seed together with all reports makes up exactly the last selected set. */
  lemma {:induction false} ReportsAreComplete(polls: seq<Poll>, template: Plan, n: nat)
    requires EligibleChain(polls, template) && n < |polls|
    ensures View(polls[0], template.forms).Keys + AllReported(polls, template, n) == View(polls[n], template.forms).Keys
    ensures View(polls[0], template.forms).Keys !! AllReported(polls, template, n)
  {
    hide View, Reported;
    if n > 0 {
      ReportsAreComplete(polls, template, n - 1);
      EligibleStep(polls, template, n);
      var before, after := View(polls[n - 1], template.forms).Keys, View(polls[n], template.forms).Keys;
      assert before <= after;
    }
  }

  /** In a clean inventory the selection is exactly the admitted rows. */
  lemma {:induction false} SelectedExactly(filings: seq<Filing>, forms: set<string>, cutoff: int, i: nat)
    requires !Duplicated(filings) && i < |filings|
    ensures Admitted(filings[i], forms, cutoff) <==>
            filings[i].metadata.accession in Selected(filings, forms, cutoff)
    ensures Admitted(filings[i], forms, cutoff) ==> Selected(filings, forms, cutoff)[filings[i].metadata.accession] == filings[i]
  {
    hide Admitted;
    var n := |filings| - 1;
    var front := filings[..n];
    assert forall j :: 0 <= j < n ==> front[j] == filings[j];
    if i < n {
      assert filings[i].metadata.accession != filings[n].metadata.accession;
      SelectedExactly(front, forms, cutoff, i);
    } else {
      NotYetSelected(front, forms, cutoff, filings[n].metadata.accession);
    }
  }

  lemma {:induction false} NotYetSelected(filings: seq<Filing>, forms: set<string>, cutoff: int, k: Accession)
    requires forall j :: 0 <= j < |filings| ==> filings[j].metadata.accession != k
    ensures k !in Selected(filings, forms, cutoff)
  {
    hide Admitted;
    if filings != [] {
      NotYetSelected(filings[..|filings| - 1], forms, cutoff, k);
    }
  }

  // ----- what a poll reports, row by row

  /** The row is of a reviewed form and was verifiably accepted by the cutoff. */
  ghost predicate AcceptedBy(f: Filing, forms: set<string>, cutoff: int) {
    f.metadata.form in forms && f.metadata.verified && exists t :: f.metadata.acceptance == Some(t) && t <= cutoff
  }

  ghost predicate EarlierRow(filings: seq<Filing>, k: Accession, forms: set<string>, cutoff: int) {
    exists j :: 0 <= j < |filings| && filings[j].metadata.accession == k && AcceptedBy(filings[j], forms, cutoff)
  }

  /** A row accepted by the cutoff that the baseline does not have is reported: as an amendment if its form ends
      with "/A", as a new filing otherwise; and no other row is reported. */
  lemma {:induction false} ReportedExactly(baseline: Inventory, current: Inventory, plan: Plan, i: nat)
    requires !Duplicated(baseline.filings) && !Duplicated(current.filings) && i < |current.filings|
    ensures var f, c := current.filings[i], Compared(baseline, current, plan);
            var k := f.metadata.accession;
            var unseen := AcceptedBy(f, plan.forms, plan.cutoff) && !EarlierRow(baseline.filings, k, plan.forms, plan.baselineCutoff);
            && (k in c.amendments <==> unseen && exists stem :: f.metadata.form == stem + "/A")
            && (k in c.newFilings <==> unseen && !exists stem :: f.metadata.form == stem + "/A")
            && (k in c.amendments ==> c.amendments[k] == f) && (k in c.newFilings ==> c.newFilings[k] == f)
  {
    hide Selected, Clean, Duplicated;
    var f := current.filings[i];
    var k := f.metadata.accession;
    SelectedExactly(current.filings, plan.forms, plan.cutoff, i);
    AmendedForm(f.metadata.form);
    if EarlierRow(baseline.filings, k, plan.forms, plan.baselineCutoff) {
      var j :| 0 <= j < |baseline.filings| && baseline.filings[j].metadata.accession == k
               && AcceptedBy(baseline.filings[j], plan.forms, plan.baselineCutoff);
      SelectedExactly(baseline.filings, plan.forms, plan.baselineCutoff, j);
    }
    if k in Selected(baseline.filings, plan.forms, plan.baselineCutoff) {
      SelectedIsEarlier(baseline.filings, plan.forms, plan.baselineCutoff, k);
    }
  }

  lemma {:induction false} AmendedForm(form: string)
    ensures EndsWithA(form) <==> exists stem :: form == stem + "/A"
  {
    if EndsWithA(form) {
      assert form == form[..|form| - 2] + "/A";
    }
  }

  lemma {:induction false} SelectedIsEarlier(filings: seq<Filing>, forms: set<string>, cutoff: int, k: Accession)
    requires k in Selected(filings, forms, cutoff)
    ensures EarlierRow(filings, k, forms, cutoff)
  {
    var j := SelectedFrom(filings, forms, cutoff, k);
    assert AcceptedBy(filings[j], forms, cutoff);
  }

  lemma {:induction false} SelectedFrom(filings: seq<Filing>, forms: set<string>, cutoff: int, k: Accession) returns (j: nat)
    requires k in Selected(filings, forms, cutoff)
    ensures j < |filings| && filings[j].metadata.accession == k && Admitted(filings[j], forms, cutoff)
  {
    hide Admitted;
    var n := |filings| - 1;
    if Admitted(filings[n], forms, cutoff) && filings[n].metadata.accession == k {
      j := n;
    } else {
      j := SelectedFrom(filings[..n], forms, cutoff, k);
    }
  }

  /** Every row of a reviewed form has a verified acceptance, and a report end and document once accepted. */
  ghost predicate RowsInOrder(inventory: Inventory, forms: set<string>, cutoff: int) {
    && (forall i, j :: 0 <= i < j < |inventory.filings| ==> inventory.filings[i].metadata.accession != inventory.filings[j].metadata.accession)
    && (forall f :: f in inventory.filings && f.metadata.form in forms ==>
          && f.metadata.verified && f.metadata.acceptance.Some?
          && (f.metadata.acceptance.value <= cutoff ==> f.metadata.reportEnd.Some? && f.metadata.primary.Some?))
  }

  /** A poll is eligible exactly if both inventories are complete, unflagged and in order, and every row the
      baseline had accepted is accepted in the current one with the same metadata. */
  lemma {:induction false} EligibleExactly(baseline: Inventory, current: Inventory, plan: Plan)
    ensures Compared(baseline, current, plan).eligible <==>
            && baseline.complete && baseline.flags == {} && RowsInOrder(baseline, plan.forms, plan.baselineCutoff)
            && current.complete && current.flags == {} && RowsInOrder(current, plan.forms, plan.cutoff)
            && (forall f :: f in baseline.filings && AcceptedBy(f, plan.forms, plan.baselineCutoff) ==>
                  exists g :: g in current.filings && AcceptedBy(g, plan.forms, plan.cutoff) && g.metadata == f.metadata)
  {
    hide Selected;
    CleanExactly(baseline, plan.forms, plan.baselineCutoff);
    CleanExactly(current, plan.forms, plan.cutoff);
    if Clean(baseline, plan.forms, plan.baselineCutoff) && Clean(current, plan.forms, plan.cutoff) {
      KeptExactly(baseline.filings, current.filings, plan);
    }
  }

  lemma {:induction false} CleanExactly(inventory: Inventory, forms: set<string>, cutoff: int)
    ensures Clean(inventory, forms, cutoff) <==> inventory.complete && inventory.flags == {} && RowsInOrder(inventory, forms, cutoff)
  {
    if Clean(inventory, forms, cutoff) {
      forall f | f in inventory.filings && f.metadata.form in forms
        ensures !Suspect(f, forms, cutoff)
      {
      }
    }
    if RowsInOrder(inventory, forms, cutoff) {
      forall i | 0 <= i < |inventory.filings|
        ensures !Suspect(inventory.filings[i], forms, cutoff)
      {
        assert inventory.filings[i] in inventory.filings;
      }
    }
  }

  lemma {:induction false} KeptExactly(earlier: seq<Filing>, now: seq<Filing>, plan: Plan)
    requires !Duplicated(earlier) && !Duplicated(now)
    ensures var before, after := Selected(earlier, plan.forms, plan.baselineCutoff), Selected(now, plan.forms, plan.cutoff);
            (before.Keys <= after.Keys && Changed(before, after) == {}) <==>
            (forall f :: f in earlier && AcceptedBy(f, plan.forms, plan.baselineCutoff) ==>
               exists g :: g in now && AcceptedBy(g, plan.forms, plan.cutoff) && g.metadata == f.metadata)
  {
    hide Selected, Duplicated;
    var before, after := Selected(earlier, plan.forms, plan.baselineCutoff), Selected(now, plan.forms, plan.cutoff);
    if before.Keys <= after.Keys && Changed(before, after) == {} {
      forall f | f in earlier && AcceptedBy(f, plan.forms, plan.baselineCutoff)
        ensures exists g :: g in now && AcceptedBy(g, plan.forms, plan.cutoff) && g.metadata == f.metadata
      {
        var i :| 0 <= i < |earlier| && earlier[i] == f;
        SelectedExactly(earlier, plan.forms, plan.baselineCutoff, i);
        var k := f.metadata.accession;
        assert k in before.Keys && k !in Changed(before, after);
        var j := SelectedFrom(now, plan.forms, plan.cutoff, k);
        SelectedExactly(now, plan.forms, plan.cutoff, j);
        assert now[j] in now && AcceptedBy(now[j], plan.forms, plan.cutoff);
      }
    }
    if forall f :: f in earlier && AcceptedBy(f, plan.forms, plan.baselineCutoff) ==>
         exists g :: g in now && AcceptedBy(g, plan.forms, plan.cutoff) && g.metadata == f.metadata {
      forall k | k in before
        ensures k in after && after[k].metadata == before[k].metadata
      {
        var i := SelectedFrom(earlier, plan.forms, plan.baselineCutoff, k);
        SelectedExactly(earlier, plan.forms, plan.baselineCutoff, i);
        assert earlier[i] in earlier && AcceptedBy(earlier[i], plan.forms, plan.baselineCutoff);
        var g :| g in now && AcceptedBy(g, plan.forms, plan.cutoff) && g.metadata == earlier[i].metadata;
        var j :| 0 <= j < |now| && now[j] == g;
        SelectedExactly(now, plan.forms, plan.cutoff, j);
      }
    }
  }
}
