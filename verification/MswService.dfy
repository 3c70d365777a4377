/**
 * The service object of the Maritime Single Window: its methods read and write the tables step by
 * step, and each is tied to the specification of the same call.
 */
module MswServices {
  import opened Wrappers
  import opened Sorting
  import opened MaritimeSingleWindow

  /** `order` lists, each once, the rows that satisfy `chosen`. */
  ghost predicate Lists<T>(order: seq<nat>, rows: seq<T>, chosen: T -> bool) {
    && NoRepeats(order)
    && (forall k :: 0 <= k < |order| ==> order[k] < |rows| && chosen(rows[order[k]]))
    && (forall i :: 0 <= i < |rows| && chosen(rows[i]) ==> i in order)
  }

  /** ORDER BY version DESC: rows of equal version may come in any order. */
  ghost predicate NewestFirst(order: seq<nat>, rows: seq<Declaration>)
    requires forall k :: 0 <= k < |order| ==> order[k] < |rows|
  {
    forall j, k :: 0 <= j < k < |order| ==> rows[order[j]].version >= rows[order[k]].version
  }

  ghost predicate IsLatestSummary(rows: seq<Declaration>, visit: nat, x: Accepted) {
    Latest(rows, visit, x.form).Some? && x == Summary(rows[Latest(rows, visit, x.form).value])
  }

  lemma {:induction false} LatestOfFormsElements(rows: seq<Declaration>, visit: nat, forms: seq<FormType>)
    requires NoRepeats(forms)
    ensures forall x :: x in LatestOfForms(rows, visit, forms) <==> x.form in forms && IsLatestSummary(rows, visit, x)
    ensures NoRepeats(LatestOfForms(rows, visit, forms))
  {
    if forms != [] {
      var n := |forms| - 1;
      LatestOfFormsElements(rows, visit, forms[..n]);
      assert forms == forms[..n] + [forms[n]];
      var head := LatestOfForms(rows, visit, forms[..n]);
      forall x | x in head ensures x.form != forms[n] {
        assert x.form in forms[..n];
      }
    }
  }

  lemma {:induction false} JointIdsHaveNoRepeats(rows: seq<Boarding>, visit: nat)
    ensures NoRepeats(JointIds(rows, visit))
  {
    if rows != [] {
      JointIdsHaveNoRepeats(rows[..|rows| - 1], visit);
      JointIdsAreJoint(rows[..|rows| - 1], visit);
      var head := JointIds(rows[..|rows| - 1], visit);
      assert forall k :: 0 <= k < |head| ==> head[k] in head;
    }
  }

  lemma FormOrderIsTotal()
    ensures TotalOrder(FormOrder) && TotalOrder(IdOrder)
  {
  }

  lemma EveryFormIsListed(form: FormType)
    ensures form in FORMS && NoRepeats(FORMS)
  {
    assert FORMS[0] == FAL1 && FORMS[1] == FAL2 && FORMS[2] == FAL3 && FORMS[3] == FAL4;
    assert FORMS[4] == FAL5 && FORMS[5] == FAL6 && FORMS[6] == FAL7 && FORMS[7] == MDOH;
  }

  lemma ListingsOfFormsSortAlike(rows: seq<Declaration>, visit: nat, forms: seq<FormType>, found: seq<Accepted>)
    requires NoRepeats(forms) && forall form :: form in forms
    requires NoRepeats(found) && forall x :: x in found <==> IsLatestSummary(rows, visit, x)
    ensures Sort(found, FormOrder) == Sort(LatestOfForms(rows, visit, forms), FormOrder)
  {
    LatestOfFormsElements(rows, visit, forms);
    FormOrderIsTotal();
    ListingsSortAlike(found, LatestOfForms(rows, visit, forms), FormOrder);
  }

  /** Any listing of the latest summaries sorts to the same list. */
  lemma SummariesSortAlike(rows: seq<Declaration>, visit: nat, found: seq<Accepted>)
    requires NoRepeats(found) && forall x :: x in found <==> IsLatestSummary(rows, visit, x)
    ensures Sort(found, FormOrder) == Sort(LatestOfForms(rows, visit, FORMS), FormOrder)
  {
    forall form ensures form in FORMS && NoRepeats(FORMS) {
      EveryFormIsListed(form);
    }
    EveryFormIsListed(MDOH);
    ListingsOfFormsSortAlike(rows, visit, FORMS, found);
  }

  function FilterJoint(order: seq<nat>, rows: seq<Boarding>, visit: nat): (r: seq<nat>)
    requires forall k :: 0 <= k < |order| ==> order[k] < |rows|
    ensures forall i :: i in r <==> i in order && IsJoint(rows[i], visit)
  {
    if order == [] then []
    else
      var n := |order| - 1;
      assert order == order[..n] + [order[n]];
      FilterJoint(order[..n], rows, visit) + (if IsJoint(rows[order[n]], visit) then [order[n]] else [])
  }

  lemma {:induction false} FilterJointHasNoRepeats(order: seq<nat>, rows: seq<Boarding>, visit: nat)
    requires NoRepeats(order) && forall k :: 0 <= k < |order| ==> order[k] < |rows|
    ensures NoRepeats(FilterJoint(order, rows, visit))
  {
    if order != [] {
      var n := |order| - 1;
      FilterJointHasNoRepeats(order[..n], rows, visit);
      var head := FilterJoint(order[..n], rows, visit);
      forall k | 0 <= k < |head| ensures head[k] != order[n] {
        assert head[k] in head && head[k] in order[..n];
      }
    }
  }

  lemma JointBoardingsSortAlike(rows: seq<Boarding>, visit: nat, order: seq<nat>)
    requires Lists(order, rows, (b: Boarding) => b.visit == visit && b.status == COMPLETED)
    ensures var joint := FilterJoint(order, rows, visit);
            && (joint == [] <==> JointIds(rows, visit) == [])
            && Sort(joint, IdOrder) == Sort(JointIds(rows, visit), IdOrder)
  {
    var joint := FilterJoint(order, rows, visit);
    JointIdsAreJoint(rows, visit);
    JointIdsHaveNoRepeats(rows, visit);
    FilterJointHasNoRepeats(order, rows, visit);
    forall i ensures i in joint <==> i in JointIds(rows, visit) {
    }
    FormOrderIsTotal();
    ListingsSortAlike(joint, JointIds(rows, visit), IdOrder);
    if joint != [] {
      assert joint[0] in JointIds(rows, visit);
    }
  }

  /** The row at position `j` of the listing is the first one of its form. */
  ghost predicate FirstOfForm(rows: seq<Declaration>, order: seq<nat>, j: nat) {
    && j < |order| && order[j] < |rows|
    && forall i :: 0 <= i < j && order[i] < |rows| ==> rows[order[i]].form != rows[order[j]].form
  }

  ghost predicate KeptAt(rows: seq<Declaration>, order: seq<nat>, k: nat, form: FormType, kept: nat, j: nat) {
    j < k && FirstOfForm(rows, order, j) && order[j] == kept && rows[kept].form == form
  }

  ghost predicate Kept(rows: seq<Declaration>, order: seq<nat>, k: nat, form: FormType, kept: nat) {
    exists j: nat :: KeptAt(rows, order, k, form, kept, j)
  }

  /** What the first `k` rows leave in the map: of every form among them the row that came first. */
  ghost predicate FirstSeen(rows: seq<Declaration>, order: seq<nat>, k: nat,
                            forms: seq<FormType>, latestByForm: map<FormType, nat>)
  {
    && k <= |order|
    && NoRepeats(forms) && (forall form :: form in forms <==> form in latestByForm)
    && (forall j :: 0 <= j < k && order[j] < |rows| ==> rows[order[j]].form in latestByForm)
    && (forall form :: form in latestByForm ==> Kept(rows, order, k, form, latestByForm[form]))
  }

  lemma FirstSeenStep(rows: seq<Declaration>, order: seq<nat>, k: nat, forms: seq<FormType>,
                      latestByForm: map<FormType, nat>)
    requires forall j :: 0 <= j < |order| ==> order[j] < |rows|
    requires k < |order| && FirstSeen(rows, order, k, forms, latestByForm)
    ensures var form := rows[order[k]].form;
            if form in latestByForm then FirstSeen(rows, order, k + 1, forms, latestByForm)
            else FirstSeen(rows, order, k + 1, forms + [form], latestByForm[form := order[k]])
  {
    var form := rows[order[k]].form;
    var later := if form in latestByForm then latestByForm else latestByForm[form := order[k]];
    forall f | f in later ensures Kept(rows, order, k + 1, f, later[f]) {
      if f in latestByForm {
        assert Kept(rows, order, k, f, latestByForm[f]);
        var j: nat :| KeptAt(rows, order, k, f, latestByForm[f], j);
        assert KeptAt(rows, order, k + 1, f, later[f], j);
      } else {
        assert KeptAt(rows, order, k + 1, f, later[f], k);
      }
    }
  }

  /** In descending version order the first row of a form is its latest version. */
  lemma FirstIsLatest(rows: seq<Declaration>, visit: nat, order: seq<nat>, form: FormType, j: nat)
    requires UniqueVersions(rows)
    requires Lists(order, rows, (d: Declaration) => d.visit == visit) && NewestFirst(order, rows)
    requires FirstOfForm(rows, order, j) && rows[order[j]].form == form
    ensures Latest(rows, visit, form) == Some(order[j])
  {
    assert rows[order[j]].Of(visit, form);
    var latest := Latest(rows, visit, form).value;
    assert latest in order;
    var p :| 0 <= p < |order| && order[p] == latest;
    assert j <= p;
    assert rows[order[j]].version == rows[latest].version;
  }

  lemma FirstSeenIsLatest(rows: seq<Declaration>, visit: nat, order: seq<nat>,
                          forms: seq<FormType>, latestByForm: map<FormType, nat>)
    requires UniqueVersions(rows)
    requires Lists(order, rows, (d: Declaration) => d.visit == visit) && NewestFirst(order, rows)
    requires FirstSeen(rows, order, |order|, forms, latestByForm)
    ensures HoldsLatest(rows, visit, forms, latestByForm)
  {
    forall form | form in latestByForm ensures Latest(rows, visit, form) == Some(latestByForm[form]) {
      assert Kept(rows, order, |order|, form, latestByForm[form]);
      var j: nat :| KeptAt(rows, order, |order|, form, latestByForm[form], j);
      FirstIsLatest(rows, visit, order, form, j);
    }
    forall form | Latest(rows, visit, form).Some? ensures form in latestByForm {
      var latest := Latest(rows, visit, form).value;
      assert latest in order;
    }
  }

  ghost predicate HoldsLatest(rows: seq<Declaration>, visit: nat, forms: seq<FormType>,
                              latestByForm: map<FormType, nat>)
  {
    && NoRepeats(forms) && (forall form :: form in forms <==> form in latestByForm)
    && (forall form :: form in latestByForm <==> Latest(rows, visit, form).Some?)
    && (forall form :: form in latestByForm ==> latestByForm[form] == Latest(rows, visit, form).value)
  }

  lemma AcceptedAreLatest(rows: seq<Declaration>, visit: nat, forms: seq<FormType>, latestByForm: map<FormType, nat>,
                          accepted: seq<Accepted>)
    requires HoldsLatest(rows, visit, forms, latestByForm) && |accepted| == |forms|
    requires forall k :: 0 <= k < |forms| ==>
               forms[k] in latestByForm && latestByForm[forms[k]] < |rows| &&
               accepted[k] == Summary(rows[latestByForm[forms[k]]])
    ensures NoRepeats(accepted) && forall x :: x in accepted <==> IsLatestSummary(rows, visit, x)
  {
    forall k | 0 <= k < |forms| ensures accepted[k].form == forms[k] {
      assert rows[Latest(rows, visit, forms[k]).value].Of(visit, forms[k]);
    }
    forall x | IsLatestSummary(rows, visit, x) ensures x in accepted {
      assert x.form in forms;
      var k :| 0 <= k < |forms| && forms[k] == x.form;
      assert accepted[k] == x;
    }
  }

  lemma AllAcceptedWhenNoneIsNot(rows: seq<Declaration>, visit: nat, forms: seq<FormType>,
                                 latestByForm: map<FormType, nat>)
    requires HoldsLatest(rows, visit, forms, latestByForm)
    ensures AllLatestAccepted(rows, visit) <==>
            |forms| != 0 && forall k :: 0 <= k < |forms| ==>
              forms[k] in latestByForm && latestByForm[forms[k]] < |rows| &&
              rows[latestByForm[forms[k]]].status == ACCEPTED
  {
    if |forms| > 0 {
      assert forms[0] in forms;
    }
    forall k | 0 <= k < |forms|
      ensures forms[k] in latestByForm && latestByForm[forms[k]] == Latest(rows, visit, forms[k]).value
    {
      assert forms[k] in forms;
    }
    forall form | Latest(rows, visit, form).Some? ensures exists k :: 0 <= k < |forms| && forms[k] == form {
      assert form in latestByForm && form in forms;
    }
  }

  /** An undisturbed submission: nobody can take the version between its read and its insert. */
  lemma UndisturbedSubmission(w: Window, p: Principal, visit: nat, form: FormType, digest: Digest)
    ensures var prior := Latest(w.declarations, visit, form);
            var version := if prior.Some? then w.declarations[prior.value].version + 1 else 1;
            var priorDigest := if prior.Some? then w.declarations[prior.value].digest else "";
            var after := Next(Next(w, Read(p, visit, form)), InsertStep(|w.drafts|, digest));
            var added := Declaration(visit, form, version, digest, priorDigest, SUBMITTED, p.userId, None, None, "");
            var spent := Draft(p.userId, visit, form, version, priorDigest, false);
            if visit >= |w.visits| then after == w
            else after == w.(declarations := w.declarations + [added], drafts := w.drafts + [spent])
                 && IsCurrent(after.declarations, |w.declarations|)
  {
  }

  lemma ClearancesDoNotMatter(w: Window, t: Window)
    requires Inv(w) && t == w.(visits := t.visits, clearances := t.clearances)
    ensures Inv(t)
  {
    forall i | 0 <= i < |t.boardings| ensures BoardingOk(t, t.boardings[i]) {
      assert BoardingOk(w, w.boardings[i]);
    }
  }

  ghost predicate ShowsNewest(w: Window, visit: nat, x: Accepted) {
    exists i: nat :: Newest(w.declarations, i) && w.declarations[i].visit == visit && SameVersion(w.declarations[i], x)
  }

  /** The stored checklist: every newest version, in the order of the forms; the digest of the grant in force; the
      joint boardings in the order of their numbers. */
  ghost predicate ChecklistTells(w: Window, visit: nat, c: Checklist) {
    && c.visit == visit
    && (forall x :: x in c.accepted <==> ShowsNewest(w, visit, x))
    && (forall j, k :: 0 <= j < k < |c.accepted| ==> Rank(c.accepted[j].form) < Rank(c.accepted[k].form))
    && (exists g: nat :: GrantsLast(w.pratiques, visit, g) && c.grantDigest == w.pratiques[g].digest)
    && (forall i: nat :: i in c.jointBoardings <==> i < |w.boardings| && JointlyBoarded(w.boardings[i], visit))
    && (forall j, k :: 0 <= j < k < |c.jointBoardings| ==> c.jointBoardings[j] < c.jointBoardings[k])
  }

  predicate SameVersion(d: Declaration, x: Accepted) {
    x.form == d.form && x.version == d.version && x.digest == d.digest
  }

  lemma NewestIsLatestSummary(w: Window, visit: nat, x: Accepted)
    requires UniqueVersions(w.declarations)
    ensures IsLatestSummary(w.declarations, visit, x) <==> ShowsNewest(w, visit, x)
  {
    var rows := w.declarations;
    var latest := Latest(rows, visit, x.form);
    if IsLatestSummary(rows, visit, x) {
      assert Newest(rows, latest.value) && rows[latest.value].visit == visit && SameVersion(rows[latest.value], x);
    }
    if i: nat :| Newest(rows, i) && rows[i].visit == visit && SameVersion(rows[i], x) {
      assert rows[i].Of(visit, x.form);
      assert rows[i].version == rows[latest.value].version;
    }
  }

  lemma SortedSummaries(rows: seq<Declaration>, visit: nat)
    ensures var sorted := Sort(LatestOfForms(rows, visit, FORMS), FormOrder);
            && (forall x :: x in sorted <==> IsLatestSummary(rows, visit, x))
            && (forall j, k :: 0 <= j < k < |sorted| ==> Rank(sorted[j].form) < Rank(sorted[k].form))
  {
    var latest := LatestOfForms(rows, visit, FORMS);
    var sorted := Sort(latest, FormOrder);
    EveryFormIsListed(MDOH);
    LatestOfFormsElements(rows, visit, FORMS);
    FormOrderIsTotal();
    SortSorts(latest, FormOrder);
    forall x ensures x in sorted <==> IsLatestSummary(rows, visit, x) {
      EveryFormIsListed(x.form);
      SameMembers(latest, sorted, x);
    }
    SortedWithoutRepeats(latest, sorted);
    forall j, k | 0 <= j < k < |sorted| ensures Rank(sorted[j].form) < Rank(sorted[k].form) {
      assert sorted[j] in sorted && sorted[k] in sorted;
      assert FormOrder(sorted[j], sorted[k]);
      RankIsInjective(sorted[j].form, sorted[k].form);
    }
  }

  lemma RankIsInjective(a: FormType, b: FormType)
    ensures Rank(a) == Rank(b) ==> a == b
  {
  }

  lemma RepeatCounts<T>(s: seq<T>, i: nat, j: nat)
    requires i < j < |s| && s[i] == s[j]
    ensures multiset(s)[s[i]] >= 2
  {
    assert s == s[..j] + [s[j]] + s[j + 1..];
    assert s[..j][i] in s[..j];
  }

  lemma SortedWithoutRepeats<T(!new)>(a: seq<T>, sorted: seq<T>)
    requires NoRepeats(a) && multiset(sorted) == multiset(a)
    ensures NoRepeats(sorted)
  {
    forall i, j | 0 <= i < j < |sorted| ensures sorted[i] != sorted[j] {
      CountsWithoutRepeats(a, sorted[i]);
      if sorted[i] == sorted[j] {
        RepeatCounts(sorted, i, j);
      }
    }
  }

  lemma SameMembers<T>(a: seq<T>, b: seq<T>, x: T)
    requires multiset(a) == multiset(b)
    ensures x in a <==> x in b
  {
    assert x in multiset(a) <==> x in multiset(b);
  }

  lemma SortedJointIds(rows: seq<Boarding>, visit: nat)
    ensures var sorted: seq<nat> := Sort<nat>(JointIds(rows, visit), IdOrder);
            && (forall i: nat :: i in sorted <==> i < |rows| && JointlyBoarded(rows[i], visit))
            && (forall j, k :: 0 <= j < k < |sorted| ==> sorted[j] < sorted[k])
  {
    var joint: seq<nat> := JointIds(rows, visit);
    var sorted: seq<nat> := Sort<nat>(joint, IdOrder);
    JointIdsHaveNoRepeats(rows, visit);
    FormOrderIsTotal();
    SortSorts<nat>(joint, IdOrder);
    SortedWithoutRepeats(joint, sorted);
    JointIdsAreJoint(rows, visit);
    forall i: nat ensures i in sorted <==> i < |rows| && JointlyBoarded(rows[i], visit) {
      SameMembers(joint, sorted, i);
      if i < |rows| {
        JointIsJointlyBoarded(rows[i], visit);
      }
    }
    forall j, k | 0 <= j < k < |sorted| ensures sorted[j] < sorted[k] {
      assert IdOrder(sorted[j], sorted[k]);
    }
  }

  /** Whatever the checklist of a departure holds can be read off the tables. */
  lemma ChecklistIsTold(w: Window, visit: nat)
    requires UniqueVersions(w.declarations) && DepartureChecklist(w, visit).Ok?
    ensures ChecklistTells(w, visit, DepartureChecklist(w, visit).value)
    ensures Rank(FAL1) < Rank(FAL2) < Rank(FAL3) < Rank(FAL4) < Rank(FAL5) < Rank(FAL6) < Rank(FAL7) < Rank(MDOH)
  {
    var c := DepartureChecklist(w, visit).value;
    SortedSummaries(w.declarations, visit);
    SortedJointIds(w.boardings, visit);
    InForceIsLastGrant(w.pratiques, visit);
    forall x ensures IsLatestSummary(w.declarations, visit, x) <==> ShowsNewest(w, visit, x) {
      NewestIsLatestSummary(w, visit, x);
    }
  }

  ghost predicate EveryNewestAccepted(rows: seq<Declaration>, visit: nat) {
    && (exists i :: 0 <= i < |rows| && rows[i].visit == visit)
    && (forall i: nat :: Newest(rows, i) && rows[i].visit == visit ==> rows[i].status == ACCEPTED)
  }

  ghost predicate PratiqueStands(w: Window, visit: nat) {
    exists g: nat :: GrantsLast(w.pratiques, visit, g)
  }

  ghost predicate BoardingDone(w: Window, visit: nat) {
    exists i :: 0 <= i < |w.boardings| && JointlyBoarded(w.boardings[i], visit)
  }

  /** The preconditions of a departure, and which error the first one that fails gives. */
  lemma FirstFailingPrecondition(w: Window, visit: nat)
    requires ChainOk(w.declarations)
    ensures var r := DepartureChecklist(w, visit);
            if !EveryNewestAccepted(w.declarations, visit) then r == Err(UNACCEPTED_DECLARATIONS)
            else if !PratiqueStands(w, visit) then r == Err(PRATIQUE_REQUIRED)
            else if !BoardingDone(w, visit) then r == Err(JOINT_BOARDING_INCOMPLETE)
            else r.Ok?
  {
    JointBoardingsAreFound(w.boardings, visit);
    InForceIsLastGrant(w.pratiques, visit);
    LatestIsCurrent(w.declarations, visit);
  }

  predicate GrantedRow(c: Clearance, p: Principal, visit: nat, kind: ClearanceKind) {
    && c.visit == visit && c.kind == kind && c.decision == GRANTED && c.decidedBy == p.userId
    && AgencyOf(p.role) == Some(c.agency) && (c.checklist.Some? <==> kind == DEPARTURE)
  }

  /** One clearance more, and the status of its visit; a departure stores its checklist. */
  ghost predicate Grants(w: Window, t: Window, p: Principal, visit: nat, kind: ClearanceKind) {
    && visit < |w.visits| && |t.clearances| == |w.clearances| + 1 && t.clearances[..|w.clearances|] == w.clearances
    && t == w.(clearances := t.clearances,
               visits := w.visits[visit := if kind == ARRIVAL then CLEARED_TO_ENTER else CLEARED_TO_DEPART])
    && GrantedRow(t.clearances[|w.clearances|], p, visit, kind)
    && (kind == DEPARTURE ==> ChecklistTells(w, visit, t.clearances[|w.clearances|].checklist.value))
  }

  ghost predicate GrantAnswers(w: Window, t: Window, p: Principal, visit: nat, kind: ClearanceKind,
                               error: Option<ReasonCode>)
  {
    if visit >= |w.visits| then error == Some(VISIT_NOT_FOUND) && t == w
    else if kind == DEPARTURE && !EveryNewestAccepted(w.declarations, visit)
    then error == Some(UNACCEPTED_DECLARATIONS) && t == w
    else if kind == DEPARTURE && !PratiqueStands(w, visit) then error == Some(PRATIQUE_REQUIRED) && t == w
    else if kind == DEPARTURE && !BoardingDone(w, visit) then error == Some(JOINT_BOARDING_INCOMPLETE) && t == w
    else if p.role == MswAgent then error == Some(INVALID_AGENCY_SET) && t == w
    else error == None && Grants(w, t, p, visit, kind)
  }

  lemma ArrivalIs(w: Window, p: Principal, visit: nat)
    requires ChainOk(w.declarations)
    ensures var r := GrantClearance(w, p, visit, ARRIVAL); GrantAnswers(w, Or(r, w), p, visit, ARRIVAL, ErrorIn(r))
  {
    if GrantClearance(w, p, visit, ARRIVAL).Ok? {
      GrantedIs(w, p, visit, ARRIVAL);
    }
  }

  lemma DepartureIs(w: Window, p: Principal, visit: nat)
    requires ChainOk(w.declarations)
    ensures var r := GrantClearance(w, p, visit, DEPARTURE); GrantAnswers(w, Or(r, w), p, visit, DEPARTURE, ErrorIn(r))
  {
    FirstFailingPrecondition(w, visit);
    if GrantClearance(w, p, visit, DEPARTURE).Ok? {
      GrantedIs(w, p, visit, DEPARTURE);
    }
  }

  /** The grant of a clearance: its preconditions in their order, each with its error, then the row. */
  lemma GrantIs(w: Window, p: Principal, visit: nat, kind: ClearanceKind)
    requires ChainOk(w.declarations)
    ensures var r := GrantClearance(w, p, visit, kind); GrantAnswers(w, Or(r, w), p, visit, kind, ErrorIn(r))
  {
    match kind
    case ARRIVAL => ArrivalIs(w, p, visit);
    case DEPARTURE => DepartureIs(w, p, visit);
  }

  lemma GrantedIs(w: Window, p: Principal, visit: nat, kind: ClearanceKind)
    requires ChainOk(w.declarations) && GrantClearance(w, p, visit, kind).Ok?
    ensures Grants(w, GrantClearance(w, p, visit, kind).value, p, visit, kind)
  {
    if kind == DEPARTURE {
      ChecklistIsTold(w, visit);
    }
  }

  class MswService {
    var visits: seq<VisitStatus>
    var declarations: seq<Declaration>
    ghost var drafts: seq<Draft>
    var pratiques: seq<Pratique>
    var boardings: seq<Boarding>
    var clearances: seq<Clearance>

    ghost function View(): Window
      reads this
    {
      Window(visits, declarations, drafts, pratiques, boardings, clearances)
    }

    /** The invariant of every run, at the tables of this service. */
    ghost predicate Valid()
      reads this
    {
      Inv(View())
    }

    constructor ()
      ensures Valid() && View() == MaritimeSingleWindow.INITIAL
    {
      visits, declarations, drafts, pratiques, boardings, clearances := [], [], [], [], [], [];
    }

    method OpenVisit() returns (visit: nat)
      requires Valid()
      modifies this
      ensures Valid() && View() == CreateVisit(old(View())) && visit == |old(visits)|
      ensures View() == old(View()).(visits := old(visits) + [VISIT_SUBMITTED])
    {
      StepKeepsInv(View(), Visit);
      visit := |visits|;
      visits := visits + [VISIT_SUBMITTED];
    }

    /** Reads the prior version and inserts the next one, with nothing in between: the insert succeeds. */
    method SubmitDeclaration(p: Principal, visit: nat, form: FormType, digest: Digest)
      returns (r: Result<Declaration, ReasonCode>)
      requires Valid()
      modifies this
      ensures Valid() && View() == Next(Next(old(View()), Read(p, visit, form)), InsertStep(|old(drafts)|, digest))
      ensures r.Err? ==> visit >= |visits| && r.error == VISIT_NOT_FOUND && View() == old(View())
      ensures r.Ok? ==> visit < |visits| && declarations == old(declarations) + [r.value]
      ensures r.Ok? ==> r.value.Of(visit, form) && r.value.digest == digest
      ensures r.Ok? ==> r.value.submittedBy == p.userId && r.value.status == SUBMITTED && r.value.reviewedBy.None?
      ensures r.Ok? ==> Newest(declarations, |declarations| - 1)
    {
      StepKeepsInv(View(), Read(p, visit, form));
      StepKeepsInv(Next(View(), Read(p, visit, form)), InsertStep(|drafts|, digest));
      UndisturbedSubmission(View(), p, visit, form, digest);
      if visit >= |visits| {
        return Err(VISIT_NOT_FOUND);
      }
      var prior := Latest(declarations, visit, form);
      var version := if prior.Some? then declarations[prior.value].version + 1 else 1;
      var priorDigest := if prior.Some? then declarations[prior.value].digest else "";
      var declaration := Declaration(visit, form, version, digest, priorDigest, SUBMITTED, p.userId, None, None, "");
      declarations := declarations + [declaration];
      drafts := drafts + [Draft(p.userId, visit, form, version, priorDigest, false)];
      return Ok(declaration);
    }

    method ReviewDeclaration(p: Principal, id: nat, accept: bool, reason: string) returns (r: Result<(), ReasonCode>)
      requires Valid()
      modifies this
      ensures Valid() && View() == Or(Review(old(View()), p, id, accept, reason), old(View()))
      ensures r.Ok? == Review(old(View()), p, id, accept, reason).Ok?
      ensures r.Err? ==> r.error == Review(old(View()), p, id, accept, reason).error
      ensures ReviewAnswers(old(View()), View(), p, id, accept, reason, ErrorIn(r))
    {
      StepKeepsInv(View(), ReviewStep(p, id, accept, reason));
      ReviewIs(View(), p, id, accept, reason);
      if !accept && reason == "" {
        return Err(REASON_CODE_REQUIRED);
      }
      if id >= |declarations| {
        return Err(DECLARATION_NOT_FOUND);
      }
      var declaration := declarations[id];
      if !IsCurrent(declarations, id) {
        return Err(VERSION_SUPERSEDED);
      }
      if declaration.status != SUBMITTED {
        return Err(DECLARATION_NOT_SUBMITTED);
      }
      if declaration.submittedBy == p.userId {
        return Err(MAKER_CHECKER_VIOLATION);
      }
      var reviewingAgency := AgencyOf(p.role);
      if reviewingAgency.None? {
        return Err(INVALID_AGENCY_SET);
      }
      declarations := declarations[id := declaration.(status := if accept then ACCEPTED else RETURNED,
                                                      reviewedBy := Some(p.userId),
                                                      reviewingAgency := reviewingAgency,
                                                      returnReason := if accept then "" else reason)];
      return Ok(());
    }

    method RecordPratique(p: Principal, visit: nat, health: nat, grant: bool, reason: string, digest: Digest)
      returns (r: Result<Pratique, ReasonCode>)
      requires Valid()
      modifies this
      ensures Valid() && View() == Or(DecidePratique(old(View()), p, visit, health, grant, reason, digest), old(View()))
      ensures r.Ok? == DecidePratique(old(View()), p, visit, health, grant, reason, digest).Ok?
      ensures r.Err? ==> r.error == DecidePratique(old(View()), p, visit, health, grant, reason, digest).error
      ensures PratiqueAnswers(old(View()), View(), p, visit, health, grant, reason, digest, ErrorIn(r))
      ensures r.Ok? ==> LatestPratique(pratiques, visit) == Some(|pratiques| - 1)
      ensures r.Ok? ==> pratiques[|pratiques| - 1] == r.value
    {
      StepKeepsInv(View(), PratiqueStep(p, visit, health, grant, reason, digest));
      PratiqueIs(View(), p, visit, health, grant, reason, digest);
      if !grant && reason == "" {
        return Err(REASON_CODE_REQUIRED);
      }
      if visit >= |visits| {
        return Err(VISIT_NOT_FOUND);
      }
      if health >= |declarations| || declarations[health].visit != visit || declarations[health].form != MDOH {
        return Err(MDOH_REQUIRED);
      }
      var pratique := Pratique(visit, if grant then GRANTED else REFUSED, health, digest, p.userId);
      pratiques := pratiques + [pratique];
      return Ok(pratique);
    }

    method Schedule(p: Principal, visit: nat, agencies: seq<Agency>) returns (r: Result<Boarding, ReasonCode>)
      requires Valid()
      modifies this
      ensures Valid() && View() == Or(ScheduleBoarding(old(View()), p, visit, agencies), old(View()))
      ensures r.Ok? == ScheduleBoarding(old(View()), p, visit, agencies).Ok?
      ensures r.Err? ==> r.error == ScheduleBoarding(old(View()), p, visit, agencies).error
      ensures ScheduleAnswers(old(View()), View(), p, visit, agencies, ErrorIn(r))
      ensures r.Ok? ==> boardings == old(boardings) + [r.value]
    {
      ScheduleIs(View(), p, visit, agencies);
      StepKeepsInv(View(), ScheduleStep(p, visit, agencies));
      if !ValidAgencySet(agencies) {
        return Err(INVALID_AGENCY_SET);
      }
      if visit >= |visits| {
        return Err(VISIT_NOT_FOUND);
      }
      if BeyondPortHealth(agencies) {
        var grant := PratiqueInForce(pratiques, visit);
        if grant.None? {
          return Err(PRATIQUE_REQUIRED);
        }
      }
      var agency := AgencyOf(p.role);
      if agency.None? {
        return Err(INVALID_AGENCY_SET);
      }
      var boarding := Boarding(visit, agencies, agency.value, SCHEDULED, "", 0);
      boardings := boardings + [boarding];
      return Ok(boarding);
    }

    method Complete(id: nat, boarded: Option<seq<Agency>>) returns (r: Result<(), ReasonCode>)
      requires Valid()
      modifies this
      ensures Valid() && View() == Or(CompleteBoarding(old(View()), id, boarded), old(View()))
      ensures r.Ok? == CompleteBoarding(old(View()), id, boarded).Ok?
      ensures r.Err? ==> r.error == CompleteBoarding(old(View()), id, boarded).error
      ensures CompleteAnswers(old(View()), View(), id, boarded, ErrorIn(r))
    {
      CompleteIs(View(), id, boarded);
      StepKeepsInv(View(), CompleteStep(id, boarded));
      if id >= |boardings| {
        return Err(BOARDING_NOT_FOUND);
      }
      var boarding := boardings[id];
      if boarding.status != SCHEDULED {
        return Err(BOARDING_NOT_SCHEDULED);
      }
      var agencies := if boarded.Some? then boarded.value else boarding.agencies;
      if !ValidAgencySet(agencies) {
        return Err(INVALID_AGENCY_SET);
      }
      var pratiqueGrantDigest := "";
      if BeyondPortHealth(agencies) {
        var grant := PratiqueInForce(pratiques, boarding.visit);
        if grant.None? {
          return Err(PRATIQUE_REQUIRED);
        }
        pratiqueGrantDigest := pratiques[grant.value].digest;
      }
      boardings := boardings[id := boarding.(status := COMPLETED, agencies := agencies,
                                             grantDigest := pratiqueGrantDigest, decisionsSeen := |pratiques|)];
      return Ok(());
    }

    /** The loop over the rows in descending version order keeps the first row seen of each form: that is
        the latest version, whatever order the database gives to rows of equal version. */
    method CollectLatest(visit: nat, order: seq<nat>) returns (forms: seq<FormType>, latestByForm: map<FormType, nat>)
      requires Valid()
      requires Lists(order, declarations, (d: Declaration) => d.visit == visit) && NewestFirst(order, declarations)
      ensures HoldsLatest(declarations, visit, forms, latestByForm)
    {
      forms, latestByForm := [], map[];
      for k := 0 to |order|
        invariant FirstSeen(declarations, order, k, forms, latestByForm)
      {
        FirstSeenStep(declarations, order, k, forms, latestByForm);
        var form := declarations[order[k]].form;
        if form !in latestByForm {
          latestByForm := latestByForm[form := order[k]];
          forms := forms + [form];
        }
      }
      FirstSeenIsLatest(declarations, visit, order, forms, latestByForm);
    }

    /** The summaries of the latest versions, in the order found, or None when one is not accepted. */
    method CollectAccepted(visit: nat, order: seq<nat>) returns (r: Option<seq<Accepted>>)
      requires Valid()
      requires Lists(order, declarations, (d: Declaration) => d.visit == visit) && NewestFirst(order, declarations)
      ensures r.Some? <==> AllLatestAccepted(declarations, visit)
      ensures r.Some? ==> Sort(r.value, FormOrder) == Sort(LatestOfForms(declarations, visit, FORMS), FormOrder)
    {
      var forms, latestByForm := CollectLatest(visit, order);
      var rows := declarations;
      var accepted := seq(|forms|,
                          k requires 0 <= k < |forms| && forms[k] in latestByForm && latestByForm[forms[k]] < |rows|
                            => Summary(rows[latestByForm[forms[k]]]));
      AcceptedAreLatest(rows, visit, forms, latestByForm, accepted);
      var unaccepted := exists k | 0 <= k < |forms| :: rows[latestByForm[forms[k]]].status != ACCEPTED;
      AllAcceptedWhenNoneIsNot(rows, visit, forms, latestByForm);
      if |forms| == 0 || unaccepted {
        return None;
      }
      SummariesSortAlike(rows, visit, accepted);
      return Some(accepted);
    }

    /** The checklist does not depend on the orders in which the database returns the rows. */
    method EvaluateDeparturePreconditions(visit: nat, order: seq<nat>, boardingOrder: seq<nat>)
      returns (r: Result<Checklist, ReasonCode>)
      requires Valid()
      requires Lists(order, declarations, (d: Declaration) => d.visit == visit) && NewestFirst(order, declarations)
      requires Lists(boardingOrder, boardings, (b: Boarding) => b.visit == visit && b.status == COMPLETED)
      ensures r == DepartureChecklist(View(), visit)
    {
      var accepted := CollectAccepted(visit, order);
      if accepted.None? {
        return Err(UNACCEPTED_DECLARATIONS);
      }
      var grant := PratiqueInForce(pratiques, visit);
      if grant.None? {
        return Err(PRATIQUE_REQUIRED);
      }
      var joint := FilterJoint(boardingOrder, boardings, visit);
      JointBoardingsSortAlike(boardings, visit, boardingOrder);
      if |joint| == 0 {
        return Err(JOINT_BOARDING_INCOMPLETE);
      }
      return Ok(Checklist(visit, Sort(accepted.value, FormOrder), pratiques[grant.value].digest, Sort(joint, IdOrder)));
    }

    /** The row of the clearance and the status of its visit. */
    method WriteGrant(visit: nat, kind: ClearanceKind, clearance: Clearance)
      requires Valid() && visit < |visits|
      modifies this`clearances, this`visits
      ensures Valid()
      ensures View() == old(View()).(clearances := old(clearances) + [clearance],
                                     visits := old(visits)[visit := if kind == ARRIVAL then CLEARED_TO_ENTER
                                                                    else CLEARED_TO_DEPART])
    {
      clearances := clearances + [clearance];
      visits := visits[visit := if kind == ARRIVAL then CLEARED_TO_ENTER else CLEARED_TO_DEPART];
      ClearancesDoNotMatter(old(View()), View());
    }

    method Grant(p: Principal, visit: nat, kind: ClearanceKind, order: seq<nat>, boardingOrder: seq<nat>)
      returns (r: Result<Clearance, ReasonCode>)
      requires Valid()
      requires Lists(order, declarations, (d: Declaration) => d.visit == visit) && NewestFirst(order, declarations)
      requires Lists(boardingOrder, boardings, (b: Boarding) => b.visit == visit && b.status == COMPLETED)
      modifies this
      ensures Valid() && View() == Or(GrantClearance(old(View()), p, visit, kind), old(View()))
      ensures r.Ok? == GrantClearance(old(View()), p, visit, kind).Ok?
      ensures r.Err? ==> r.error == GrantClearance(old(View()), p, visit, kind).error
      ensures GrantAnswers(old(View()), View(), p, visit, kind, ErrorIn(r))
      ensures r.Ok? ==> clearances == old(clearances) + [r.value]
    {
      GrantIs(View(), p, visit, kind);
      if visit >= |visits| {
        return Err(VISIT_NOT_FOUND);
      }
      var checklist: Option<Checklist> := None;
      if kind == DEPARTURE {
        var evaluated := EvaluateDeparturePreconditions(visit, order, boardingOrder);
        if evaluated.Err? {
          return Err(evaluated.error);
        }
        checklist := Some(evaluated.value);
      }
      var agency := AgencyOf(p.role);
      if agency.None? {
        return Err(INVALID_AGENCY_SET);
      }
      var clearance := Clearance(visit, kind, GRANTED, agency.value, p.userId, checklist);
      WriteGrant(visit, kind, clearance);
      return Ok(clearance);
    }

    method Refuse(p: Principal, visit: nat, kind: ClearanceKind, reason: string)
      returns (r: Result<Clearance, ReasonCode>)
      requires Valid()
      modifies this
      ensures Valid() && View() == Or(RefuseClearance(old(View()), p, visit, kind, reason), old(View()))
      ensures r.Ok? == RefuseClearance(old(View()), p, visit, kind, reason).Ok?
      ensures r.Err? ==> r.error == RefuseClearance(old(View()), p, visit, kind, reason).error
      ensures RefusalAnswers(old(View()), View(), p, visit, kind, reason, ErrorIn(r))
      ensures r.Ok? ==> clearances == old(clearances) + [r.value]
    {
      StepKeepsInv(View(), RefuseStep(p, visit, kind, reason));
      RefusalIs(View(), p, visit, kind, reason);
      if reason == "" {
        return Err(REASON_CODE_REQUIRED);
      }
      if visit >= |visits| {
        return Err(VISIT_NOT_FOUND);
      }
      var agency := AgencyOf(p.role);
      if agency.None? {
        return Err(INVALID_AGENCY_SET);
      }
      var clearance := Clearance(visit, kind, REFUSED, agency.value, p.userId, None);
      clearances := clearances + [clearance];
      return Ok(clearance);
    }
  }
}
