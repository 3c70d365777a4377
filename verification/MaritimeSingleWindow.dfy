/**
 * The Maritime Single Window: versioned declarations, maker-checker review, pratique, boardings and
 * clearances of a vessel's visit.
 *
 * Every table is a sequence of rows; a row is identified by its position. Each service call is one
 * atomic step, except the submission of a declaration, which first reads the latest version and then
 * inserts the next one under a uniqueness constraint. Digests are inputs of the steps, so everything
 * here holds for whatever digest function the service uses.
 */
module MaritimeSingleWindow {
  import opened Wrappers
  import opened Sorting

  // ----- Rows -----

  datatype FormType = FAL1 | FAL2 | FAL3 | FAL4 | FAL5 | FAL6 | FAL7 | MDOH

  /** Unknown stands for a name outside the wire enumeration. */
  datatype Agency = PORT_HEALTH | NIS | NCS | NDLEA | NIMASA | NPA | Unknown(name: string)

  datatype Role = MswPortHealth | MswNis | MswCustoms | MswNdlea | MswNimasa | MswNpa | MswAgent

  datatype Principal = Principal(userId: int, role: Role)

  datatype ReviewStatus = SUBMITTED | ACCEPTED | RETURNED

  datatype Decision = GRANTED | REFUSED

  datatype BoardingStatus = SCHEDULED | COMPLETED

  datatype ClearanceKind = ARRIVAL | DEPARTURE

  datatype VisitStatus = VISIT_SUBMITTED | CLEARED_TO_ENTER | CLEARED_TO_DEPART

  datatype ReasonCode =
    | VISIT_NOT_FOUND | DECLARATION_NOT_FOUND | BOARDING_NOT_FOUND | INVALID_AGENCY_SET | MDOH_REQUIRED
    | PRATIQUE_REQUIRED | MAKER_CHECKER_VIOLATION | DECLARATION_NOT_SUBMITTED | BOARDING_NOT_SCHEDULED
    | UNACCEPTED_DECLARATIONS | JOINT_BOARDING_INCOMPLETE | REASON_CODE_REQUIRED | VERSION_SUPERSEDED
    | UNIQUE_VIOLATION

  /** A digest is never the empty string. */
  type Digest = d: string | d != "" witness "sha256:"

  datatype Declaration = Declaration(visit: nat, form: FormType, version: int, digest: Digest, priorDigest: string,
                                     status: ReviewStatus, submittedBy: int, reviewedBy: Option<int>,
                                     reviewingAgency: Option<Agency>, returnReason: string)
  {
    predicate Of(v: nat, f: FormType) { visit == v && form == f }

    /** The columns that are written once, at submission. */
    predicate SameSubmission(other: Declaration) {
      && visit == other.visit && form == other.form && version == other.version && digest == other.digest
      && priorDigest == other.priorDigest && submittedBy == other.submittedBy
    }
  }

  datatype Pratique = Pratique(visit: nat, decision: Decision, healthDeclaration: nat, digest: Digest, decidedBy: int)

  /** The last field is history: how many pratique decisions had been recorded at completion. */
  datatype Boarding = Boarding(visit: nat, agencies: seq<Agency>, scheduledBy: Agency, status: BoardingStatus,
                               grantDigest: string, decisionsSeen: nat)

  datatype Accepted = Accepted(form: FormType, version: int, digest: Digest)

  /** The evaluated departure preconditions; a clearance stores their digest. */
  datatype Checklist = Checklist(visit: nat, accepted: seq<Accepted>, grantDigest: Digest, jointBoardings: seq<nat>)

  datatype Clearance = Clearance(visit: nat, kind: ClearanceKind, decision: Decision, agency: Agency,
                                 decidedBy: int, checklist: Option<Checklist>)

  /** A submission between its read and its insert. */
  datatype Draft = Draft(submitter: int, visit: nat, form: FormType, version: int, priorDigest: string, open: bool)

  datatype Window = Window(visits: seq<VisitStatus>, declarations: seq<Declaration>, drafts: seq<Draft>,
                           pratiques: seq<Pratique>, boardings: seq<Boarding>, clearances: seq<Clearance>)

  const INITIAL := Window([], [], [], [], [], [])

  const JOINT_BOARDING_AGENCIES: seq<Agency> := [NIS, NCS, NDLEA, NIMASA]

  // ----- Queries -----

  function AgencyOf(role: Role): Option<Agency> {
    match role
    case MswPortHealth => Some(PORT_HEALTH)
    case MswNis => Some(NIS)
    case MswCustoms => Some(NCS)
    case MswNdlea => Some(NDLEA)
    case MswNimasa => Some(NIMASA)
    case MswNpa => Some(NPA)
    case MswAgent => None
  }

  /** The row with the highest version of a (visit, form) pair. */
  function Latest(rows: seq<Declaration>, visit: nat, form: FormType): (r: Option<nat>)
    ensures r.Some? ==> r.value < |rows| && rows[r.value].Of(visit, form)
    ensures r.Some? ==>
              forall i :: 0 <= i < |rows| && rows[i].Of(visit, form) ==> rows[i].version <= rows[r.value].version
    ensures r.None? ==> forall i :: 0 <= i < |rows| ==> !rows[i].Of(visit, form)
  {
    if rows == [] then None
    else
      var n := |rows| - 1;
      var before := Latest(rows[..n], visit, form);
      assert forall i :: 0 <= i < n ==> rows[..n][i] == rows[i];
      if rows[n].Of(visit, form) && (before.None? || rows[n].version > rows[before.value].version) then Some(n)
      else before
  }

  /** The latest pratique decision of a visit, by insertion order. */
  function LatestPratique(rows: seq<Pratique>, visit: nat): (r: Option<nat>)
    ensures r.Some? ==> r.value < |rows| && rows[r.value].visit == visit
    ensures r.Some? ==> forall i :: r.value < i < |rows| ==> rows[i].visit != visit
    ensures r.None? ==> forall i :: 0 <= i < |rows| ==> rows[i].visit != visit
  {
    if rows == [] then None
    else if rows[|rows| - 1].visit == visit then Some(|rows| - 1)
    else LatestPratique(rows[..|rows| - 1], visit)
  }

  /** Pratique first: the grant in force, unless the latest decision is a refusal or there is none. */
  function PratiqueInForce(rows: seq<Pratique>, visit: nat): Option<nat> {
    var latest := LatestPratique(rows, visit);
    if latest.Some? && rows[latest.value].decision == GRANTED then latest else None
  }

  predicate ValidAgencySet(agencies: seq<Agency>) {
    agencies != [] && forall k :: 0 <= k < |agencies| ==> !agencies[k].Unknown?
  }

  predicate BeyondPortHealth(agencies: seq<Agency>) {
    exists k :: 0 <= k < |agencies| && agencies[k] != PORT_HEALTH
  }

  predicate IsJoint(b: Boarding, visit: nat) {
    && b.visit == visit && b.status == COMPLETED
    && forall k :: 0 <= k < |JOINT_BOARDING_AGENCIES| ==> JOINT_BOARDING_AGENCIES[k] in b.agencies
  }

  /** No newer version of the same (visit, form) exists. */
  predicate IsCurrent(rows: seq<Declaration>, i: nat)
    requires i < |rows|
  {
    forall j :: 0 <= j < |rows| && rows[j].Of(rows[i].visit, rows[i].form) ==> rows[j].version <= rows[i].version
  }

  // ----- The departure checklist -----

  function Rank(form: FormType): nat {
    match form
    case FAL1 => 1 case FAL2 => 2 case FAL3 => 3 case FAL4 => 4
    case FAL5 => 5 case FAL6 => 6 case FAL7 => 7 case MDOH => 8
  }

  predicate FormOrder(a: Accepted, b: Accepted) {
    Rank(a.form) <= Rank(b.form)
  }

  predicate IdOrder(a: nat, b: nat) {
    a <= b
  }

  function Summary(d: Declaration): Accepted {
    Accepted(d.form, d.version, d.digest)
  }

  const FORMS: seq<FormType> := [FAL1, FAL2, FAL3, FAL4, FAL5, FAL6, FAL7, MDOH]

  /** The latest version of each of the first forms that was submitted at all. */
  function LatestOfForms(rows: seq<Declaration>, visit: nat, forms: seq<FormType>): seq<Accepted> {
    if forms == [] then []
    else
      var n := |forms| - 1;
      var latest := Latest(rows, visit, forms[n]);
      LatestOfForms(rows, visit, forms[..n]) + (if latest.Some? then [Summary(rows[latest.value])] else [])
  }

  function JointIds(rows: seq<Boarding>, visit: nat): seq<nat> {
    if rows == [] then []
    else
      var n := |rows| - 1;
      JointIds(rows[..n], visit) + (if IsJoint(rows[n], visit) then [n] else [])
  }

  predicate AllLatestAccepted(rows: seq<Declaration>, visit: nat) {
    && (exists form :: Latest(rows, visit, form).Some?)
    && (forall form :: Latest(rows, visit, form).Some? ==>
          rows[Latest(rows, visit, form).value].status == ACCEPTED)
  }

  /** Every latest form accepted, pratique in force, a joint boarding completed: in this order. */
  function DepartureChecklist(w: Window, visit: nat): Result<Checklist, ReasonCode> {
    if !AllLatestAccepted(w.declarations, visit) then Err(UNACCEPTED_DECLARATIONS)
    else
      var grant := PratiqueInForce(w.pratiques, visit);
      if grant.None? then Err(PRATIQUE_REQUIRED)
      else
        var joint := JointIds(w.boardings, visit);
        if joint == [] then Err(JOINT_BOARDING_INCOMPLETE)
        else Ok(Checklist(visit, Sort(LatestOfForms(w.declarations, visit, FORMS), FormOrder),
                          w.pratiques[grant.value].digest, Sort(joint, IdOrder)))
  }

  // ----- Service calls -----

  function CreateVisit(w: Window): Window {
    w.(visits := w.visits + [VISIT_SUBMITTED])
  }

  /** First half of a submission: read the latest version. */
  function ReadPrior(w: Window, p: Principal, visit: nat, form: FormType): Result<Window, ReasonCode> {
    if visit >= |w.visits| then Err(VISIT_NOT_FOUND)
    else
      var prior := Latest(w.declarations, visit, form);
      var version := if prior.Some? then w.declarations[prior.value].version + 1 else 1;
      var digest := if prior.Some? then w.declarations[prior.value].digest else "";
      Ok(w.(drafts := w.drafts + [Draft(p.userId, visit, form, version, digest, true)]))
  }

  predicate VersionTaken(rows: seq<Declaration>, visit: nat, form: FormType, version: int) {
    exists i :: 0 <= i < |rows| && rows[i].Of(visit, form) && rows[i].version == version
  }

  /** Second half: insert, unless somebody else has inserted that version in the meantime. */
  function InsertVersion(w: Window, draft: nat, digest: Digest): Result<Window, ReasonCode>
    requires draft < |w.drafts|
  {
    var d := w.drafts[draft];
    if VersionTaken(w.declarations, d.visit, d.form, d.version) then Err(UNIQUE_VIOLATION)
    else Ok(w.(declarations := w.declarations +
               [Declaration(d.visit, d.form, d.version, digest, d.priorDigest, SUBMITTED, d.submitter,
                            None, None, "")]))
  }

  function CloseDraft(w: Window, draft: nat): Window
    requires draft < |w.drafts|
  {
    w.(drafts := w.drafts[draft := w.drafts[draft].(open := false)])
  }

  function Review(w: Window, p: Principal, id: nat, accept: bool, reason: string): Result<Window, ReasonCode> {
    if !accept && reason == "" then Err(REASON_CODE_REQUIRED)
    else if id >= |w.declarations| then Err(DECLARATION_NOT_FOUND)
    else
      var d := w.declarations[id];
      if !IsCurrent(w.declarations, id) then Err(VERSION_SUPERSEDED)
      else if d.status != SUBMITTED then Err(DECLARATION_NOT_SUBMITTED)
      else if d.submittedBy == p.userId then Err(MAKER_CHECKER_VIOLATION)
      else if AgencyOf(p.role).None? then Err(INVALID_AGENCY_SET)
      else Ok(w.(declarations := w.declarations[id :=
                   d.(status := if accept then ACCEPTED else RETURNED, reviewedBy := Some(p.userId),
                      reviewingAgency := AgencyOf(p.role), returnReason := if accept then "" else reason)]))
  }

  function DecidePratique(w: Window, p: Principal, visit: nat, health: nat, grant: bool, reason: string,
                          digest: Digest): Result<Window, ReasonCode>
  {
    if !grant && reason == "" then Err(REASON_CODE_REQUIRED)
    else if visit >= |w.visits| then Err(VISIT_NOT_FOUND)
    else if health >= |w.declarations| || !w.declarations[health].Of(visit, MDOH) then Err(MDOH_REQUIRED)
    else Ok(w.(pratiques := w.pratiques +
               [Pratique(visit, if grant then GRANTED else REFUSED, health, digest, p.userId)]))
  }

  function ScheduleBoarding(w: Window, p: Principal, visit: nat, agencies: seq<Agency>): Result<Window, ReasonCode> {
    if !ValidAgencySet(agencies) then Err(INVALID_AGENCY_SET)
    else if visit >= |w.visits| then Err(VISIT_NOT_FOUND)
    else if BeyondPortHealth(agencies) && PratiqueInForce(w.pratiques, visit).None? then Err(PRATIQUE_REQUIRED)
    else if AgencyOf(p.role).None? then Err(INVALID_AGENCY_SET)
    else Ok(w.(boardings := w.boardings + [Boarding(visit, agencies, AgencyOf(p.role).value, SCHEDULED, "", 0)]))
  }

  /** The party that boarded may differ from the scheduled one. */
  function CompleteBoarding(w: Window, id: nat, boarded: Option<seq<Agency>>): Result<Window, ReasonCode> {
    if id >= |w.boardings| then Err(BOARDING_NOT_FOUND)
    else
      var b := w.boardings[id];
      if b.status != SCHEDULED then Err(BOARDING_NOT_SCHEDULED)
      else
        var agencies := if boarded.Some? then boarded.value else b.agencies;
        if !ValidAgencySet(agencies) then Err(INVALID_AGENCY_SET)
        else
          var grant := PratiqueInForce(w.pratiques, b.visit);
          if BeyondPortHealth(agencies) && grant.None? then Err(PRATIQUE_REQUIRED)
          else
            var digest := if BeyondPortHealth(agencies) then w.pratiques[grant.value].digest else "";
            Ok(w.(boardings := w.boardings[id :=
                 b.(status := COMPLETED, agencies := agencies, grantDigest := digest,
                    decisionsSeen := |w.pratiques|)]))
  }

  function GrantClearance(w: Window, p: Principal, visit: nat, kind: ClearanceKind): Result<Window, ReasonCode> {
    if visit >= |w.visits| then Err(VISIT_NOT_FOUND)
    else
      var checklist := DepartureChecklist(w, visit);
      if kind == DEPARTURE && checklist.Err? then Err(checklist.error)
      else if AgencyOf(p.role).None? then Err(INVALID_AGENCY_SET)
      else
        var evaluated := if kind == DEPARTURE then Some(checklist.value) else None;
        Ok(w.(clearances := w.clearances +
                [Clearance(visit, kind, GRANTED, AgencyOf(p.role).value, p.userId, evaluated)],
              visits := w.visits[visit := if kind == ARRIVAL then CLEARED_TO_ENTER else CLEARED_TO_DEPART]))
  }

  function RefuseClearance(w: Window, p: Principal, visit: nat, kind: ClearanceKind, reason: string)
    : Result<Window, ReasonCode>
  {
    if reason == "" then Err(REASON_CODE_REQUIRED)
    else if visit >= |w.visits| then Err(VISIT_NOT_FOUND)
    else if AgencyOf(p.role).None? then Err(INVALID_AGENCY_SET)
    else Ok(w.(clearances := w.clearances +
               [Clearance(visit, kind, REFUSED, AgencyOf(p.role).value, p.userId, None)]))
  }

  // ----- Runs -----

  datatype Step =
    | Visit
    | Read(p: Principal, visit: nat, form: FormType)
    | InsertStep(draft: nat, digest: Digest)
    | ReviewStep(p: Principal, id: nat, accept: bool, reason: string)
    | PratiqueStep(p: Principal, visit: nat, health: nat, grant: bool, reason: string, digest: Digest)
    | ScheduleStep(p: Principal, visit: nat, agencies: seq<Agency>)
    | CompleteStep(id: nat, boarded: Option<seq<Agency>>)
    | GrantStep(p: Principal, visit: nat, kind: ClearanceKind)
    | RefuseStep(p: Principal, visit: nat, kind: ClearanceKind, reason: string)

  function Or(r: Result<Window, ReasonCode>, w: Window): Window {
    if r.Ok? then r.value else w
  }

  /** A call that fails changes nothing. */
  function Next(w: Window, step: Step): Window {
    match step
    case Visit => CreateVisit(w)
    case Read(p, visit, form) => Or(ReadPrior(w, p, visit, form), w)
    case InsertStep(draft, digest) =>
      if draft < |w.drafts| && w.drafts[draft].open
      then CloseDraft(Or(InsertVersion(w, draft, digest), w), draft)
      else w
    case ReviewStep(p, id, accept, reason) => Or(Review(w, p, id, accept, reason), w)
    case PratiqueStep(p, visit, health, grant, reason, digest) =>
      Or(DecidePratique(w, p, visit, health, grant, reason, digest), w)
    case ScheduleStep(p, visit, agencies) => Or(ScheduleBoarding(w, p, visit, agencies), w)
    case CompleteStep(id, boarded) => Or(CompleteBoarding(w, id, boarded), w)
    case GrantStep(p, visit, kind) => Or(GrantClearance(w, p, visit, kind), w)
    case RefuseStep(p, visit, kind, reason) => Or(RefuseClearance(w, p, visit, kind, reason), w)
  }

  function Run(w: Window, steps: seq<Step>): Window {
    if steps == [] then w else Next(Run(w, steps[..|steps| - 1]), steps[|steps| - 1])
  }

  // ----- The declaration chain -----

  /** A version and a prior digest that continue the chain of a (visit, form) pair. */
  ghost predicate Continues(rows: seq<Declaration>, visit: nat, form: FormType, version: int, priorDigest: string) {
    (version == 1 && priorDigest == "") ||
    exists j :: 0 <= j < |rows| && rows[j].Of(visit, form) && rows[j].version == version - 1 &&
                rows[j].digest == priorDigest
  }

  ghost predicate Reviewed(d: Declaration) {
    if d.status == SUBMITTED then d.reviewedBy.None?
    else d.reviewedBy.Some? && d.reviewedBy.value != d.submittedBy && d.reviewingAgency.Some?
  }

  ghost predicate Linked(rows: seq<Declaration>, i: nat) {
    i < |rows| ==> Continues(rows, rows[i].visit, rows[i].form, rows[i].version, rows[i].priorDigest)
  }

  ghost predicate UniqueVersions(rows: seq<Declaration>) {
    forall i, j :: 0 <= i < j < |rows| && rows[j].Of(rows[i].visit, rows[i].form) ==> rows[i].version != rows[j].version
  }

  ghost predicate ChainOk(rows: seq<Declaration>) {
    && (forall i :: 0 <= i < |rows| ==> rows[i].version >= 1 && Reviewed(rows[i]))
    && (forall i: nat {:trigger Linked(rows, i)} :: Linked(rows, i))
    && UniqueVersions(rows)
  }

  ghost predicate DraftsOk(rows: seq<Declaration>, drafts: seq<Draft>) {
    forall k :: 0 <= k < |drafts| ==>
      drafts[k].version >= 1 &&
      Continues(rows, drafts[k].visit, drafts[k].form, drafts[k].version, drafts[k].priorDigest)
  }

  /** `later` has all rows of `rows`, with the same submissions, and possibly more. */
  ghost predicate Grows(rows: seq<Declaration>, later: seq<Declaration>) {
    && |rows| <= |later|
    && (forall i :: 0 <= i < |rows| ==> later[i].SameSubmission(rows[i]))
    && (forall i :: 0 <= i < |rows| && rows[i].status != SUBMITTED ==> later[i] == rows[i])
  }

  lemma ContinuesGrows(rows: seq<Declaration>, later: seq<Declaration>, visit: nat, form: FormType,
                       version: int, priorDigest: string)
    requires Continues(rows, visit, form, version, priorDigest) && Grows(rows, later)
    ensures Continues(later, visit, form, version, priorDigest)
  {
    if !(version == 1 && priorDigest == "") {
      var j :| 0 <= j < |rows| && rows[j].Of(visit, form) && rows[j].version == version - 1 &&
               rows[j].digest == priorDigest;
      assert later[j].SameSubmission(rows[j]);
    }
  }

  lemma DraftsGrow(rows: seq<Declaration>, later: seq<Declaration>, drafts: seq<Draft>)
    requires DraftsOk(rows, drafts) && Grows(rows, later)
    ensures DraftsOk(later, drafts)
  {
    forall k | 0 <= k < |drafts|
      ensures Continues(later, drafts[k].visit, drafts[k].form, drafts[k].version, drafts[k].priorDigest)
    {
      ContinuesGrows(rows, later, drafts[k].visit, drafts[k].form, drafts[k].version, drafts[k].priorDigest);
    }
  }

  lemma InsertKeepsChain(rows: seq<Declaration>, d: Declaration)
    requires ChainOk(rows) && d.version >= 1 && Reviewed(d)
    requires Continues(rows, d.visit, d.form, d.version, d.priorDigest)
    requires !VersionTaken(rows, d.visit, d.form, d.version)
    ensures ChainOk(rows + [d]) && Grows(rows, rows + [d])
  {
    var later := rows + [d];
    assert forall i :: 0 <= i < |rows| ==> later[i] == rows[i];
    forall i: nat ensures Linked(later, i) {
      if i < |later| {
        assert i < |rows| ==> Linked(rows, i);
        ContinuesGrows(rows, later, later[i].visit, later[i].form, later[i].version, later[i].priorDigest);
      }
    }
  }

  lemma ReviewKeepsChain(rows: seq<Declaration>, id: nat, d: Declaration)
    requires ChainOk(rows) && id < |rows| && rows[id].status == SUBMITTED
    requires d.SameSubmission(rows[id]) && Reviewed(d)
    ensures ChainOk(rows[id := d]) && Grows(rows, rows[id := d])
  {
    var later := rows[id := d];
    forall i: nat ensures Linked(later, i) {
      if i < |later| {
        assert Linked(rows, i);
        ContinuesGrows(rows, later, later[i].visit, later[i].form, later[i].version, later[i].priorDigest);
      }
    }
  }

  lemma InsertStepKeepsChain(w: Window, draft: nat, digest: Digest)
    requires ChainOk(w.declarations) && DraftsOk(w.declarations, w.drafts)
    requires draft < |w.drafts| && InsertVersion(w, draft, digest).Ok?
    ensures var rows := InsertVersion(w, draft, digest).value.declarations;
            ChainOk(rows) && DraftsOk(rows, w.drafts) && Grows(w.declarations, rows)
  {
    var d := w.drafts[draft];
    InsertKeepsChain(w.declarations,
      Declaration(d.visit, d.form, d.version, digest, d.priorDigest, SUBMITTED, d.submitter, None, None, ""));
    DraftsGrow(w.declarations, InsertVersion(w, draft, digest).value.declarations, w.drafts);
  }

  lemma ReviewStepKeepsChain(w: Window, p: Principal, id: nat, accept: bool, reason: string)
    requires ChainOk(w.declarations) && DraftsOk(w.declarations, w.drafts)
    requires Review(w, p, id, accept, reason).Ok?
    ensures var rows := Review(w, p, id, accept, reason).value.declarations;
            ChainOk(rows) && DraftsOk(rows, w.drafts) && Grows(w.declarations, rows)
  {
    var rows := Review(w, p, id, accept, reason).value.declarations;
    assert Reviewed(w.declarations[id]);
    ReviewKeepsChain(w.declarations, id, rows[id]);
    DraftsGrow(w.declarations, rows, w.drafts);
  }

  lemma ReadStepKeepsDrafts(w: Window, p: Principal, visit: nat, form: FormType)
    requires ChainOk(w.declarations) && DraftsOk(w.declarations, w.drafts)
    requires ReadPrior(w, p, visit, form).Ok?
    ensures DraftsOk(w.declarations, ReadPrior(w, p, visit, form).value.drafts)
  {
    var prior := Latest(w.declarations, visit, form);
    if prior.Some? {
      var d := w.declarations[prior.value];
      assert Continues(w.declarations, visit, form, d.version + 1, d.digest);
    }
  }

  lemma OtherStepsKeepDeclarations(w: Window, step: Step)
    requires !step.InsertStep? && !step.ReviewStep?
    ensures Next(w, step).declarations == w.declarations
    ensures !step.Read? ==> Next(w, step).drafts == w.drafts
  {
  }

  lemma StepKeepsChain(w: Window, step: Step)
    requires ChainOk(w.declarations) && DraftsOk(w.declarations, w.drafts)
    ensures ChainOk(Next(w, step).declarations) && DraftsOk(Next(w, step).declarations, Next(w, step).drafts)
    ensures Grows(w.declarations, Next(w, step).declarations)
  {
    if step.InsertStep? {
      if step.draft < |w.drafts| && InsertVersion(w, step.draft, step.digest).Ok? {
        InsertStepKeepsChain(w, step.draft, step.digest);
      }
    } else if step.ReviewStep? {
      if Review(w, step.p, step.id, step.accept, step.reason).Ok? {
        ReviewStepKeepsChain(w, step.p, step.id, step.accept, step.reason);
      }
    } else {
      OtherStepsKeepDeclarations(w, step);
      if step.Read? && ReadPrior(w, step.p, step.visit, step.form).Ok? {
        ReadStepKeepsDrafts(w, step.p, step.visit, step.form);
      }
    }
  }

  lemma GrowsComposes(a: seq<Declaration>, b: seq<Declaration>, c: seq<Declaration>)
    requires Grows(a, b) && Grows(b, c)
    ensures Grows(a, c)
  {
    forall i | 0 <= i < |a| ensures c[i].SameSubmission(a[i]) {
      assert b[i].SameSubmission(a[i]) && c[i].SameSubmission(b[i]);
    }
  }

  lemma {:induction false} RunKeepsChain(w: Window, steps: seq<Step>)
    requires ChainOk(w.declarations) && DraftsOk(w.declarations, w.drafts)
    ensures ChainOk(Run(w, steps).declarations) && DraftsOk(Run(w, steps).declarations, Run(w, steps).drafts)
    ensures Grows(w.declarations, Run(w, steps).declarations)
  {
    if steps != [] {
      var head := steps[..|steps| - 1];
      RunKeepsChain(w, head);
      StepKeepsChain(Run(w, head), steps[|steps| - 1]);
      GrowsComposes(w.declarations, Run(w, head).declarations, Run(w, steps).declarations);
    }
  }

  ghost predicate IsVersion(rows: seq<Declaration>, visit: nat, form: FormType, version: int, i: nat) {
    i < |rows| && rows[i].Of(visit, form) && rows[i].version == version
  }

  ghost predicate HasVersion(rows: seq<Declaration>, visit: nat, form: FormType, version: int) {
    exists i: nat :: IsVersion(rows, visit, form, version, i)
  }

  lemma {:induction false} VersionsReachDown(rows: seq<Declaration>, visit: nat, form: FormType, version: int, v: int)
    requires ChainOk(rows) && 1 <= v <= version && HasVersion(rows, visit, form, version)
    ensures HasVersion(rows, visit, form, v)
    decreases version
  {
    if v < version {
      var i: nat :| IsVersion(rows, visit, form, version, i);
      assert Linked(rows, i);
      var j: nat :| 0 <= j < |rows| && rows[j].Of(visit, form) && rows[j].version == version - 1;
      assert IsVersion(rows, visit, form, version - 1, j);
      VersionsReachDown(rows, visit, form, version - 1, v);
    }
  }

  /** Single submission: however reads and inserts interleave, the versions of a (visit, form) pair are
      exactly 1 to the latest one, each held by one row; version 1 has no prior digest, and the prior
      digest of every later version is the payload digest of its predecessor. */
  lemma {:induction false} VersionsFormAChain(steps: seq<Step>, visit: nat, form: FormType)
    ensures var rows := Run(INITIAL, steps).declarations;
            var latest := Latest(rows, visit, form);
            var n := if latest.Some? then rows[latest.value].version else 0;
            && (forall v :: HasVersion(rows, visit, form, v) <==> 1 <= v <= n)
            && (forall v, i: nat, j: nat ::
                  IsVersion(rows, visit, form, v, i) && IsVersion(rows, visit, form, v, j) ==> i == j)
            && (forall i: nat :: IsVersion(rows, visit, form, 1, i) ==> rows[i].priorDigest == "")
            && (forall v, i: nat, j: nat ::
                  IsVersion(rows, visit, form, v - 1, i) && IsVersion(rows, visit, form, v, j) ==>
                  rows[j].priorDigest == rows[i].digest)
  {
    RunKeepsChain(INITIAL, steps);
    ChainIsComplete(Run(INITIAL, steps).declarations, visit, form);
    ChainIsLinked(Run(INITIAL, steps).declarations, visit, form);
  }

  lemma ChainIsComplete(rows: seq<Declaration>, visit: nat, form: FormType)
    requires ChainOk(rows)
    ensures var latest := Latest(rows, visit, form);
            var n := if latest.Some? then rows[latest.value].version else 0;
            forall v :: HasVersion(rows, visit, form, v) <==> 1 <= v <= n
  {
    var latest := Latest(rows, visit, form);
    if latest.Some? {
      assert IsVersion(rows, visit, form, rows[latest.value].version, latest.value);
      forall v | 1 <= v <= rows[latest.value].version ensures HasVersion(rows, visit, form, v) {
        VersionsReachDown(rows, visit, form, rows[latest.value].version, v);
      }
    }
  }

  lemma ChainIsLinked(rows: seq<Declaration>, visit: nat, form: FormType)
    requires ChainOk(rows)
    ensures forall v, i: nat, j: nat ::
              IsVersion(rows, visit, form, v, i) && IsVersion(rows, visit, form, v, j) ==> i == j
    ensures forall i: nat :: IsVersion(rows, visit, form, 1, i) ==> rows[i].priorDigest == ""
    ensures forall v, i: nat, j: nat ::
              IsVersion(rows, visit, form, v - 1, i) && IsVersion(rows, visit, form, v, j) ==>
              rows[j].priorDigest == rows[i].digest
  {
    forall i: nat | IsVersion(rows, visit, form, 1, i) ensures rows[i].priorDigest == "" {
      assert Linked(rows, i);
    }
    forall v, i: nat, j: nat | IsVersion(rows, visit, form, v - 1, i) && IsVersion(rows, visit, form, v, j)
      ensures rows[j].priorDigest == rows[i].digest
    {
      assert Linked(rows, j);
    }
  }

  /** No later step of any run changes what was submitted, or a review once it has been given. */
  lemma {:induction false} SubmissionsNeverChange(before: seq<Step>, after: seq<Step>)
    ensures Grows(Run(INITIAL, before).declarations, Run(Run(INITIAL, before), after).declarations)
  {
    RunKeepsChain(INITIAL, before);
    RunKeepsChain(Run(INITIAL, before), after);
  }

  /** Maker-checker in every run: an accepted or returned declaration was reviewed by an agency's
      principal other than its submitter. */
  lemma {:induction false} ReviewerIsNeverTheSubmitter(steps: seq<Step>, i: nat)
    requires i < |Run(INITIAL, steps).declarations| && Run(INITIAL, steps).declarations[i].status != SUBMITTED
    ensures var d := Run(INITIAL, steps).declarations[i];
            d.reviewedBy.Some? && d.reviewedBy.value != d.submittedBy && d.reviewingAgency.Some?
  {
    RunKeepsChain(INITIAL, steps);
    assert Reviewed(Run(INITIAL, steps).declarations[i]);
  }

  /** Step number `k` decides declaration `id`: it finds it submitted, with no newer version and submitted by
      somebody else, its principal acts for an agency, and a return has a reason. */
  ghost predicate ReviewsAt(steps: seq<Step>, k: nat, id: nat, accept: bool) {
    && k < |steps| && Decides(Run(INITIAL, steps[..k]).declarations, steps[k], id, accept)
  }

  predicate Decides(rows: seq<Declaration>, step: Step, id: nat, accept: bool) {
    && step.ReviewStep? && step.id == id && step.accept == accept && (accept || step.reason != "")
    && step.p.role != MswAgent
    && id < |rows| && rows[id].status == SUBMITTED && rows[id].submittedBy != step.p.userId
    && forall j :: 0 <= j < |rows| && rows[j].visit == rows[id].visit && rows[j].form == rows[id].form ==>
         rows[j].version <= rows[id].version
  }

  /** Acceptance and return, each by the step that gave it; a submitted row has had no review. */
  ghost predicate TellsTheReview(rows: seq<Declaration>, steps: seq<Step>, id: nat) {
    && (id < |rows| && rows[id].status == ACCEPTED <==> exists k: nat :: ReviewsAt(steps, k, id, true))
    && (id < |rows| && rows[id].status == RETURNED <==> exists k: nat :: ReviewsAt(steps, k, id, false))
    && (forall k: nat, accept :: ReviewsAt(steps, k, id, accept) ==>
          && id < |rows| && rows[id].reviewedBy == Some(steps[k].p.userId)
          && rows[id].reviewingAgency == AgencyOf(steps[k].p.role)
          && rows[id].returnReason == if accept then "" else steps[k].reason)
  }

  lemma DecisionIsWritten(w: Window, step: Step, id: nat, accept: bool)
    requires Decides(w.declarations, step, id, accept)
    ensures |Next(w, step).declarations| == |w.declarations|
    ensures Next(w, step).declarations[id] ==
            w.declarations[id].(status := if accept then ACCEPTED else RETURNED, reviewedBy := Some(step.p.userId),
                                reviewingAgency := AgencyOf(step.p.role),
                                returnReason := if accept then "" else step.reason)
  {
  }

  lemma OthersAreNotReviewed(w: Window, step: Step, id: nat)
    requires !Decides(w.declarations, step, id, true) && !Decides(w.declarations, step, id, false)
    ensures |w.declarations| <= |Next(w, step).declarations|
    ensures id < |w.declarations| ==> Next(w, step).declarations[id] == w.declarations[id]
    ensures |w.declarations| <= id < |Next(w, step).declarations| ==>
              Next(w, step).declarations[id].status == SUBMITTED
  {
  }

  lemma ReviewsOfPrefix(steps: seq<Step>, id: nat)
    requires steps != []
    ensures var n := |steps| - 1;
            forall k: nat, accept :: ReviewsAt(steps, k, id, accept) <==>
              ReviewsAt(steps[..n], k, id, accept) ||
              (k == n && Decides(Run(INITIAL, steps[..n]).declarations, steps[n], id, accept))
  {
    var n := |steps| - 1;
    forall k: nat | k < n ensures steps[..n][..k] == steps[..k] && steps[..n][k] == steps[k] {
    }
  }

  lemma DecisionTells(head: seq<Step>, step: Step, id: nat)
    requires TellsTheReview(Run(INITIAL, head).declarations, head, id)
    requires step.ReviewStep? && Decides(Run(INITIAL, head).declarations, step, id, step.accept)
    ensures TellsTheReview(Run(INITIAL, head + [step]).declarations, head + [step], id)
  {
    var steps := head + [step];
    assert steps[..|steps| - 1] == head;
    ReviewsOfPrefix(steps, id);
    DecisionIsWritten(Run(INITIAL, head), step, id, step.accept);
    assert forall k: nat, accept :: !ReviewsAt(head, k, id, accept);
    assert ReviewsAt(steps, |head|, id, step.accept);
  }

  lemma OtherStepTells(head: seq<Step>, step: Step, id: nat)
    requires TellsTheReview(Run(INITIAL, head).declarations, head, id)
    requires var rows := Run(INITIAL, head).declarations;
             !Decides(rows, step, id, true) && !Decides(rows, step, id, false)
    ensures TellsTheReview(Run(INITIAL, head + [step]).declarations, head + [step], id)
  {
    var steps := head + [step];
    assert steps[..|steps| - 1] == head;
    ReviewsOfPrefix(steps, id);
    OthersAreNotReviewed(Run(INITIAL, head), step, id);
    assert forall k: nat, accept :: ReviewsAt(steps, k, id, accept) ==> ReviewsAt(head, k, id, accept);
    assert forall k: nat, accept :: ReviewsAt(head, k, id, accept) ==> ReviewsAt(steps, k, id, accept);
    assert forall k: nat, accept :: ReviewsAt(head, k, id, accept) ==> steps[k] == head[k];
  }

  /** The review of every run: a declaration is accepted exactly when some step accepted it while it was current and
      submitted, for an agency and by somebody other than its submitter, and returned exactly when some step
      returned it so; reviewer, agency and reason are those of that step. */
  lemma {:induction false} StatusTellsTheReview(steps: seq<Step>, id: nat)
    ensures TellsTheReview(Run(INITIAL, steps).declarations, steps, id)
  {
    if steps != [] {
      var head, step := steps[..|steps| - 1], steps[|steps| - 1];
      StatusTellsTheReview(head, id);
      assert steps == head + [step];
      if Decides(Run(INITIAL, head).declarations, step, id, true) ||
         Decides(Run(INITIAL, head).declarations, step, id, false)
      {
        DecisionTells(head, step, id);
      } else {
        OtherStepTells(head, step, id);
      }
    }
  }

  lemma AgenciesOfRoles()
    ensures AgencyOf(MswPortHealth) == Some(PORT_HEALTH) && AgencyOf(MswNis) == Some(NIS)
    ensures AgencyOf(MswCustoms) == Some(NCS) && AgencyOf(MswNdlea) == Some(NDLEA)
    ensures AgencyOf(MswNimasa) == Some(NIMASA) && AgencyOf(MswNpa) == Some(NPA) && AgencyOf(MswAgent) == None
  {
  }

  // ----- Pratique, boardings and clearances -----

  ghost predicate PratiqueOk(w: Window, p: Pratique) {
    p.healthDeclaration < |w.declarations| && w.declarations[p.healthDeclaration].Of(p.visit, MDOH)
  }

  /** The boarding carries the digest of the grant that was in force when it was completed. */
  ghost predicate BoundToGrant(w: Window, b: Boarding) {
    && b.decisionsSeen <= |w.pratiques|
    && var grant := PratiqueInForce(w.pratiques[..b.decisionsSeen], b.visit);
       grant.Some? && b.grantDigest == w.pratiques[grant.value].digest
  }

  ghost predicate BoardingOk(w: Window, b: Boarding) {
    && ValidAgencySet(b.agencies)
    && (b.status == SCHEDULED ==> b.grantDigest == "")
    && (b.status == COMPLETED ==> if BeyondPortHealth(b.agencies) then BoundToGrant(w, b) else b.grantDigest == "")
  }

  ghost predicate Inv(w: Window) {
    && ChainOk(w.declarations) && DraftsOk(w.declarations, w.drafts)
    && (forall i :: 0 <= i < |w.pratiques| ==> PratiqueOk(w, w.pratiques[i]))
    && (forall i :: 0 <= i < |w.boardings| ==> BoardingOk(w, w.boardings[i]))
  }

  lemma PratiquesStayOk(w: Window, t: Window)
    requires Grows(w.declarations, t.declarations)
    requires forall i :: 0 <= i < |w.pratiques| ==> PratiqueOk(w, w.pratiques[i])
    ensures forall i :: 0 <= i < |w.pratiques| ==> PratiqueOk(t, w.pratiques[i])
  {
    forall i | 0 <= i < |w.pratiques| ensures PratiqueOk(t, w.pratiques[i]) {
      assert PratiqueOk(w, w.pratiques[i]);
      var health := w.pratiques[i].healthDeclaration;
      assert t.declarations[health].SameSubmission(w.declarations[health]);
    }
  }

  lemma BoardingStaysOk(w: Window, t: Window, b: Boarding)
    requires BoardingOk(w, b) && w.pratiques <= t.pratiques
    ensures BoardingOk(t, b)
  {
    if b.decisionsSeen <= |w.pratiques| {
      assert t.pratiques[..b.decisionsSeen] == w.pratiques[..b.decisionsSeen];
    }
  }

  lemma CompletionIsOk(w: Window, id: nat, boarded: Option<seq<Agency>>)
    requires CompleteBoarding(w, id, boarded).Ok?
    ensures BoardingOk(w, CompleteBoarding(w, id, boarded).value.boardings[id])
  {
    assert w.pratiques[..|w.pratiques|] == w.pratiques;
  }

  lemma StepKeepsTables(w: Window, step: Step)
    ensures var t := Next(w, step);
            && w.pratiques <= t.pratiques && |w.boardings| <= |t.boardings|
            && (forall i :: |w.pratiques| <= i < |t.pratiques| ==>
                  t.declarations == w.declarations && PratiqueOk(t, t.pratiques[i]))
            && (forall i :: 0 <= i < |w.boardings| && t.boardings[i] != w.boardings[i] ==>
                BoardingOk(t, t.boardings[i]))
            && (forall i :: |w.boardings| <= i < |t.boardings| ==> BoardingOk(t, t.boardings[i]))
  {
    match step
    case CompleteStep(id, boarded) =>
      if CompleteBoarding(w, id, boarded).Ok? {
        CompletionIsOk(w, id, boarded);
        BoardingStaysOk(w, Next(w, step), Next(w, step).boardings[id]);
      }
    case _ =>
  }

  lemma StepKeepsInv(w: Window, step: Step)
    requires Inv(w)
    ensures Inv(Next(w, step))
  {
    var t := Next(w, step);
    StepKeepsChain(w, step);
    StepKeepsTables(w, step);
    PratiquesStayOk(w, t);
    forall i | 0 <= i < |t.pratiques| ensures PratiqueOk(t, t.pratiques[i]) {
      if i < |w.pratiques| {
        assert t.pratiques[i] == w.pratiques[i];
      }
    }
    forall i | 0 <= i < |t.boardings| ensures BoardingOk(t, t.boardings[i]) {
      if i < |w.boardings| && t.boardings[i] == w.boardings[i] {
        BoardingStaysOk(w, t, w.boardings[i]);
      }
    }
  }

  lemma {:induction false} RunKeepsInv(steps: seq<Step>)
    ensures Inv(Run(INITIAL, steps))
  {
    if steps != [] {
      RunKeepsInv(steps[..|steps| - 1]);
      StepKeepsInv(Run(INITIAL, steps[..|steps| - 1]), steps[|steps| - 1]);
    }
  }

  /** `g` is a grant of the visit, anchored to a Maritime Declaration of Health of the same visit. */
  ghost predicate AnchoredGrant(w: Window, visit: nat, g: nat) {
    && g < |w.pratiques| && w.pratiques[g].visit == visit && w.pratiques[g].decision == GRANTED
    && PratiqueOk(w, w.pratiques[g])
  }

  /** Pratique first in every run: a completed boarding with a party beyond Port Health carries the
      digest of a grant of its visit, anchored to a declaration of health of that visit, and that grant
      was the visit's latest decision when the boarding was completed, whoever had been scheduled. */
  lemma {:induction false} CompletedBoardingsCarryTheGrant(steps: seq<Step>, i: nat)
    requires i < |Run(INITIAL, steps).boardings|
    requires Run(INITIAL, steps).boardings[i].status == COMPLETED
    requires exists agency <- Run(INITIAL, steps).boardings[i].agencies :: agency != PORT_HEALTH
    ensures var w := Run(INITIAL, steps);
            var b := w.boardings[i];
            exists g: nat :: AnchoredGrant(w, b.visit, g) && b.grantDigest == w.pratiques[g].digest &&
                        g < b.decisionsSeen <= |w.pratiques| &&
                        forall k :: g < k < b.decisionsSeen ==> w.pratiques[k].visit != b.visit
  {
    RunKeepsInv(steps);
    var w := Run(INITIAL, steps);
    var b := w.boardings[i];
    assert BoardingOk(w, b) && BeyondPortHealth(b.agencies);
    var g := PratiqueInForce(w.pratiques[..b.decisionsSeen], b.visit).value;
    assert w.pratiques[..b.decisionsSeen][g] == w.pratiques[g];
    assert forall k :: g < k < b.decisionsSeen ==> w.pratiques[..b.decisionsSeen][k] == w.pratiques[k];
    assert PratiqueOk(w, w.pratiques[g]);
    assert AnchoredGrant(w, b.visit, g);
  }

  ghost predicate CurrentlyAcceptedByAnother(w: Window, visit: nat, form: FormType, i: nat) {
    && Newest(w.declarations, i) && w.declarations[i].visit == visit && w.declarations[i].form == form
    && w.declarations[i].status == ACCEPTED
    && w.declarations[i].reviewedBy.Some? && w.declarations[i].reviewedBy.value != w.declarations[i].submittedBy
  }

  ghost predicate JointBoardingUnderGrant(w: Window, visit: nat, i: nat) {
    && i < |w.boardings| && JointlyBoarded(w.boardings[i], visit)
    && exists g: nat :: AnchoredGrant(w, visit, g) && w.boardings[i].grantDigest == w.pratiques[g].digest
  }

  /** Decision number `g` is the visit's last one, and grants. */
  predicate GrantsLast(rows: seq<Pratique>, visit: nat, g: nat) {
    && g < |rows| && rows[g].visit == visit && rows[g].decision == GRANTED
    && forall k :: g < k < |rows| ==> rows[k].visit != visit
  }

  lemma InForceIsLastGrant(rows: seq<Pratique>, visit: nat)
    ensures PratiqueInForce(rows, visit).Some? <==> exists g: nat :: GrantsLast(rows, visit, g)
    ensures PratiqueInForce(rows, visit).Some? ==> GrantsLast(rows, visit, PratiqueInForce(rows, visit).value)
  {
    var latest := LatestPratique(rows, visit);
    if PratiqueInForce(rows, visit).Some? {
      assert GrantsLast(rows, visit, latest.value);
    }
    if g: nat :| GrantsLast(rows, visit, g) {
      assert rows[g].visit == visit;
      assert latest.Some? && latest.value == g;
    }
  }

  /** A completed boarding of the visit with all four joint agencies. */
  predicate JointlyBoarded(b: Boarding, visit: nat) {
    && b.visit == visit && b.status == COMPLETED
    && NIS in b.agencies && NCS in b.agencies && NDLEA in b.agencies && NIMASA in b.agencies
  }

  lemma JointIsJointlyBoarded(b: Boarding, visit: nat)
    ensures IsJoint(b, visit) <==> JointlyBoarded(b, visit)
  {
    assert JOINT_BOARDING_AGENCIES[0] == NIS && JOINT_BOARDING_AGENCIES[1] == NCS;
    assert JOINT_BOARDING_AGENCIES[2] == NDLEA && JOINT_BOARDING_AGENCIES[3] == NIMASA;
  }

  /** No version of the same visit and form is newer. */
  predicate Newest(rows: seq<Declaration>, i: nat) {
    && i < |rows|
    && forall j :: 0 <= j < |rows| && rows[j].visit == rows[i].visit && rows[j].form == rows[i].form ==>
         rows[j].version <= rows[i].version
  }

  lemma {:induction false} JointIdsAreJoint(rows: seq<Boarding>, visit: nat)
    ensures forall i :: i in JointIds(rows, visit) <==> 0 <= i < |rows| && IsJoint(rows[i], visit)
  {
    if rows != [] {
      JointIdsAreJoint(rows[..|rows| - 1], visit);
    }
  }

  /** What a departure clearance means, although no function checks it as such: when one is granted in
      any run, the visit's latest Maritime Declaration of Health exists and some step of the run accepted it, for
      an agency and by somebody other than its submitter, the latest pratique decision is a grant, and a completed
      boarding with all joint agencies carries the digest of a grant of this visit. */
  lemma {:induction false} DepartureMeansHealthAndBoarding(steps: seq<Step>, p: Principal, visit: nat)
    requires GrantClearance(Run(INITIAL, steps), p, visit, DEPARTURE).Ok?
    ensures var w := Run(INITIAL, steps);
            && (exists i: nat, k: nat :: CurrentlyAcceptedByAnother(w, visit, MDOH, i) && ReviewsAt(steps, k, i, true))
            && (exists g: nat :: GrantsLast(w.pratiques, visit, g) && AnchoredGrant(w, visit, g))
            && (exists i: nat :: JointBoardingUnderGrant(w, visit, i))
  {
    var w := Run(INITIAL, steps);
    RunKeepsInv(steps);
    var grant := PratiqueInForce(w.pratiques, visit).value;
    InForceIsLastGrant(w.pratiques, visit);
    assert PratiqueOk(w, w.pratiques[grant]);
    assert AnchoredGrant(w, visit, grant);
    var health := Latest(w.declarations, visit, MDOH).value;
    StatusTellsTheReview(steps, health);
    var k: nat :| ReviewsAt(steps, k, health, true);
    assert Reviewed(w.declarations[health]);
    assert CurrentlyAcceptedByAnother(w, visit, MDOH, health);
    var b := SomeJointBoarding(w, visit);
    assert NIS in w.boardings[b].agencies && NIS != PORT_HEALTH;
    CompletedBoardingsCarryTheGrant(steps, b);
    assert JointBoardingUnderGrant(w, visit, b);
  }

  lemma SomeJointBoarding(w: Window, visit: nat) returns (b: nat)
    requires JointIds(w.boardings, visit) != []
    ensures b < |w.boardings| && JointlyBoarded(w.boardings[b], visit)
  {
    JointIdsAreJoint(w.boardings, visit);
    b := JointIds(w.boardings, visit)[0];
    assert b in JointIds(w.boardings, visit);
    JointIsJointlyBoarded(w.boardings[b], visit);
  }

  ghost predicate AcceptedHealth(w: Window, visit: nat, i: nat) {
    && i < |w.declarations| && w.declarations[i].Of(visit, MDOH) && w.declarations[i].status == ACCEPTED
    && w.declarations[i].reviewedBy.Some? && w.declarations[i].reviewedBy.value != w.declarations[i].submittedBy
  }

  ghost predicate Justified(w: Window, c: Clearance) {
    c.kind == DEPARTURE && c.decision == GRANTED ==>
      && c.checklist.Some?
      && (exists i: nat :: AcceptedHealth(w, c.visit, i))
      && (exists i: nat :: JointBoardingUnderGrant(w, c.visit, i))
  }

  lemma GrantStaysAnchored(w: Window, step: Step, visit: nat, g: nat)
    requires Inv(w) && AnchoredGrant(w, visit, g)
    ensures AnchoredGrant(Next(w, step), visit, g) && Next(w, step).pratiques[g] == w.pratiques[g]
  {
    StepKeepsChain(w, step);
    StepKeepsTables(w, step);
    var health := w.pratiques[g].healthDeclaration;
    assert Next(w, step).declarations[health].SameSubmission(w.declarations[health]);
  }

  /** A scheduled party beyond Port Health: some grant of the visit precedes it. */
  ghost predicate ScheduledAfterGrant(w: Window, b: Boarding) {
    b.status == SCHEDULED && (exists agency <- b.agencies :: agency != PORT_HEALTH) ==>
      exists g: nat :: AnchoredGrant(w, b.visit, g)
  }

  lemma SchedulingFollowsGrant(w: Window, p: Principal, visit: nat, agencies: seq<Agency>)
    requires Inv(w) && ScheduleBoarding(w, p, visit, agencies).Ok?
    ensures var t := ScheduleBoarding(w, p, visit, agencies).value;
            ScheduledAfterGrant(t, t.boardings[|w.boardings|])
  {
    if BeyondPortHealth(agencies) {
      var t := ScheduleBoarding(w, p, visit, agencies).value;
      var g := PratiqueInForce(w.pratiques, visit).value;
      assert PratiqueOk(w, w.pratiques[g]);
      assert AnchoredGrant(t, visit, g);
    }
  }

  lemma ScheduledBoardingsAreOldOrNew(w: Window, step: Step, i: nat)
    requires i < |Next(w, step).boardings| && Next(w, step).boardings[i].status == SCHEDULED
    ensures if i < |w.boardings| then Next(w, step).boardings[i] == w.boardings[i]
            else step.ScheduleStep? && i == |w.boardings| && ScheduleBoarding(w, step.p, step.visit, step.agencies).Ok?
  {
  }

  /** In every run nobody but Port Health is even scheduled to board before a pratique grant of the visit that
      is anchored to its declaration of health. */
  lemma {:induction false} NobodyIsScheduledBeforePratique(steps: seq<Step>, i: nat)
    requires i < |Run(INITIAL, steps).boardings|
    ensures ScheduledAfterGrant(Run(INITIAL, steps), Run(INITIAL, steps).boardings[i])
  {
    var head, step := steps[..|steps| - 1], steps[|steps| - 1];
    var w := Run(INITIAL, head);
    var b := Next(w, step).boardings[i];
    RunKeepsInv(head);
    if b.status == SCHEDULED && exists agency <- b.agencies :: agency != PORT_HEALTH {
      ScheduledBoardingsAreOldOrNew(w, step, i);
      if i < |w.boardings| {
        NobodyIsScheduledBeforePratique(head, i);
        var g: nat :| AnchoredGrant(w, b.visit, g);
        GrantStaysAnchored(w, step, b.visit, g);
      } else {
        SchedulingFollowsGrant(w, step.p, step.visit, step.agencies);
      }
    }
  }

  lemma CompletedBoardingNeverChanges(w: Window, step: Step, i: nat)
    requires i < |w.boardings| && w.boardings[i].status == COMPLETED
    ensures i < |Next(w, step).boardings| && Next(w, step).boardings[i] == w.boardings[i]
  {
  }

  lemma JustifiedStays(w: Window, step: Step, c: Clearance)
    requires Inv(w) && Justified(w, c)
    ensures Justified(Next(w, step), c)
  {
    var t := Next(w, step);
    if c.kind == DEPARTURE && c.decision == GRANTED {
      StepKeepsChain(w, step);
      var i: nat :| AcceptedHealth(w, c.visit, i);
      assert AcceptedHealth(t, c.visit, i);
      var b: nat :| JointBoardingUnderGrant(w, c.visit, b);
      var g: nat :| AnchoredGrant(w, c.visit, g) && w.boardings[b].grantDigest == w.pratiques[g].digest;
      GrantStaysAnchored(w, step, c.visit, g);
      CompletedBoardingNeverChanges(w, step, b);
      assert JointBoardingUnderGrant(t, c.visit, b);
    }
  }

  lemma StepAddsOneClearance(w: Window, step: Step)
    ensures var t := Next(w, step);
            t.clearances == w.clearances ||
            (|t.clearances| == |w.clearances| + 1 && t.clearances[..|w.clearances|] == w.clearances &&
             var c := t.clearances[|w.clearances|];
             (c.kind == DEPARTURE && c.decision == GRANTED ==>
                && step.GrantStep? && step.visit == c.visit && GrantClearance(w, step.p, c.visit, DEPARTURE).Ok?
                && c.checklist.Some?))
  {
  }

  lemma NewClearanceIsJustified(head: seq<Step>, step: Step, c: Clearance)
    requires c.kind == DEPARTURE && c.decision == GRANTED && c.checklist.Some?
    requires step.GrantStep? && step.visit == c.visit &&
             GrantClearance(Run(INITIAL, head), step.p, c.visit, DEPARTURE).Ok?
    ensures Justified(Run(INITIAL, head), c)
  {
    var w := Run(INITIAL, head);
    DepartureMeansHealthAndBoarding(head, step.p, c.visit);
    var i: nat, k: nat :| CurrentlyAcceptedByAnother(w, c.visit, MDOH, i) && ReviewsAt(head, k, i, true);
    assert AcceptedHealth(w, c.visit, i);
  }

  /** Every departure clearance ever granted stays justified: in every later state of every run its
      visit has an accepted declaration of health that somebody else reviewed, and a completed joint
      boarding under an anchored grant. */
  lemma {:induction false} DepartureClearancesStayJustified(steps: seq<Step>, k: nat)
    requires k < |Run(INITIAL, steps).clearances|
    ensures Justified(Run(INITIAL, steps), Run(INITIAL, steps).clearances[k])
  {
    var head, step := steps[..|steps| - 1], steps[|steps| - 1];
    var w := Run(INITIAL, head);
    RunKeepsInv(head);
    StepAddsOneClearance(w, step);
    var c := Next(w, step).clearances[k];
    if k < |w.clearances| {
      DepartureClearancesStayJustified(head, k);
      assert c == w.clearances[k];
    } else if c.kind == DEPARTURE && c.decision == GRANTED {
      NewClearanceIsJustified(head, step, c);
    }
    JustifiedStays(w, step, c);
  }

  // ----- What the calls answer, told by the rows -----

  function ErrorIn<T>(r: Result<T, ReasonCode>): Option<ReasonCode> {
    if r.Err? then Some(r.error) else None
  }

  /** The insert of a draft: refused exactly when a row of its visit and form has taken its version meanwhile;
      otherwise one more declaration, submitted and not reviewed. */
  lemma InsertIs(w: Window, draft: nat, digest: Digest)
    requires draft < |w.drafts|
    ensures var r, d, rows := InsertVersion(w, draft, digest), w.drafts[draft], w.declarations;
            && (r == Err(UNIQUE_VIOLATION) <==>
                exists i :: 0 <= i < |rows| && rows[i].visit == d.visit && rows[i].form == d.form &&
                            rows[i].version == d.version)
            && (r.Err? ==> r.error == UNIQUE_VIOLATION)
            && (r.Ok? ==>
                  && r.value == w.(declarations := r.value.declarations)
                  && |r.value.declarations| == |rows| + 1 && r.value.declarations[..|rows|] == rows
                  && var added := r.value.declarations[|rows|];
                     && added.visit == d.visit && added.form == d.form && added.version == d.version
                     && added.digest == digest && added.priorDigest == d.priorDigest
                     && added.submittedBy == d.submitter && added.status == SUBMITTED && added.reviewedBy.None?)
  {
  }

  /** `t` is `w` but for the row of one declaration, which keeps its submission. */
  predicate OnlyReviews(w: Window, t: Window, id: nat) {
    && id < |w.declarations| == |t.declarations|
    && t == w.(declarations := w.declarations[id := t.declarations[id]])
    && t.declarations[id].SameSubmission(w.declarations[id])
  }

  predicate ReviewAnswers(w: Window, t: Window, p: Principal, id: nat, accept: bool, reason: string,
                          error: Option<ReasonCode>)
  {
    var rows := w.declarations;
    if !accept && reason == "" then error == Some(REASON_CODE_REQUIRED) && t == w
    else if id >= |rows| then error == Some(DECLARATION_NOT_FOUND) && t == w
    else if !Newest(rows, id) then error == Some(VERSION_SUPERSEDED) && t == w
    else if rows[id].status != SUBMITTED then error == Some(DECLARATION_NOT_SUBMITTED) && t == w
    else if rows[id].submittedBy == p.userId then error == Some(MAKER_CHECKER_VIOLATION) && t == w
    else if p.role == MswAgent then error == Some(INVALID_AGENCY_SET) && t == w
    else
      && error == None && OnlyReviews(w, t, id)
      && t.declarations[id].status == (if accept then ACCEPTED else RETURNED)
      && t.declarations[id].reviewedBy == Some(p.userId) && t.declarations[id].reviewingAgency == AgencyOf(p.role)
      && t.declarations[id].returnReason == (if accept then "" else reason)
  }

  /** The review: the guards in their order, each with its error, then the decision. */
  lemma ReviewIs(w: Window, p: Principal, id: nat, accept: bool, reason: string)
    ensures var r := Review(w, p, id, accept, reason); ReviewAnswers(w, Or(r, w), p, id, accept, reason, ErrorIn(r))
  {
  }

  predicate PratiqueAnswers(w: Window, t: Window, p: Principal, visit: nat, health: nat, grant: bool, reason: string,
                            digest: Digest, error: Option<ReasonCode>)
  {
    if !grant && reason == "" then error == Some(REASON_CODE_REQUIRED) && t == w
    else if visit >= |w.visits| then error == Some(VISIT_NOT_FOUND) && t == w
    else if health >= |w.declarations| || w.declarations[health].visit != visit || w.declarations[health].form != MDOH
    then error == Some(MDOH_REQUIRED) && t == w
    else
      var row := Pratique(visit, if grant then GRANTED else REFUSED, health, digest, p.userId);
      error == None && t == w.(pratiques := w.pratiques + [row])
  }

  lemma PratiqueIs(w: Window, p: Principal, visit: nat, health: nat, grant: bool, reason: string, digest: Digest)
    ensures var r := DecidePratique(w, p, visit, health, grant, reason, digest);
            PratiqueAnswers(w, Or(r, w), p, visit, health, grant, reason, digest, ErrorIn(r))
  {
  }

  predicate Beyond(agencies: seq<Agency>) {
    exists agency <- agencies :: agency != PORT_HEALTH
  }

  predicate Named(agencies: seq<Agency>) {
    agencies != [] && forall agency <- agencies :: !agency.Unknown?
  }

  lemma AgencySets(agencies: seq<Agency>)
    ensures ValidAgencySet(agencies) <==> Named(agencies)
    ensures BeyondPortHealth(agencies) <==> Beyond(agencies)
  {
    assert forall k :: 0 <= k < |agencies| ==> agencies[k] in agencies;
    if agency :| agency in agencies && agency != PORT_HEALTH {
      var k :| 0 <= k < |agencies| && agencies[k] == agency;
      assert BeyondPortHealth(agencies);
    }
  }

  ghost predicate MayBoard(w: Window, visit: nat, agencies: seq<Agency>) {
    Beyond(agencies) ==> exists g: nat :: GrantsLast(w.pratiques, visit, g)
  }

  ghost predicate ScheduleAnswers(w: Window, t: Window, p: Principal, visit: nat, agencies: seq<Agency>,
                                  error: Option<ReasonCode>)
  {
    if !Named(agencies) then error == Some(INVALID_AGENCY_SET) && t == w
    else if visit >= |w.visits| then error == Some(VISIT_NOT_FOUND) && t == w
    else if !MayBoard(w, visit, agencies) then error == Some(PRATIQUE_REQUIRED) && t == w
    else if p.role == MswAgent then error == Some(INVALID_AGENCY_SET) && t == w
    else
      var row := Boarding(visit, agencies, AgencyOf(p.role).value, SCHEDULED, "", 0);
      error == None && t == w.(boardings := w.boardings + [row])
  }

  lemma ScheduleIs(w: Window, p: Principal, visit: nat, agencies: seq<Agency>)
    ensures var r := ScheduleBoarding(w, p, visit, agencies);
            ScheduleAnswers(w, Or(r, w), p, visit, agencies, ErrorIn(r))
  {
    AgencySets(agencies);
    InForceIsLastGrant(w.pratiques, visit);
  }

  /** The boarding is completed by that party, under the grant in force if anybody beyond Port Health has boarded. */
  ghost predicate CompletedBy(w: Window, was: Boarding, now: Boarding, agencies: seq<Agency>) {
    && now == was.(status := COMPLETED, agencies := agencies, grantDigest := now.grantDigest,
                   decisionsSeen := |w.pratiques|)
    && (Beyond(agencies) ==>
          exists g: nat :: GrantsLast(w.pratiques, was.visit, g) && now.grantDigest == w.pratiques[g].digest)
    && (!Beyond(agencies) ==> now.grantDigest == "")
  }

  ghost predicate CompleteAnswers(w: Window, t: Window, id: nat, boarded: Option<seq<Agency>>,
                                  error: Option<ReasonCode>)
  {
    if id >= |w.boardings| then error == Some(BOARDING_NOT_FOUND) && t == w
    else if w.boardings[id].status != SCHEDULED then error == Some(BOARDING_NOT_SCHEDULED) && t == w
    else
      var agencies := if boarded.Some? then boarded.value else w.boardings[id].agencies;
      if !Named(agencies) then error == Some(INVALID_AGENCY_SET) && t == w
      else if !MayBoard(w, w.boardings[id].visit, agencies) then error == Some(PRATIQUE_REQUIRED) && t == w
      else
        && error == None && |t.boardings| == |w.boardings|
        && t == w.(boardings := w.boardings[id := t.boardings[id]])
        && CompletedBy(w, w.boardings[id], t.boardings[id], agencies)
  }

  lemma CompleteIs(w: Window, id: nat, boarded: Option<seq<Agency>>)
    ensures var r := CompleteBoarding(w, id, boarded); CompleteAnswers(w, Or(r, w), id, boarded, ErrorIn(r))
  {
    if id < |w.boardings| {
      AgencySets(if boarded.Some? then boarded.value else w.boardings[id].agencies);
      InForceIsLastGrant(w.pratiques, w.boardings[id].visit);
    }
  }

  predicate RefusalAnswers(w: Window, t: Window, p: Principal, visit: nat, kind: ClearanceKind, reason: string,
                           error: Option<ReasonCode>)
  {
    if reason == "" then error == Some(REASON_CODE_REQUIRED) && t == w
    else if visit >= |w.visits| then error == Some(VISIT_NOT_FOUND) && t == w
    else if p.role == MswAgent then error == Some(INVALID_AGENCY_SET) && t == w
    else
      var row := Clearance(visit, kind, REFUSED, AgencyOf(p.role).value, p.userId, None);
      error == None && t == w.(clearances := w.clearances + [row])
  }

  lemma RefusalIs(w: Window, p: Principal, visit: nat, kind: ClearanceKind, reason: string)
    ensures var r := RefuseClearance(w, p, visit, kind, reason);
            RefusalAnswers(w, Or(r, w), p, visit, kind, reason, ErrorIn(r))
  {
  }

  // ----- What the tables tell of the calls -----

  /** The row is that of a successful pratique call: granted or refused as the call said, with a reason when refused. */
  predicate DecidedBy(step: Step, row: Pratique) {
    && step.PratiqueStep? && (step.grant || step.reason != "")
    && row == Pratique(step.visit, if step.grant then GRANTED else REFUSED, step.health, step.digest, step.p.userId)
  }

  lemma NewDecision(w: Window, step: Step)
    ensures var t := Next(w, step);
            t.pratiques == w.pratiques ||
            (|t.pratiques| == |w.pratiques| + 1 && t.pratiques[..|w.pratiques|] == w.pratiques &&
             DecidedBy(step, t.pratiques[|w.pratiques|]))
  {
  }

  /** In every run each pratique decision is the one that some call made. */
  lemma {:induction false} DecisionsTellTheCalls(steps: seq<Step>, i: nat)
    requires i < |Run(INITIAL, steps).pratiques|
    ensures exists k :: 0 <= k < |steps| && DecidedBy(steps[k], Run(INITIAL, steps).pratiques[i])
  {
    var head, step := steps[..|steps| - 1], steps[|steps| - 1];
    var w := Run(INITIAL, head);
    NewDecision(w, step);
    if i < |w.pratiques| {
      DecisionsTellTheCalls(head, i);
      var k :| 0 <= k < |head| && DecidedBy(head[k], w.pratiques[i]);
      assert steps[k] == head[k] && Next(w, step).pratiques[i] == w.pratiques[i];
    } else {
      assert DecidedBy(steps[|head|], Next(w, step).pratiques[i]);
    }
  }

  /** Clearance number `c` is the last one granted to the visit. */
  predicate LastGranted(rows: seq<Clearance>, visit: nat, c: nat) {
    && c < |rows| && rows[c].visit == visit && rows[c].decision == GRANTED
    && forall k :: c < k < |rows| ==> rows[k].visit != visit || rows[k].decision == REFUSED
  }

  ghost predicate StatusFits(w: Window, visit: nat) {
    && visit < |w.visits|
    && (w.visits[visit] == VISIT_SUBMITTED <==> !exists c: nat :: LastGranted(w.clearances, visit, c))
    && (forall c: nat :: LastGranted(w.clearances, visit, c) ==>
          w.visits[visit] == if w.clearances[c].kind == ARRIVAL then CLEARED_TO_ENTER else CLEARED_TO_DEPART)
  }

  ghost predicate StatusesFit(w: Window) {
    && (forall c :: 0 <= c < |w.clearances| ==> w.clearances[c].visit < |w.visits|)
    && (forall visit :: 0 <= visit < |w.visits| ==> StatusFits(w, visit))
  }

  lemma NewClearance(w: Window, step: Step)
    ensures var t := Next(w, step);
            || (t.clearances == w.clearances && (t.visits == w.visits || t.visits == w.visits + [VISIT_SUBMITTED]))
            || (&& (step.GrantStep? || step.RefuseStep?) && step.visit < |w.visits|
                && |t.clearances| == |w.clearances| + 1 && t.clearances[..|w.clearances|] == w.clearances
                && var c := t.clearances[|w.clearances|];
                && c.visit == step.visit && c.kind == step.kind && c.decidedBy == step.p.userId
                && Some(c.agency) == AgencyOf(step.p.role)
                && (step.RefuseStep? ==> c.decision == REFUSED && c.checklist.None? && t.visits == w.visits)
                && (step.GrantStep? ==>
                      && c.decision == GRANTED && (c.checklist.Some? <==> step.kind == DEPARTURE)
                      && t.visits == w.visits[step.visit := if step.kind == ARRIVAL then CLEARED_TO_ENTER
                                                            else CLEARED_TO_DEPART]))
  {
  }

  lemma OldStatusFits(w: Window, t: Window, visit: nat)
    requires visit < |w.visits| <= |t.visits| && StatusFits(w, visit) && t.visits[visit] == w.visits[visit]
    requires |w.clearances| <= |t.clearances| && t.clearances[..|w.clearances|] == w.clearances
    requires forall k :: |w.clearances| <= k < |t.clearances| ==>
               t.clearances[k].visit != visit || t.clearances[k].decision == REFUSED
    ensures StatusFits(t, visit)
  {
    assert forall k :: 0 <= k < |w.clearances| ==> t.clearances[k] == t.clearances[..|w.clearances|][k];
    forall c: nat ensures LastGranted(t.clearances, visit, c) <==> LastGranted(w.clearances, visit, c) {
    }
  }

  lemma StepKeepsStatuses(w: Window, step: Step)
    requires StatusesFit(w)
    ensures StatusesFit(Next(w, step))
  {
    var t, n := Next(w, step), |w.clearances|;
    NewClearance(w, step);
    forall visit: nat | visit < |t.visits| ensures StatusFits(t, visit) {
      if |t.clearances| > n && t.clearances[n].decision == GRANTED && t.clearances[n].visit == visit {
        assert LastGranted(t.clearances, visit, n);
      } else if visit < |w.visits| {
        OldStatusFits(w, t, visit);
      }
    }
    assert forall c :: 0 <= c < n ==> t.clearances[c] == t.clearances[..n][c] == w.clearances[c];
  }

  /** In every run a visit's status tells the last clearance that was granted to it: none, one of arrival, or one of
      departure. Refusals do not touch it. */
  lemma {:induction false} StatusTellsTheLastGrant(steps: seq<Step>)
    ensures StatusesFit(Run(INITIAL, steps))
  {
    if steps != [] {
      StatusTellsTheLastGrant(steps[..|steps| - 1]);
      StepKeepsStatuses(Run(INITIAL, steps[..|steps| - 1]), steps[|steps| - 1]);
    }
  }

  /** Exactly when a departure clearance is granted: the visit exists, the principal acts for an agency,
      something was declared and every declaration that no newer version supersedes is accepted, a grant
      is in force, and a joint boarding is completed. */
  lemma DepartureExactlyWhen(w: Window, p: Principal, visit: nat)
    requires ChainOk(w.declarations)
    ensures GrantClearance(w, p, visit, DEPARTURE).Ok? <==>
            && visit < |w.visits| && p.role != MswAgent
            && (exists i :: 0 <= i < |w.declarations| && w.declarations[i].visit == visit)
            && (forall i: nat | Newest(w.declarations, i) && w.declarations[i].visit == visit ::
                  w.declarations[i].status == ACCEPTED)
            && (exists g: nat :: GrantsLast(w.pratiques, visit, g))
            && (exists i :: 0 <= i < |w.boardings| && JointlyBoarded(w.boardings[i], visit))
  {
    JointBoardingsAreFound(w.boardings, visit);
    InForceIsLastGrant(w.pratiques, visit);
    LatestIsCurrent(w.declarations, visit);
  }

  lemma JointBoardingsAreFound(rows: seq<Boarding>, visit: nat)
    ensures JointIds(rows, visit) != [] <==> exists i :: 0 <= i < |rows| && JointlyBoarded(rows[i], visit)
  {
    JointIdsAreJoint(rows, visit);
    forall i | 0 <= i < |rows| ensures IsJoint(rows[i], visit) <==> JointlyBoarded(rows[i], visit) {
      JointIsJointlyBoarded(rows[i], visit);
    }
    if JointIds(rows, visit) != [] {
      assert JointIds(rows, visit)[0] in JointIds(rows, visit);
    }
  }

  lemma LatestIsCurrent(rows: seq<Declaration>, visit: nat)
    requires ChainOk(rows)
    ensures AllLatestAccepted(rows, visit) <==>
            && (exists i :: 0 <= i < |rows| && rows[i].visit == visit)
            && (forall i: nat :: Newest(rows, i) && rows[i].visit == visit ==> rows[i].status == ACCEPTED)
  {
    forall i: nat | i < |rows| && rows[i].visit == visit
      ensures Latest(rows, visit, rows[i].form).Some?
      ensures Newest(rows, i) ==> Latest(rows, visit, rows[i].form).value == i
    {
      assert rows[i].Of(visit, rows[i].form);
    }
    forall form | Latest(rows, visit, form).Some? ensures Newest(rows, Latest(rows, visit, form).value) {
    }
  }
}
