/**
 * The port-community read model: verified booking and gate events, delivered at least once and in any
 * order, are projected onto the consignment of the trader who linked the booking.
 *
 * Rows are identified by their position in their table. A handler may crash between two statements;
 * the event is then delivered again.
 */
module PcsProjection {
  import opened Wrappers
  import opened Sorting

  // ----- Events and rows -----

  datatype EventType =
    | CustomsValidationPending | CustomsValidated | GateScanApproved | BookingCompleted
    | BookingPaid | BookingRefunded
    | OtherType(name: string)

  datatype Milestone = CUSTOMS_HOLD | CUSTOMS_RELEASED | GATE_OUT

  datatype BillingStatus = PAID | REFUNDED

  /** The two amounts are the fields as parsed; None when the field is absent or not an integer. */
  datatype Event = Event(id: string, eventType: EventType, subject: string, occurredAt: int,
                         extensionAmount: Option<int>, payloadAmount: Option<int>)

  function MilestoneOf(t: EventType): Option<Milestone> {
    match t
    case CustomsValidationPending => Some(CUSTOMS_HOLD)
    case CustomsValidated => Some(CUSTOMS_RELEASED)
    case GateScanApproved => Some(GATE_OUT)
    case BookingCompleted => Some(GATE_OUT)
    case _ => None
  }

  function BillingStatusOf(t: EventType): Option<BillingStatus> {
    match t case BookingPaid => Some(PAID) case BookingRefunded => Some(REFUNDED) case _ => None
  }

  function AsAmountKobo(raw: Option<int>): Option<int> {
    if raw.Some? && raw.value > 0 then raw else None
  }

  function AmountOf(e: Event): Option<int> {
    var extension := AsAmountKobo(e.extensionAmount);
    if extension.Some? then extension else AsAmountKobo(e.payloadAmount)
  }

  datatype Link = Link(booking: string, trader: int, consignment: Option<nat>)

  datatype Consignment = Consignment(trader: int, lastMilestone: Option<Milestone>, lastMilestoneAt: Option<int>,
                                     sourceEventIds: seq<string>)

  datatype MilestoneRow = MilestoneRow(consignment: nat, milestone: Milestone, occurredAt: int, sourceEventId: string)

  datatype Snapshot = Snapshot(booking: string, amount: int, status: BillingStatus, sourceEventId: string)

  datatype Tables = Tables(links: seq<Link>, consignments: seq<Consignment>, milestones: seq<MilestoneRow>,
                           billing: seq<Snapshot>)

  datatype Outcome = Projected | BillingProjected | Duplicate | Unanchored | Unmapped | InvalidPayload | Interrupted

  // ----- Statements -----

  function FindBookingLink(links: seq<Link>, booking: string): (r: Option<nat>)
    ensures r.Some? ==> r.value < |links| && links[r.value].booking == booking
    ensures r.None? ==> forall i :: 0 <= i < |links| ==> links[i].booking != booking
  {
    if links == [] then None
    else
      var n := |links| - 1;
      var before := FindBookingLink(links[..n], booking);
      if before.Some? then before else if links[n].booking == booking then Some(n) else None
  }

  predicate MilestoneExists(rows: seq<MilestoneRow>, consignment: nat, eventId: string) {
    exists i :: 0 <= i < |rows| && rows[i].consignment == consignment && rows[i].sourceEventId == eventId
  }

  predicate SnapshotExists(rows: seq<Snapshot>, eventId: string) {
    exists i :: 0 <= i < |rows| && rows[i].sourceEventId == eventId
  }

  function CreateConsignment(t: Tables, trader: int, eventId: string): Tables {
    t.(consignments := t.consignments + [Consignment(trader, None, None, [eventId])])
  }

  function Attach(t: Tables, link: nat, consignment: nat): Tables
    requires link < |t.links|
  {
    t.(links := t.links[link := t.links[link].(consignment := Some(consignment))])
  }

  /** The last-milestone pointer rolls forward, never backward. */
  function RollForward(c: Consignment, milestone: Milestone, at: int, eventId: string): Consignment {
    if c.lastMilestoneAt.None? || at > c.lastMilestoneAt.value
    then c.(lastMilestone := Some(milestone), lastMilestoneAt := Some(at),
             sourceEventIds := c.sourceEventIds + [eventId])
    else c
  }

  // ----- Projection -----

  /** Where the handler stops; Never means that it runs to the end. */
  datatype Stop = BeforeAttach | BeforeInsert | BeforeRoll | Never

  function ProjectBilling(t: Tables, e: Event, status: BillingStatus): (Tables, Outcome) {
    var amount := AmountOf(e);
    if amount.None? then (t, InvalidPayload)
    else if SnapshotExists(t.billing, e.id) then (t, Duplicate)
    else (t.(billing := t.billing + [Snapshot(e.subject, amount.value, status, e.id)]), BillingProjected)
  }

  /** Insert the milestone on consignment `c`, then roll the pointer. */
  function ProjectMilestone(t: Tables, e: Event, milestone: Milestone, c: nat, stop: Stop): (Tables, Outcome) {
    if MilestoneExists(t.milestones, c, e.id) then (t, Duplicate)
    else
      var inserted := t.(milestones := t.milestones + [MilestoneRow(c, milestone, e.occurredAt, e.id)]);
      if stop == BeforeRoll then (inserted, Interrupted)
      else if c >= |t.consignments| then (inserted, Projected)
      else
        var rolled := RollForward(t.consignments[c], milestone, e.occurredAt, e.id);
        (inserted.(consignments := t.consignments[c := rolled]), Projected)
  }

  function Project(t: Tables, e: Event, stop: Stop): (Tables, Outcome) {
    if BillingStatusOf(e.eventType).Some? then ProjectBilling(t, e, BillingStatusOf(e.eventType).value)
    else if MilestoneOf(e.eventType).None? then (t, Unmapped)
    else
      var milestone := MilestoneOf(e.eventType).value;
      var link := FindBookingLink(t.links, e.subject);
      if link.None? then (t, Unanchored)
      else if t.links[link.value].consignment.Some? then
        if stop == BeforeInsert then (t, Interrupted)
        else ProjectMilestone(t, e, milestone, t.links[link.value].consignment.value, stop)
      else
        var created := CreateConsignment(t, t.links[link.value].trader, e.id);
        if stop == BeforeAttach then (created, Interrupted)
        else
          var attached := Attach(created, link.value, |t.consignments|);
          if stop == BeforeInsert then (attached, Interrupted)
          else ProjectMilestone(attached, e, milestone, |t.consignments|, stop)
  }

  class PcsProjectionStore {
    var links: seq<Link>
    var consignments: seq<Consignment>
    var milestones: seq<MilestoneRow>
    var billing: seq<Snapshot>

    function View(): Tables
      reads this
    {
      Tables(links, consignments, milestones, billing)
    }

    constructor (links: seq<Link>, consignments: seq<Consignment>)
      ensures View() == Tables(links, consignments, [], [])
    {
      this.links, this.consignments, milestones, billing := links, consignments, [], [];
    }

    /** False when a milestone of this consignment from this event already exists. */
    method InsertMilestone(row: MilestoneRow) returns (inserted: bool)
      modifies this`milestones
      ensures inserted <==> !MilestoneExists(old(milestones), row.consignment, row.sourceEventId)
      ensures milestones == if inserted then old(milestones) + [row] else old(milestones)
    {
      inserted := !MilestoneExists(milestones, row.consignment, row.sourceEventId);
      if inserted {
        milestones := milestones + [row];
      }
    }

    /** False when a snapshot from this event already exists. */
    method InsertBillingSnapshot(row: Snapshot) returns (inserted: bool)
      modifies this`billing
      ensures inserted <==> !SnapshotExists(old(billing), row.sourceEventId)
      ensures billing == if inserted then old(billing) + [row] else old(billing)
    {
      inserted := !SnapshotExists(billing, row.sourceEventId);
      if inserted {
        billing := billing + [row];
      }
    }

    method ProjectPcsEvent(e: Event) returns (outcome: Outcome)
      modifies this
      ensures (View(), outcome) == Project(old(View()), e, Never)
    {
      var billingStatus := BillingStatusOf(e.eventType);
      if billingStatus.Some? {
        var amount := AsAmountKobo(e.extensionAmount);
        if amount.None? {
          amount := AsAmountKobo(e.payloadAmount);
        }
        if amount.None? {
          return InvalidPayload;
        }
        var inserted := InsertBillingSnapshot(Snapshot(e.subject, amount.value, billingStatus.value, e.id));
        return if inserted then BillingProjected else Duplicate;
      }
      var milestone := MilestoneOf(e.eventType);
      if milestone.None? {
        return Unmapped;
      }
      var link := FindBookingLink(links, e.subject);
      if link.None? {
        return Unanchored;
      }
      var consignment := links[link.value].consignment;
      if consignment.None? {
        consignment := Some(|consignments|);
        consignments := consignments + [Consignment(links[link.value].trader, None, None, [e.id])];
        links := links[link.value := links[link.value].(consignment := consignment)];
      }
      var c := consignment.value;
      ghost var anchored := View();
      assert Project(old(View()), e, Never) == ProjectMilestone(anchored, e, milestone.value, c, Never);
      var inserted := InsertMilestone(MilestoneRow(c, milestone.value, e.occurredAt, e.id));
      if !inserted {
        return Duplicate;
      }
      if c < |consignments| {
        var state := consignments[c];
        if state.lastMilestoneAt.None? || e.occurredAt > state.lastMilestoneAt.value {
          consignments := consignments[c := state.(lastMilestone := Some(milestone.value),
                                                   lastMilestoneAt := Some(e.occurredAt),
                                                   sourceEventIds := state.sourceEventIds + [e.id])];
        } else {
          assert consignments[c := state] == consignments;
        }
      }
      return Projected;
    }
  }

  // ----- Runs -----

  datatype Delivery = Delivery(event: Event, stop: Stop)

  function Run(t: Tables, deliveries: seq<Delivery>): Tables {
    if deliveries == [] then t
    else
      var last := deliveries[|deliveries| - 1];
      Project(Run(t, deliveries[..|deliveries| - 1]), last.event, last.stop).0
  }

  /** Before any event: every booking is linked once, linked consignments belong to the linking trader,
      and nothing has been projected yet. */
  ghost predicate Fresh(t: Tables) {
    && t.milestones == [] && t.billing == []
    && (forall i, j :: 0 <= i < j < |t.links| ==> t.links[i].booking != t.links[j].booking)
    && (forall c :: 0 <= c < |t.consignments| ==>
        t.consignments[c].lastMilestone.None? && t.consignments[c].lastMilestoneAt.None?)
    && OwnersMatch(t)
  }

  ghost predicate OwnersMatch(t: Tables) {
    forall i :: 0 <= i < |t.links| && t.links[i].consignment.Some? ==>
      t.links[i].consignment.value < |t.consignments| &&
      t.consignments[t.links[i].consignment.value].trader == t.links[i].trader
  }

  /** The links of `t` are those of `base`, some of them attached to consignments of their own. */
  ghost predicate LinksExtend(base: Tables, t: Tables) {
    && |t.links| == |base.links| && |base.consignments| <= |t.consignments|
    && (forall i :: 0 <= i < |t.links| ==>
          && t.links[i].booking == base.links[i].booking && t.links[i].trader == base.links[i].trader
          && (base.links[i].consignment.Some? ==> t.links[i].consignment == base.links[i].consignment)
          && (base.links[i].consignment.None? && t.links[i].consignment.Some? ==>
                t.links[i].consignment.value >= |base.consignments|))
    && (forall i, j :: 0 <= i < j < |t.links| && t.links[i].consignment.Some? && t.links[j].consignment.Some? &&
                       t.links[i].consignment.value >= |base.consignments| ==>
                       t.links[i].consignment != t.links[j].consignment)
  }

  /** The row is what event `e` projects through link `i`. */
  ghost predicate Stems(t: Tables, row: MilestoneRow, e: Event, i: nat) {
    && i < |t.links| && t.links[i].booking == e.subject && t.links[i].consignment == Some(row.consignment)
    && MilestoneOf(e.eventType) == Some(row.milestone) && row.occurredAt == e.occurredAt && row.sourceEventId == e.id
  }

  ghost predicate HasOrigin(t: Tables, row: MilestoneRow, deliveries: seq<Delivery>) {
    exists d: nat, i: nat :: d < |deliveries| && Stems(t, row, deliveries[d].event, i)
  }

  /** The pointer of a consignment names one of its milestones. */
  ghost predicate PointerOk(state: Consignment, rows: seq<MilestoneRow>, c: nat) {
    && state.lastMilestone.Some? == state.lastMilestoneAt.Some?
    && (state.lastMilestoneAt.Some? ==>
          exists k :: 0 <= k < |rows| && rows[k].consignment == c &&
                      rows[k].occurredAt == state.lastMilestoneAt.value &&
                      rows[k].milestone == state.lastMilestone.value)
  }

  ghost predicate NoDuplicates(rows: seq<MilestoneRow>) {
    forall i, j :: 0 <= i < j < |rows| ==>
      rows[i].consignment != rows[j].consignment || rows[i].sourceEventId != rows[j].sourceEventId
  }

  ghost predicate Inv(base: Tables, t: Tables, deliveries: seq<Delivery>) {
    && LinksExtend(base, t) && OwnersMatch(t) && NoDuplicates(t.milestones)
    && (forall k :: 0 <= k < |t.milestones| ==> HasOrigin(t, t.milestones[k], deliveries))
    && (forall c :: 0 <= c < |t.consignments| ==> PointerOk(t.consignments[c], t.milestones, c))
  }

  lemma OriginGrows(t: Tables, u: Tables, row: MilestoneRow, deliveries: seq<Delivery>, more: seq<Delivery>)
    requires HasOrigin(t, row, deliveries) && deliveries <= more
    requires |t.links| == |u.links|
    requires forall i :: 0 <= i < |t.links| && t.links[i].consignment.Some? ==> u.links[i] == t.links[i]
    ensures HasOrigin(u, row, more)
  {
    var d: nat, i: nat :| d < |deliveries| && Stems(t, row, deliveries[d].event, i);
    assert more[d] == deliveries[d] && Stems(u, row, more[d].event, i);
  }

  lemma MoreDeliveriesKeepInv(base: Tables, t: Tables, u: Tables, deliveries: seq<Delivery>, more: seq<Delivery>)
    requires Inv(base, t, deliveries) && deliveries <= more
    requires u.links == t.links && u.consignments == t.consignments && u.milestones == t.milestones
    ensures Inv(base, u, more)
  {
    forall k | 0 <= k < |u.milestones| ensures HasOrigin(u, u.milestones[k], more) {
      OriginGrows(t, u, t.milestones[k], deliveries, more);
    }
  }

  lemma CreateKeepsInv(base: Tables, t: Tables, deliveries: seq<Delivery>, trader: int, eventId: string)
    requires Inv(base, t, deliveries)
    ensures Inv(base, CreateConsignment(t, trader, eventId), deliveries)
  {
    var u := CreateConsignment(t, trader, eventId);
    forall k | 0 <= k < |u.milestones| ensures HasOrigin(u, u.milestones[k], deliveries) {
      OriginGrows(t, u, t.milestones[k], deliveries, deliveries);
    }
  }

  lemma AttachKeepsInv(base: Tables, t: Tables, deliveries: seq<Delivery>, link: nat, c: nat)
    requires Inv(base, t, deliveries) && link < |t.links| && t.links[link].consignment.None?
    requires |base.consignments| <= c < |t.consignments| && t.consignments[c].trader == t.links[link].trader
    requires forall i :: 0 <= i < |t.links| ==> t.links[i].consignment != Some(c)
    ensures Inv(base, Attach(t, link, c), deliveries)
  {
    var u := Attach(t, link, c);
    forall k | 0 <= k < |u.milestones| ensures HasOrigin(u, u.milestones[k], deliveries) {
      OriginGrows(t, u, t.milestones[k], deliveries, deliveries);
    }
  }

  lemma InsertKeepsInv(base: Tables, t: Tables, deliveries: seq<Delivery>, row: MilestoneRow)
    requires Inv(base, t, deliveries) && HasOrigin(t, row, deliveries)
    requires !MilestoneExists(t.milestones, row.consignment, row.sourceEventId)
    ensures Inv(base, t.(milestones := t.milestones + [row]), deliveries)
  {
    var u := t.(milestones := t.milestones + [row]);
    forall k | 0 <= k < |u.milestones| ensures HasOrigin(u, u.milestones[k], deliveries) {
      OriginGrows(t, u, u.milestones[k], deliveries, deliveries);
    }
    forall c | 0 <= c < |u.consignments| ensures PointerOk(u.consignments[c], u.milestones, c) {
      PointerSurvives(u.consignments[c], t.milestones, row, c);
    }
  }

  lemma PointerSurvives(state: Consignment, rows: seq<MilestoneRow>, row: MilestoneRow, c: nat)
    requires PointerOk(state, rows, c)
    ensures PointerOk(state, rows + [row], c)
  {
    if state.lastMilestoneAt.Some? {
      var k :| 0 <= k < |rows| && rows[k].consignment == c &&
               rows[k].occurredAt == state.lastMilestoneAt.value && rows[k].milestone == state.lastMilestone.value;
      assert (rows + [row])[k] == rows[k];
    }
  }

  lemma RollKeepsInv(base: Tables, t: Tables, deliveries: seq<Delivery>, row: MilestoneRow)
    requires Inv(base, t, deliveries) && row in t.milestones && row.consignment < |t.consignments|
    ensures var c := row.consignment;
            Inv(base, t.(consignments := t.consignments[c :=
                  RollForward(t.consignments[c], row.milestone, row.occurredAt, row.sourceEventId)]), deliveries)
  {
    var c := row.consignment;
    var u := t.(consignments := t.consignments[c :=
                  RollForward(t.consignments[c], row.milestone, row.occurredAt, row.sourceEventId)]);
    forall k | 0 <= k < |u.milestones| ensures HasOrigin(u, u.milestones[k], deliveries) {
      OriginGrows(t, u, t.milestones[k], deliveries, deliveries);
    }
  }

  /** The statements on one consignment, once the link is attached. */
  lemma MilestoneKeepsInv(base: Tables, t: Tables, deliveries: seq<Delivery>, e: Event, link: nat, stop: Stop)
    requires Inv(base, t, deliveries) && link < |t.links| && t.links[link].consignment.Some?
    requires t.links[link].booking == e.subject && MilestoneOf(e.eventType).Some?
    requires Delivery(e, stop) in deliveries
    ensures var c := t.links[link].consignment.value;
            Inv(base, ProjectMilestone(t, e, MilestoneOf(e.eventType).value, c, stop).0, deliveries)
  {
    var c := t.links[link].consignment.value;
    var row := MilestoneRow(c, MilestoneOf(e.eventType).value, e.occurredAt, e.id);
    if !MilestoneExists(t.milestones, c, e.id) {
      var d: nat :| d < |deliveries| && deliveries[d] == Delivery(e, stop);
      assert Stems(t, row, deliveries[d].event, link);
      InsertKeepsInv(base, t, deliveries, row);
      var inserted := t.(milestones := t.milestones + [row]);
      assert inserted.milestones[|t.milestones|] == row;
      RollKeepsInv(base, inserted, deliveries, row);
    }
  }

  lemma ProjectKeepsInv(base: Tables, t: Tables, deliveries: seq<Delivery>, e: Event, stop: Stop)
    requires Inv(base, t, deliveries)
    ensures Inv(base, Project(t, e, stop).0, deliveries + [Delivery(e, stop)])
  {
    var more := deliveries + [Delivery(e, stop)];
    MoreDeliveriesKeepInv(base, t, t, deliveries, more);
    assert more[|deliveries|] == Delivery(e, stop);
    if BillingStatusOf(e.eventType).Some? {
      MoreDeliveriesKeepInv(base, t, Project(t, e, stop).0, deliveries, more);
    } else if MilestoneOf(e.eventType).Some? {
      var link := FindBookingLink(t.links, e.subject);
      if link.Some? {
        if t.links[link.value].consignment.Some? {
          MilestoneKeepsInv(base, t, more, e, link.value, stop);
        } else {
          var created := CreateConsignment(t, t.links[link.value].trader, e.id);
          CreateKeepsInv(base, t, more, t.links[link.value].trader, e.id);
          AttachKeepsInv(base, created, more, link.value, |t.consignments|);
          MilestoneKeepsInv(base, Attach(created, link.value, |t.consignments|), more, e, link.value, stop);
        }
      }
    }
  }

  lemma {:induction false} RunKeepsInv(base: Tables, deliveries: seq<Delivery>)
    requires Fresh(base)
    ensures Inv(base, Run(base, deliveries), deliveries)
  {
    if deliveries != [] {
      var head, last := deliveries[..|deliveries| - 1], deliveries[|deliveries| - 1];
      RunKeepsInv(base, head);
      ProjectKeepsInv(base, Run(base, head), head, last.event, last.stop);
      assert deliveries == head + [Delivery(last.event, last.stop)];
    }
  }

  /** Ownership in every run, crashes included: each milestone was projected from a delivered event whose
      booking is linked, and sits on the consignment attached to that link, which belongs to the trader
      who linked the booking. */
  lemma {:induction false} MilestonesAreAnchored(base: Tables, deliveries: seq<Delivery>, k: nat)
    requires Fresh(base) && k < |Run(base, deliveries).milestones|
    ensures var t := Run(base, deliveries);
            var row := t.milestones[k];
            && row.consignment < |t.consignments|
            && exists d: nat, i: nat :: d < |deliveries| && Stems(t, row, deliveries[d].event, i) &&
                                        i < |base.links| &&
                                        t.consignments[row.consignment].trader == base.links[i].trader
  {
    RunKeepsInv(base, deliveries);
    var t := Run(base, deliveries);
    assert HasOrigin(t, t.milestones[k], deliveries);
    var d: nat, i: nat :| d < |deliveries| && Stems(t, t.milestones[k], deliveries[d].event, i);
    assert t.consignments[t.milestones[k].consignment].trader == base.links[i].trader;
  }

  // ----- Convergence -----

  datatype Key = Key(milestone: Milestone, occurredAt: int, sourceEventId: string)

  function KeyOf(row: MilestoneRow): Key {
    Key(row.milestone, row.occurredAt, row.sourceEventId)
  }

  function ConsignmentOf(t: Tables, booking: string): Option<nat> {
    var link := FindBookingLink(t.links, booking);
    if link.Some? then t.links[link.value].consignment else None
  }

  /** The milestones that a booking shows, without their row numbers. */
  ghost function MilestonesOf(t: Tables, booking: string): set<Key> {
    set k | 0 <= k < |t.milestones| && ConsignmentOf(t, booking) == Some(t.milestones[k].consignment) ::
      KeyOf(t.milestones[k])
  }

  /** Both bookings are linked, and to the same consignment from the beginning if they differ. */
  predicate Shares(base: Tables, booking: string, other: string) {
    && FindBookingLink(base.links, booking).Some? && FindBookingLink(base.links, other).Some?
    && (booking == other ||
        (ConsignmentOf(base, booking).Some? && ConsignmentOf(base, booking) == ConsignmentOf(base, other)))
  }

  /** Which event types announce the milestone. */
  predicate Announces(t: EventType, milestone: Milestone) {
    match milestone
    case CUSTOMS_HOLD => t == CustomsValidationPending
    case CUSTOMS_RELEASED => t == CustomsValidated
    case GATE_OUT => t == GateScanApproved || t == BookingCompleted
  }

  lemma AnnouncedIsMapped(t: EventType, milestone: Milestone)
    ensures Announces(t, milestone) <==> MilestoneOf(t) == Some(milestone)
  {
  }

  /** What the booking must show, given the events alone. */
  ghost predicate IsExpected(base: Tables, booking: string, events: iset<Event>, key: Key) {
    exists e :: e in events && Announces(e.eventType, key.milestone) && Shares(base, booking, e.subject) &&
                key.occurredAt == e.occurredAt && key.sourceEventId == e.id
  }

  ghost function EventsOf(deliveries: seq<Delivery>): iset<Event> {
    iset d | 0 <= d < |deliveries| :: deliveries[d].event
  }

  ghost predicate IdsIdentify(deliveries: seq<Delivery>) {
    forall c, d |
      0 <= c < |deliveries| && 0 <= d < |deliveries| && deliveries[c].event.id == deliveries[d].event.id ::
      deliveries[c].event == deliveries[d].event
  }

  /** At least once: every event delivered at all is also delivered without a crash. */
  ghost predicate EachCompletes(deliveries: seq<Delivery>) {
    forall d :: 0 <= d < |deliveries| ==> Delivery(deliveries[d].event, Never) in deliveries
  }

  lemma LinkIsUnique(base: Tables, t: Tables, i: nat)
    requires Fresh(base) && LinksExtend(base, t) && i < |t.links|
    ensures FindBookingLink(t.links, t.links[i].booking) == Some(i)
    ensures FindBookingLink(base.links, t.links[i].booking) == Some(i)
  {
    var j := FindBookingLink(t.links, t.links[i].booking).value;
    assert base.links[j].booking == base.links[i].booking;
    var k := FindBookingLink(base.links, t.links[i].booking).value;
    assert base.links[k].booking == base.links[i].booking;
  }

  /** Two linked bookings have the same consignment at the end exactly when they shared it from the
      beginning or are the same booking. */
  lemma SameConsignmentMeansShared(base: Tables, t: Tables, i: nat, j: nat)
    requires Fresh(base) && LinksExtend(base, t) && i < |t.links| && j < |t.links| && t.links[i].consignment.Some?
    ensures t.links[i].consignment == t.links[j].consignment <==> Shares(base, t.links[i].booking, t.links[j].booking)
  {
    LinkIsUnique(base, t, i);
    LinkIsUnique(base, t, j);
  }

  ghost predicate Grown(t: Tables, u: Tables) {
    && |u.links| == |t.links| && t.milestones <= u.milestones && |t.consignments| <= |u.consignments|
    && (forall i :: 0 <= i < |t.links| ==> u.links[i].booking == t.links[i].booking)
    && (forall i :: 0 <= i < |t.links| && t.links[i].consignment.Some? ==> u.links[i] == t.links[i])
    && (forall c :: 0 <= c < |t.consignments| && t.consignments[c].lastMilestoneAt.Some? ==>
          u.consignments[c].lastMilestoneAt.Some? &&
          u.consignments[c].lastMilestoneAt.value >= t.consignments[c].lastMilestoneAt.value)
  }

  lemma MilestoneGrows(t: Tables, e: Event, milestone: Milestone, c: nat, stop: Stop)
    ensures Grown(t, ProjectMilestone(t, e, milestone, c, stop).0)
  {
  }

  lemma GrownComposes(t: Tables, u: Tables, v: Tables)
    requires Grown(t, u) && Grown(u, v)
    ensures Grown(t, v)
  {
  }

  lemma ProjectGrows(t: Tables, e: Event, stop: Stop)
    ensures Grown(t, Project(t, e, stop).0)
  {
    var link := FindBookingLink(t.links, e.subject);
    if MilestoneOf(e.eventType).Some? && link.Some? {
      var milestone := MilestoneOf(e.eventType).value;
      if t.links[link.value].consignment.Some? {
        MilestoneGrows(t, e, milestone, t.links[link.value].consignment.value, stop);
      } else {
        var attached := Attach(CreateConsignment(t, t.links[link.value].trader, e.id), link.value, |t.consignments|);
        MilestoneGrows(attached, e, milestone, |t.consignments|, stop);
        GrownComposes(t, attached, ProjectMilestone(attached, e, milestone, |t.consignments|, stop).0);
      }
    }
  }

  /** No pointer ever moves backward, not even when a handler crashes between its two statements. */
  lemma {:induction false} PointersNeverMoveBackward(t: Tables, deliveries: seq<Delivery>)
    ensures Grown(t, Run(t, deliveries))
  {
    if deliveries != [] {
      var last := deliveries[|deliveries| - 1];
      PointersNeverMoveBackward(t, deliveries[..|deliveries| - 1]);
      ProjectGrows(Run(t, deliveries[..|deliveries| - 1]), last.event, last.stop);
    }
  }

  /** The event has left its milestone on the consignment of its booking. */
  ghost predicate Landed(t: Tables, e: Event) {
    var link := FindBookingLink(t.links, e.subject);
    MilestoneOf(e.eventType).Some? && link.Some? ==>
      t.links[link.value].consignment.Some? &&
      MilestoneExists(t.milestones, t.links[link.value].consignment.value, e.id)
  }

  lemma {:induction false} SameFind(a: seq<Link>, b: seq<Link>, booking: string)
    requires |a| == |b| && forall i :: 0 <= i < |a| ==> a[i].booking == b[i].booking
    ensures FindBookingLink(a, booking) == FindBookingLink(b, booking)
  {
    if a != [] {
      SameFind(a[..|a| - 1], b[..|b| - 1], booking);
    }
  }

  lemma LandedStays(t: Tables, u: Tables, e: Event)
    requires Landed(t, e) && Grown(t, u)
    ensures Landed(u, e)
  {
    SameFind(t.links, u.links, e.subject);
    var link := FindBookingLink(t.links, e.subject);
    if MilestoneOf(e.eventType).Some? && link.Some? {
      var c := t.links[link.value].consignment.value;
      var k :| 0 <= k < |t.milestones| && t.milestones[k].consignment == c && t.milestones[k].sourceEventId == e.id;
      assert u.milestones[k] == t.milestones[k];
    }
  }

  lemma MilestoneLands(t: Tables, e: Event, milestone: Milestone, c: nat)
    ensures MilestoneExists(ProjectMilestone(t, e, milestone, c, Never).0.milestones, c, e.id)
  {
    var u := ProjectMilestone(t, e, milestone, c, Never).0;
    if !MilestoneExists(t.milestones, c, e.id) {
      assert u.milestones[|t.milestones|] == MilestoneRow(c, milestone, e.occurredAt, e.id);
    }
  }

  lemma CompleteProjectionLands(t: Tables, e: Event)
    ensures Landed(Project(t, e, Never).0, e)
  {
    var u := Project(t, e, Never).0;
    ProjectGrows(t, e, Never);
    SameFind(t.links, u.links, e.subject);
    var link := FindBookingLink(t.links, e.subject);
    if MilestoneOf(e.eventType).Some? && link.Some? {
      var milestone := MilestoneOf(e.eventType).value;
      if t.links[link.value].consignment.Some? {
        MilestoneLands(t, e, milestone, t.links[link.value].consignment.value);
      } else {
        var attached := Attach(CreateConsignment(t, t.links[link.value].trader, e.id), link.value, |t.consignments|);
        MilestoneLands(attached, e, milestone, |t.consignments|);
      }
    }
  }

  lemma {:induction false} CompletedEventsLand(t: Tables, deliveries: seq<Delivery>, e: Event)
    requires Delivery(e, Never) in deliveries
    ensures Landed(Run(t, deliveries), e)
  {
    var head, last := deliveries[..|deliveries| - 1], deliveries[|deliveries| - 1];
    assert deliveries == head + [last];
    if last == Delivery(e, Never) {
      CompleteProjectionLands(Run(t, head), e);
    } else {
      CompletedEventsLand(t, head, e);
      ProjectGrows(Run(t, head), last.event, last.stop);
      LandedStays(Run(t, head), Run(t, deliveries), e);
    }
  }

  lemma ShownIsExpected(base: Tables, deliveries: seq<Delivery>, booking: string, k: nat)
    requires Fresh(base) && k < |Run(base, deliveries).milestones|
    requires ConsignmentOf(Run(base, deliveries), booking) == Some(Run(base, deliveries).milestones[k].consignment)
    ensures IsExpected(base, booking, EventsOf(deliveries), KeyOf(Run(base, deliveries).milestones[k]))
  {
    RunKeepsInv(base, deliveries);
    var t := Run(base, deliveries);
    assert HasOrigin(t, t.milestones[k], deliveries);
    var d: nat, j: nat :| d < |deliveries| && Stems(t, t.milestones[k], deliveries[d].event, j);
    var i := FindBookingLink(t.links, booking).value;
    SameConsignmentMeansShared(base, t, i, j);
    AnnouncedIsMapped(deliveries[d].event.eventType, t.milestones[k].milestone);
    assert deliveries[d].event in EventsOf(deliveries);
  }

  lemma ExpectedIsShown(base: Tables, deliveries: seq<Delivery>, booking: string, d: nat)
    requires Fresh(base) && IdsIdentify(deliveries) && EachCompletes(deliveries) && d < |deliveries|
    requires MilestoneOf(deliveries[d].event.eventType).Some? && Shares(base, booking, deliveries[d].event.subject)
    ensures var e := deliveries[d].event;
            Key(MilestoneOf(e.eventType).value, e.occurredAt, e.id) in MilestonesOf(Run(base, deliveries), booking)
  {
    RunKeepsInv(base, deliveries);
    var t := Run(base, deliveries);
    var e := deliveries[d].event;
    CompletedEventsLand(base, deliveries, e);
    SameFind(base.links, t.links, e.subject);
    SameFind(base.links, t.links, booking);
    var i, j := FindBookingLink(t.links, booking).value, FindBookingLink(t.links, e.subject).value;
    SameConsignmentMeansShared(base, t, j, i);
    var c := t.links[j].consignment.value;
    var k :| 0 <= k < |t.milestones| && t.milestones[k].consignment == c && t.milestones[k].sourceEventId == e.id;
    assert HasOrigin(t, t.milestones[k], deliveries);
    var o: nat, m: nat :| o < |deliveries| && Stems(t, t.milestones[k], deliveries[o].event, m);
    assert deliveries[o].event == e;
    assert KeyOf(t.milestones[k]) == Key(MilestoneOf(e.eventType).value, e.occurredAt, e.id);
  }

  /** The milestones of a booking are a function of the set of delivered events alone. */
  lemma {:induction false} MilestonesAreExpected(base: Tables, deliveries: seq<Delivery>, booking: string, key: Key)
    requires Fresh(base) && IdsIdentify(deliveries) && EachCompletes(deliveries)
    ensures key in MilestonesOf(Run(base, deliveries), booking) <==>
            IsExpected(base, booking, EventsOf(deliveries), key)
  {
    var t := Run(base, deliveries);
    if key in MilestonesOf(t, booking) {
      var k :| 0 <= k < |t.milestones| && ConsignmentOf(t, booking) == Some(t.milestones[k].consignment) &&
               KeyOf(t.milestones[k]) == key;
      ShownIsExpected(base, deliveries, booking, k);
    }
    if IsExpected(base, booking, EventsOf(deliveries), key) {
      var e :| e in EventsOf(deliveries) && Announces(e.eventType, key.milestone) && Shares(base, booking, e.subject) &&
               key.occurredAt == e.occurredAt && key.sourceEventId == e.id;
      AnnouncedIsMapped(e.eventType, key.milestone);
      var d :| 0 <= d < |deliveries| && deliveries[d].event == e;
      ExpectedIsShown(base, deliveries, booking, d);
    }
  }

  /** Convergence: two delivery sequences of the same events, in any order, with any duplicates and any
      crashes that are followed by a complete delivery, end with the same milestones for every booking. */
  lemma {:induction false} MilestonesConverge(base: Tables, one: seq<Delivery>, other: seq<Delivery>, booking: string)
    requires Fresh(base) && EventsOf(one) == EventsOf(other)
    requires IdsIdentify(one) && EachCompletes(one) && IdsIdentify(other) && EachCompletes(other)
    ensures MilestonesOf(Run(base, one), booking) == MilestonesOf(Run(base, other), booking)
  {
    forall key
      ensures key in MilestonesOf(Run(base, one), booking) <==> key in MilestonesOf(Run(base, other), booking)
    {
      MilestonesAreExpected(base, one, booking, key);
      MilestonesAreExpected(base, other, booking, key);
    }
  }

  // ----- The last-milestone pointer -----

  function LastMilestoneAt(t: Tables, booking: string): Option<int> {
    var c := ConsignmentOf(t, booking);
    if c.Some? && c.value < |t.consignments| then t.consignments[c.value].lastMilestoneAt else None
  }

  function LastMilestone(t: Tables, booking: string): Option<Milestone> {
    var c := ConsignmentOf(t, booking);
    if c.Some? && c.value < |t.consignments| then t.consignments[c.value].lastMilestone else None
  }

  /** The pointer of the booking has reached time `at`. */
  predicate Reached(t: Tables, booking: string, at: int) {
    LastMilestoneAt(t, booking).Some? && at <= LastMilestoneAt(t, booking).value
  }

  /** The consignment that the booking has, or will be given. */
  function TargetOf(t: Tables, booking: string): Option<nat> {
    var link := FindBookingLink(t.links, booking);
    if link.None? then None
    else if t.links[link.value].consignment.Some? then t.links[link.value].consignment else Some(|t.consignments|)
  }

  /** The event is mapped, its booking is linked, and its milestone is not stored yet. */
  predicate IsNew(t: Tables, e: Event) {
    && MilestoneOf(e.eventType).Some? && TargetOf(t, e.subject).Some?
    && !MilestoneExists(t.milestones, TargetOf(t, e.subject).value, e.id)
  }

  /** The delivery stores a milestone that is later than the pointer, and stops before it moves the pointer. */
  predicate LosesPointer(t: Tables, e: Event, stop: Stop) {
    stop == BeforeRoll && IsNew(t, e) && !Reached(t, e.subject, e.occurredAt)
  }

  /** The delivery stores its milestone and goes on to the pointer. */
  predicate Rolls(t: Tables, e: Event, stop: Stop) {
    IsNew(t, e) && (stop == Never || (stop == BeforeAttach && ConsignmentOf(t, e.subject).Some?))
  }

  predicate IsBilling(e: Event) {
    e.eventType == BookingPaid || e.eventType == BookingRefunded
  }

  predicate HasMilestone(e: Event) {
    exists milestone :: Announces(e.eventType, milestone)
  }

  /** The outcome of a complete delivery: for a billing event whether it has an amount and no snapshot yet; for any
      other whether it announces a milestone, its booking is linked, and the milestone is not stored yet. */
  lemma OutcomeIs(t: Tables, e: Event)
    ensures Project(t, e, Never).1 ==
            if IsBilling(e) then
              if !exists amount :: Charges(e, amount) then InvalidPayload
              else if SnapshotExists(t.billing, e.id) then Duplicate else BillingProjected
            else if !HasMilestone(e) then Unmapped
            else if forall i :: 0 <= i < |t.links| ==> t.links[i].booking != e.subject then Unanchored
            else if IsNew(t, e) then Projected else Duplicate
  {
    if IsBilling(e) {
      if AmountOf(e).Some? {
        assert Charges(e, AmountOf(e).value);
      }
    } else if MilestoneOf(e.eventType).Some? {
      assert Announces(e.eventType, MilestoneOf(e.eventType).value);
    }
  }

  lemma NewEventsAreProjected(t: Tables, e: Event, stop: Stop)
    ensures Project(t, e, BeforeRoll).1 == Interrupted <==> IsNew(t, e)
    ensures Project(t, e, stop).1 == Projected <==> Rolls(t, e, stop)
  {
  }

  ghost predicate Leads(t: Tables, row: MilestoneRow) {
    var c := row.consignment;
    && c < |t.consignments| && t.consignments[c].lastMilestoneAt.Some?
    && row.occurredAt <= t.consignments[c].lastMilestoneAt.value
  }

  /** No milestone is later than the pointer of its consignment. */
  ghost predicate PointersLead(t: Tables) {
    forall k :: 0 <= k < |t.milestones| ==> Leads(t, t.milestones[k])
  }

  lemma LeadStays(t: Tables, u: Tables, row: MilestoneRow)
    requires Grown(t, u) && Leads(t, row)
    ensures Leads(u, row)
  {
  }

  lemma MilestoneKeepsOwners(t: Tables, e: Event, milestone: Milestone, c: nat, stop: Stop)
    requires OwnersMatch(t)
    ensures OwnersMatch(ProjectMilestone(t, e, milestone, c, stop).0)
  {
  }

  lemma ProjectKeepsOwners(t: Tables, e: Event, stop: Stop)
    requires OwnersMatch(t)
    ensures OwnersMatch(Project(t, e, stop).0)
  {
    var link := FindBookingLink(t.links, e.subject);
    if MilestoneOf(e.eventType).Some? && link.Some? {
      var milestone := MilestoneOf(e.eventType).value;
      if t.links[link.value].consignment.Some? {
        MilestoneKeepsOwners(t, e, milestone, t.links[link.value].consignment.value, stop);
      } else {
        var attached := Attach(CreateConsignment(t, t.links[link.value].trader, e.id), link.value, |t.consignments|);
        MilestoneKeepsOwners(attached, e, milestone, |t.consignments|, stop);
      }
    }
  }

  /** The milestones with that of the event on consignment `c`. */
  function WithMilestone(rows: seq<MilestoneRow>, e: Event, c: nat): seq<MilestoneRow>
    requires MilestoneOf(e.eventType).Some?
  {
    rows + [MilestoneRow(c, MilestoneOf(e.eventType).value, e.occurredAt, e.id)]
  }

  /** One projection adds at most one milestone: of the event, on the consignment of its booking. */
  lemma AddsAtMostOne(t: Tables, e: Event, stop: Stop)
    requires OwnersMatch(t)
    ensures var u := Project(t, e, stop).0;
            && OwnersMatch(u)
            && (u.milestones == t.milestones ||
                (&& MilestoneOf(e.eventType).Some? && ConsignmentOf(u, e.subject).Some?
                 && ConsignmentOf(u, e.subject).value < |u.consignments|
                 && u.milestones == WithMilestone(t.milestones, e, ConsignmentOf(u, e.subject).value)))
            && (stop == BeforeRoll && IsNew(t, e) ==> u.milestones != t.milestones)
  {
    var u := Project(t, e, stop).0;
    ProjectKeepsOwners(t, e, stop);
    ProjectGrows(t, e, stop);
    SameFind(t.links, u.links, e.subject);
  }

  /** A new milestone is led by the pointer unless the delivery loses the pointer update. */
  lemma NewMilestoneLeads(t: Tables, e: Event, stop: Stop)
    requires OwnersMatch(t)
    ensures var u := Project(t, e, stop).0;
            u.milestones != t.milestones ==>
              (Reached(u, e.subject, e.occurredAt) <==> !LosesPointer(t, e, stop))
  {
    var u := Project(t, e, stop).0;
    ProjectGrows(t, e, stop);
    SameFind(t.links, u.links, e.subject);
  }

  /** Exactly when a delivery leaves a pointer behind: it stops between insert and update, and the milestone
      it has inserted is later than the pointer. All other crashes are harmless. */
  lemma PointersStayTheMaximumExactlyWhen(t: Tables, e: Event, stop: Stop)
    requires PointersLead(t) && OwnersMatch(t)
    ensures PointersLead(Project(t, e, stop).0) <==> !LosesPointer(t, e, stop)
  {
    var u := Project(t, e, stop).0;
    ProjectGrows(t, e, stop);
    AddsAtMostOne(t, e, stop);
    NewMilestoneLeads(t, e, stop);
    forall k | 0 <= k < |t.milestones| ensures Leads(u, u.milestones[k]) {
      assert u.milestones[k] == t.milestones[k];
      LeadStays(t, u, t.milestones[k]);
    }
    if u.milestones != t.milestones {
      assert Leads(u, u.milestones[|t.milestones|]) <==> Reached(u, e.subject, e.occurredAt);
    }
  }

  /** Delivery number `d` of the run loses its pointer update. */
  ghost predicate LosesAt(base: Tables, deliveries: seq<Delivery>, d: nat) {
    d < |deliveries| && LosesPointer(Run(base, deliveries[..d]), deliveries[d].event, deliveries[d].stop)
  }

  /** Delivery number `d` of the run stores its milestone and goes on to the pointer. */
  ghost predicate RollsAt(base: Tables, deliveries: seq<Delivery>, d: nat) {
    d < |deliveries| && Rolls(Run(base, deliveries[..d]), deliveries[d].event, deliveries[d].stop)
  }

  /** Some delivery on the consignment of `booking` has done so with a milestone at or after `at`. */
  ghost predicate RolledTo(base: Tables, deliveries: seq<Delivery>, booking: string, at: int) {
    exists d: nat :: RollsAt(base, deliveries, d) && Shares(base, booking, deliveries[d].event.subject) &&
                     at <= deliveries[d].event.occurredAt
  }

  /** Every lost update has been overtaken: some first complete delivery on the same consignment has at least
      its time. */
  ghost predicate LossesOvertaken(base: Tables, deliveries: seq<Delivery>) {
    forall d: nat :: LosesAt(base, deliveries, d) ==>
      RolledTo(base, deliveries, deliveries[d].event.subject, deliveries[d].event.occurredAt)
  }

  /** In particular no update is lost when no delivery stops between insert and update. */
  lemma OtherCrashesLoseNothing(base: Tables, deliveries: seq<Delivery>)
    requires forall d :: 0 <= d < |deliveries| ==> deliveries[d].stop != BeforeRoll
    ensures LossesOvertaken(base, deliveries)
  {
  }

  /** The row is that of the event, on the consignment of its booking. */
  ghost predicate RowOf(t: Tables, row: MilestoneRow, e: Event) {
    ConsignmentOf(t, e.subject) == Some(row.consignment) && row.occurredAt == e.occurredAt
  }

  /** The milestone is led by its pointer, or some delivery has stored it and lost the update. */
  ghost predicate LeadsOrLost(base: Tables, deliveries: seq<Delivery>, t: Tables, row: MilestoneRow) {
    Leads(t, row) || exists d: nat :: LosesAt(base, deliveries, d) && RowOf(t, row, deliveries[d].event)
  }

  lemma ConsignmentStays(t: Tables, u: Tables, booking: string)
    requires Grown(t, u) && ConsignmentOf(t, booking).Some?
    ensures ConsignmentOf(u, booking) == ConsignmentOf(t, booking)
  {
    SameFind(t.links, u.links, booking);
  }

  lemma LeadsOrLostStays(base: Tables, deliveries: seq<Delivery>, row: MilestoneRow)
    requires deliveries != []
    requires var head := deliveries[..|deliveries| - 1]; LeadsOrLost(base, head, Run(base, head), row)
    ensures LeadsOrLost(base, deliveries, Run(base, deliveries), row)
  {
    var head, last := deliveries[..|deliveries| - 1], deliveries[|deliveries| - 1];
    var t, u := Run(base, head), Run(base, deliveries);
    ProjectGrows(t, last.event, last.stop);
    if Leads(t, row) {
      LeadStays(t, u, row);
    } else {
      var d: nat :| LosesAt(base, head, d) && RowOf(t, row, head[d].event);
      assert head[..d] == deliveries[..d];
      ConsignmentStays(t, u, head[d].event.subject);
      assert LosesAt(base, deliveries, d) && RowOf(u, row, deliveries[d].event);
    }
  }

  lemma {:induction false} MilestonesLeadOrAreLost(base: Tables, deliveries: seq<Delivery>)
    requires OwnersMatch(base) && base.milestones == []
    ensures OwnersMatch(Run(base, deliveries))
    ensures forall k :: 0 <= k < |Run(base, deliveries).milestones| ==>
              LeadsOrLost(base, deliveries, Run(base, deliveries), Run(base, deliveries).milestones[k])
  {
    if deliveries != [] {
      var head, last := deliveries[..|deliveries| - 1], deliveries[|deliveries| - 1];
      MilestonesLeadOrAreLost(base, head);
      var t, u := Run(base, head), Run(base, deliveries);
      AddsAtMostOne(t, last.event, last.stop);
      NewMilestoneLeads(t, last.event, last.stop);
      forall k | 0 <= k < |u.milestones| ensures LeadsOrLost(base, deliveries, u, u.milestones[k]) {
        if k < |t.milestones| {
          assert u.milestones[k] == t.milestones[k];
          LeadsOrLostStays(base, deliveries, u.milestones[k]);
        } else {
          assert RowOf(u, u.milestones[k], last.event);
          assert LosesPointer(t, last.event, last.stop) ==> LosesAt(base, deliveries, |head|);
        }
      }
    }
  }

  lemma {:induction false} LostMilestonesAreStored(base: Tables, deliveries: seq<Delivery>, d: nat)
    requires OwnersMatch(base) && LosesAt(base, deliveries, d)
    ensures exists k :: 0 <= k < |Run(base, deliveries).milestones| &&
                        RowOf(Run(base, deliveries), Run(base, deliveries).milestones[k], deliveries[d].event)
  {
    var head, last := deliveries[..|deliveries| - 1], deliveries[|deliveries| - 1];
    var t, u := Run(base, head), Run(base, deliveries);
    RunKeepsOwners(base, head);
    if d < |head| {
      assert head[..d] == deliveries[..d];
      LostMilestonesAreStored(base, head, d);
      var k :| 0 <= k < |t.milestones| && RowOf(t, t.milestones[k], head[d].event);
      ProjectGrows(t, last.event, last.stop);
      ConsignmentStays(t, u, head[d].event.subject);
      assert u.milestones[k] == t.milestones[k];
    } else {
      AddsAtMostOne(t, last.event, last.stop);
      assert RowOf(u, u.milestones[|t.milestones|], last.event);
    }
  }

  lemma {:induction false} RunKeepsOwners(base: Tables, deliveries: seq<Delivery>)
    requires OwnersMatch(base)
    ensures OwnersMatch(Run(base, deliveries))
  {
    if deliveries != [] {
      var head, last := deliveries[..|deliveries| - 1], deliveries[|deliveries| - 1];
      RunKeepsOwners(base, head);
      AddsAtMostOne(Run(base, head), last.event, last.stop);
    }
  }

  lemma IdlePointers(t: Tables, e: Event, stop: Stop, booking: string)
    requires OwnersMatch(t) && !Rolls(t, e, stop)
    ensures LastMilestoneAt(Project(t, e, stop).0, booking) == LastMilestoneAt(t, booking)
  {
    var u := Project(t, e, stop).0;
    ProjectGrows(t, e, stop);
    SameFind(t.links, u.links, booking);
  }

  lemma RolledPointer(t: Tables, e: Event, stop: Stop, booking: string, at: int)
    requires OwnersMatch(t) && Rolls(t, e, stop)
    ensures var u := Project(t, e, stop).0;
            && ConsignmentOf(u, e.subject).Some?
            && (ConsignmentOf(u, booking) == ConsignmentOf(u, e.subject) ==>
                  (Reached(u, booking, at) <==> Reached(t, booking, at) || at <= e.occurredAt))
            && (ConsignmentOf(u, booking) != ConsignmentOf(u, e.subject) ==>
                  LastMilestoneAt(u, booking) == LastMilestoneAt(t, booking))
  {
    var u := Project(t, e, stop).0;
    ProjectGrows(t, e, stop);
    SameFind(t.links, u.links, booking);
    SameFind(t.links, u.links, e.subject);
  }

  lemma SharesExactlyWhen(base: Tables, t: Tables, booking: string, other: string)
    requires Fresh(base) && LinksExtend(base, t) && ConsignmentOf(t, other).Some?
    ensures ConsignmentOf(t, booking) == ConsignmentOf(t, other) <==> Shares(base, booking, other)
  {
    SameFind(base.links, t.links, booking);
    SameFind(base.links, t.links, other);
    if FindBookingLink(t.links, booking).Some? {
      var i, j := FindBookingLink(t.links, other).value, FindBookingLink(t.links, booking).value;
      SameConsignmentMeansShared(base, t, i, j);
    }
  }

  lemma PointerAfter(base: Tables, t: Tables, e: Event, stop: Stop, booking: string, at: int)
    requires Fresh(base) && OwnersMatch(t) && LinksExtend(base, Project(t, e, stop).0)
    ensures Reached(Project(t, e, stop).0, booking, at) <==>
            Reached(t, booking, at) || (Rolls(t, e, stop) && Shares(base, booking, e.subject) && at <= e.occurredAt)
  {
    if Rolls(t, e, stop) {
      RolledPointer(t, e, stop, booking, at);
      SharesExactlyWhen(base, Project(t, e, stop).0, booking, e.subject);
    } else {
      IdlePointers(t, e, stop, booking);
    }
  }

  lemma RolledToLast(base: Tables, deliveries: seq<Delivery>, booking: string, at: int)
    requires deliveries != []
    ensures var head, last := deliveries[..|deliveries| - 1], deliveries[|deliveries| - 1];
            RolledTo(base, deliveries, booking, at) <==>
              RolledTo(base, head, booking, at) ||
              (Rolls(Run(base, head), last.event, last.stop) && Shares(base, booking, last.event.subject) &&
               at <= last.event.occurredAt)
  {
    var head := deliveries[..|deliveries| - 1];
    forall d: nat | d < |head| ensures RollsAt(base, head, d) <==> RollsAt(base, deliveries, d) {
      assert head[..d] == deliveries[..d];
    }
    assert RollsAt(base, deliveries, |head|) <==>
           Rolls(Run(base, head), deliveries[|head|].event, deliveries[|head|].stop);
    if RolledTo(base, head, booking, at) {
      var d: nat :| RollsAt(base, head, d) && Shares(base, booking, head[d].event.subject) &&
                    at <= head[d].event.occurredAt;
      assert RollsAt(base, deliveries, d) && head[d] == deliveries[d];
    }
  }

  /** Where a pointer is, told by the deliveries alone: it has reached a time exactly when some first complete
      delivery on the consignment of its booking has at least that time. */
  lemma {:induction false} ReachedExactlyWhen(base: Tables, deliveries: seq<Delivery>, booking: string, at: int)
    requires Fresh(base)
    ensures Reached(Run(base, deliveries), booking, at) <==> RolledTo(base, deliveries, booking, at)
  {
    if deliveries != [] {
      var head, last := deliveries[..|deliveries| - 1], deliveries[|deliveries| - 1];
      ReachedExactlyWhen(base, head, booking, at);
      RolledToLast(base, deliveries, booking, at);
      RunKeepsOwners(base, head);
      RunKeepsInv(base, deliveries);
      PointerAfter(base, Run(base, head), last.event, last.stop, booking, at);
    }
  }

  /** Over a whole run with any crashes: at its end no milestone is later than its pointer exactly when
      every lost update has been overtaken. */
  lemma {:induction false} PointersLeadExactlyWhen(base: Tables, deliveries: seq<Delivery>)
    requires Fresh(base)
    ensures PointersLead(Run(base, deliveries)) <==> LossesOvertaken(base, deliveries)
  {
    var t := Run(base, deliveries);
    MilestonesLeadOrAreLost(base, deliveries);
    if PointersLead(t) {
      forall d: nat | LosesAt(base, deliveries, d)
        ensures RolledTo(base, deliveries, deliveries[d].event.subject, deliveries[d].event.occurredAt)
      {
        LostMilestonesAreStored(base, deliveries, d);
        var k :| 0 <= k < |t.milestones| && RowOf(t, t.milestones[k], deliveries[d].event);
        assert Leads(t, t.milestones[k]);
        ReachedExactlyWhen(base, deliveries, deliveries[d].event.subject, deliveries[d].event.occurredAt);
      }
    }
    if LossesOvertaken(base, deliveries) {
      forall k | 0 <= k < |t.milestones| ensures Leads(t, t.milestones[k]) {
        assert LeadsOrLost(base, deliveries, t, t.milestones[k]);
        if d: nat :| LosesAt(base, deliveries, d) && RowOf(t, t.milestones[k], deliveries[d].event) {
          ReachedExactlyWhen(base, deliveries, deliveries[d].event.subject, deliveries[d].event.occurredAt);
        }
      }
    }
  }

  /** Whenever the pointer moves, the consignment notes the event as a source; otherwise its sources stay. */
  lemma MovedPointerNotesItsSource(t: Tables, e: Event, stop: Stop, c: nat)
    requires c < |t.consignments| && OwnersMatch(t)
    ensures var u := Project(t, e, stop).0;
            && c < |u.consignments| && u.consignments[c].trader == t.consignments[c].trader
            && u.consignments[c].sourceEventIds
               == t.consignments[c].sourceEventIds
                  + (if u.consignments[c].lastMilestoneAt != t.consignments[c].lastMilestoneAt then [e.id] else [])
  {
  }

  /** A consignment created for a booking belongs to the trader who linked it, and its first source is the event; a
      pointer that it gets at once is that of the event. */
  lemma CreatedConsignment(t: Tables, e: Event, stop: Stop)
    requires |Project(t, e, stop).0.consignments| > |t.consignments|
    ensures var u, link := Project(t, e, stop).0, FindBookingLink(t.links, e.subject);
            && link.Some? && |u.consignments| == |t.consignments| + 1
            && var created := u.consignments[|t.consignments|];
            && created.trader == t.links[link.value].trader
            && created.lastMilestoneAt in {None, Some(e.occurredAt)}
            && created.lastMilestone == (if created.lastMilestoneAt.Some? then MilestoneOf(e.eventType) else None)
            && created.sourceEventIds == [e.id] + (if created.lastMilestoneAt.Some? then [e.id] else [])
  {
  }

  /** The pointer is the latest of the milestones that the booking shows. */
  lemma {:induction false} PointerIsTheMaximum(base: Tables, deliveries: seq<Delivery>, booking: string)
    requires Fresh(base) && LossesOvertaken(base, deliveries)
    ensures var t := Run(base, deliveries);
            var at, name, shown := LastMilestoneAt(t, booking), LastMilestone(t, booking), MilestonesOf(t, booking);
            && (at.Some? == name.Some? == (shown != {}))
            && (at.Some? ==> (forall key :: key in shown ==> key.occurredAt <= at.value) &&
                             exists key :: key in shown && key.occurredAt == at.value && key.milestone == name.value)
  {
    PointersLeadExactlyWhen(base, deliveries);
    RunKeepsInv(base, deliveries);
    ShownAreReached(Run(base, deliveries), booking);
    PointerIsShown(Run(base, deliveries), booking);
  }

  lemma ShownAreReached(t: Tables, booking: string)
    requires PointersLead(t)
    ensures forall key :: key in MilestonesOf(t, booking) ==> Reached(t, booking, key.occurredAt)
  {
    forall key | key in MilestonesOf(t, booking) ensures Reached(t, booking, key.occurredAt) {
      var k :| 0 <= k < |t.milestones| && ConsignmentOf(t, booking) == Some(t.milestones[k].consignment) &&
               KeyOf(t.milestones[k]) == key;
      assert Leads(t, t.milestones[k]);
    }
  }

  lemma PointerIsShown(t: Tables, booking: string)
    requires OwnersMatch(t)
    requires forall c :: 0 <= c < |t.consignments| ==> PointerOk(t.consignments[c], t.milestones, c)
    ensures LastMilestoneAt(t, booking).Some? == LastMilestone(t, booking).Some?
    ensures LastMilestoneAt(t, booking).Some? ==>
              exists key :: key in MilestonesOf(t, booking) && key.occurredAt == LastMilestoneAt(t, booking).value &&
                            key.milestone == LastMilestone(t, booking).value
  {
    if ConsignmentOf(t, booking).Some? {
      var c := ConsignmentOf(t, booking).value;
      assert PointerOk(t.consignments[c], t.milestones, c);
      if t.consignments[c].lastMilestoneAt.Some? {
        var k :| 0 <= k < |t.milestones| && t.milestones[k].consignment == c &&
                 t.milestones[k].occurredAt == t.consignments[c].lastMilestoneAt.value &&
                 t.milestones[k].milestone == t.consignments[c].lastMilestone.value;
        assert KeyOf(t.milestones[k]) in MilestonesOf(t, booking);
      }
    }
  }

  /** The pointers converge too, whatever crashes there were, once no lost update is left behind: the time
      always, and the name whenever no two milestones with different names share the latest time. */
  lemma {:induction false} PointersConverge(base: Tables, one: seq<Delivery>, other: seq<Delivery>, booking: string)
    requires Fresh(base) && EventsOf(one) == EventsOf(other)
    requires IdsIdentify(one) && EachCompletes(one) && IdsIdentify(other) && EachCompletes(other)
    requires LossesOvertaken(base, one) && LossesOvertaken(base, other)
    ensures LastMilestoneAt(Run(base, one), booking) == LastMilestoneAt(Run(base, other), booking)
    ensures (forall x, y :: x in MilestonesOf(Run(base, one), booking) && y in MilestonesOf(Run(base, one), booking) &&
                            LastMilestoneAt(Run(base, one), booking) == Some(x.occurredAt) == Some(y.occurredAt) ==>
                            x.milestone == y.milestone)
            ==> LastMilestone(Run(base, one), booking) == LastMilestone(Run(base, other), booking)
  {
    MilestonesConverge(base, one, other, booking);
    PointerIsTheMaximum(base, one, booking);
    PointerIsTheMaximum(base, other, booking);
  }

  lemma FirstMilestoneSetsThePointer(base: Tables, e: Event)
    requires Fresh(base) && FindBookingLink(base.links, e.subject).Some? && MilestoneOf(e.eventType).Some?
    ensures var once := Project(base, e, Never).0;
            && LastMilestone(once, e.subject) == MilestoneOf(e.eventType)
            && LastMilestoneAt(once, e.subject) == Some(e.occurredAt)
            && ConsignmentOf(once, e.subject).Some? && OwnersMatch(once)
            && (forall k :: 0 <= k < |once.milestones| ==> once.milestones[k].sourceEventId == e.id)
  {
    var once := Project(base, e, Never).0;
    ProjectGrows(base, e, Never);
    SameFind(base.links, once.links, e.subject);
  }

  /** A milestone of another event moves the pointer exactly when it is later. */
  lemma LaterMilestoneMovesThePointer(t: Tables, f: Event)
    requires OwnersMatch(t) && ConsignmentOf(t, f.subject).Some? && MilestoneOf(f.eventType).Some?
    requires forall k :: 0 <= k < |t.milestones| ==> t.milestones[k].sourceEventId != f.id
    requires LastMilestoneAt(t, f.subject).Some?
    ensures LastMilestone(Project(t, f, Never).0, f.subject)
            == if f.occurredAt > LastMilestoneAt(t, f.subject).value then MilestoneOf(f.eventType)
               else LastMilestone(t, f.subject)
  {
    var u := Project(t, f, Never).0;
    ProjectGrows(t, f, Never);
    SameFind(t.links, u.links, f.subject);
  }

  lemma NameOfTwo(base: Tables, e: Event, f: Event)
    requires Fresh(base) && FindBookingLink(base.links, e.subject).Some? && f.subject == e.subject
    requires MilestoneOf(e.eventType).Some? && MilestoneOf(f.eventType).Some? && e.id != f.id
    ensures LastMilestone(Project(Project(base, e, Never).0, f, Never).0, e.subject)
            == if f.occurredAt > e.occurredAt then MilestoneOf(f.eventType) else MilestoneOf(e.eventType)
  {
    FirstMilestoneSetsThePointer(base, e);
    LaterMilestoneMovesThePointer(Project(base, e, Never).0, f);
  }

  /** The name does depend on the order of delivery, exactly when two differently named milestones share
      the latest time: whichever comes first gives its name. */
  lemma NameDependsOnOrderOfTies(base: Tables, e: Event, f: Event)
    requires Fresh(base) && FindBookingLink(base.links, e.subject).Some? && f.subject == e.subject
    requires MilestoneOf(e.eventType).Some? && MilestoneOf(f.eventType).Some? && e.id != f.id
    ensures LastMilestone(Project(Project(base, e, Never).0, f, Never).0, e.subject)
            == LastMilestone(Project(Project(base, f, Never).0, e, Never).0, e.subject)
            <==> MilestoneOf(e.eventType) == MilestoneOf(f.eventType) || e.occurredAt != f.occurredAt
  {
    NameOfTwo(base, e, f);
    NameOfTwo(base, f, e);
  }

  /** The pointer update that a crash between insert and update has lost is not repaired: the booking shows
      the milestone, the pointer is behind it, and no redelivery of the event, complete or not, changes
      anything, although a complete delivery would have moved the pointer to it. */
  lemma LostPointerUpdateIsNotRepaired(t: Tables, e: Event, again: Stop)
    requires OwnersMatch(t) && LosesPointer(t, e, BeforeRoll)
    ensures var u := Project(t, e, BeforeRoll).0;
            && (exists key :: key in MilestonesOf(u, e.subject) && key.occurredAt == e.occurredAt &&
                              key.sourceEventId == e.id)
            && !Reached(u, e.subject, e.occurredAt)
            && Project(u, e, again).0 == u && Project(u, e, Never) == (u, Duplicate)
            && LastMilestoneAt(Project(t, e, Never).0, e.subject) == Some(e.occurredAt)
  {
    var u, whole := Project(t, e, BeforeRoll).0, Project(t, e, Never).0;
    ProjectGrows(t, e, BeforeRoll);
    ProjectGrows(t, e, Never);
    SameFind(t.links, u.links, e.subject);
    SameFind(t.links, whole.links, e.subject);
    AddsAtMostOne(t, e, BeforeRoll);
    NewMilestoneLeads(t, e, BeforeRoll);
    var c := u.milestones[|t.milestones|].consignment;
    assert MilestoneExists(u.milestones, c, e.id);
    assert KeyOf(u.milestones[|t.milestones|]) in MilestonesOf(u, e.subject);
  }

  lemma FirstMilestoneMayBeLost(base: Tables, e: Event)
    requires Fresh(base) && FindBookingLink(base.links, e.subject).Some? && MilestoneOf(e.eventType).Some?
    ensures LosesPointer(base, e, BeforeRoll) && LastMilestoneAt(Project(base, e, BeforeRoll).0, e.subject) == None
  {
    var u := Project(base, e, BeforeRoll).0;
    ProjectGrows(base, e, BeforeRoll);
    SameFind(base.links, u.links, e.subject);
  }

  /** One crash between insert and update, then complete deliveries. */
  function CrashAndRedeliver(e: Event, times: nat): seq<Delivery> {
    [Delivery(e, BeforeRoll)] + seq(times, _ => Delivery(e, Never))
  }

  lemma {:induction false} RedeliveryRepairsNothing(base: Tables, e: Event, times: nat)
    requires OwnersMatch(base) && LosesPointer(base, e, BeforeRoll)
    ensures Run(base, CrashAndRedeliver(e, times)) == Project(base, e, BeforeRoll).0
  {
    var deliveries := CrashAndRedeliver(e, times);
    if times == 0 {
      assert deliveries[..0] == [] && deliveries[0] == Delivery(e, BeforeRoll);
    } else {
      RedeliveryRepairsNothing(base, e, times - 1);
      assert deliveries[..|deliveries| - 1] == CrashAndRedeliver(e, times - 1);
      LostPointerUpdateIsNotRepaired(base, e, Never);
    }
  }

  /** So completing every event is not enough for the pointer: from any fresh base, the first event of a linked
      booking delivered with such a crash and then, any number of times, completely leaves a milestone shown
      and no pointer at all. */
  lemma PointerStaysBehind(base: Tables, e: Event, times: nat)
    requires Fresh(base) && FindBookingLink(base.links, e.subject).Some? && MilestoneOf(e.eventType).Some?
    ensures var u := Run(base, CrashAndRedeliver(e, times));
            && MilestonesOf(u, e.subject) != {} && LastMilestoneAt(u, e.subject) == None
            && !LossesOvertaken(base, CrashAndRedeliver(e, times))
  {
    var deliveries := CrashAndRedeliver(e, times);
    FirstMilestoneMayBeLost(base, e);
    RedeliveryRepairsNothing(base, e, times);
    LostPointerUpdateIsNotRepaired(base, e, Never);
    assert deliveries[..0] == [] && deliveries[0] == Delivery(e, BeforeRoll);
    assert LosesAt(base, deliveries, 0);
    ReachedExactlyWhen(base, deliveries, e.subject, e.occurredAt);
  }

  // ----- Display order -----

  datatype Shown = Shown(id: nat, milestone: Milestone, occurredAt: int)

  predicate DisplayOrder(a: Shown, b: Shown) {
    a.occurredAt < b.occurredAt || (a.occurredAt == b.occurredAt && a.id <= b.id)
  }

  /** Orders a consignment's milestones for display: by time, ties by row number. */
  function OrderMilestones(rows: seq<Shown>): seq<Shown> {
    Sort(rows, DisplayOrder)
  }

  /** The rows of consignment `c`, as the query returns them. */
  function RowsOf(rows: seq<MilestoneRow>, c: nat): (r: seq<Shown>)
    ensures forall x :: x in r <==>
              x.id < |rows| && rows[x.id].consignment == c &&
              x == Shown(x.id, rows[x.id].milestone, rows[x.id].occurredAt)
  {
    if rows == [] then []
    else
      var n := |rows| - 1;
      RowsOf(rows[..n], c)
      + (if rows[n].consignment == c then [Shown(n, rows[n].milestone, rows[n].occurredAt)] else [])
  }

  /** Whether the pointer shows the time of the last row in display order, and its name when no other
      name occurs at that time. */
  ghost predicate ShowsLast(state: Consignment, ordered: seq<Shown>) {
    && (ordered == [] <==> state.lastMilestoneAt.None?)
    && (ordered != [] ==>
          var last := ordered[|ordered| - 1];
          && state.lastMilestoneAt == Some(last.occurredAt)
          && ((forall x :: x in ordered && x.occurredAt == last.occurredAt ==> x.milestone == last.milestone) ==>
                state.lastMilestone == Some(last.milestone)))
  }

  lemma LatestRowIsLast(state: Consignment, rows: seq<MilestoneRow>, c: nat, ordered: seq<Shown>)
    requires PointerOk(state, rows, c) && Sorted(ordered, DisplayOrder)
    requires forall x :: x in ordered <==> x in RowsOf(rows, c)
    requires forall k :: 0 <= k < |rows| && rows[k].consignment == c ==>
               state.lastMilestoneAt.Some? && rows[k].occurredAt <= state.lastMilestoneAt.value
    ensures ShowsLast(state, ordered)
  {
    assert ordered != [] ==> ordered[0] in RowsOf(rows, c) && ordered[|ordered| - 1] in RowsOf(rows, c);
    if state.lastMilestoneAt.Some? {
      var k :| 0 <= k < |rows| && rows[k].consignment == c &&
               rows[k].occurredAt == state.lastMilestoneAt.value && rows[k].milestone == state.lastMilestone.value;
      var x := Shown(k, rows[k].milestone, rows[k].occurredAt);
      assert x in ordered;
      var p :| 0 <= p < |ordered| && ordered[p] == x;
      assert p < |ordered| - 1 ==> DisplayOrder(x, ordered[|ordered| - 1]);
    }
  }

  lemma DisplayOrderIsTotal()
    ensures TotalOrder(DisplayOrder)
  {
  }

  /** The display order holds every milestone of the consignment once, in order, and the pointer is its
      last row once no lost update is left behind. */
  lemma {:induction false} PointerIsTheLastInDisplayOrder(base: Tables, deliveries: seq<Delivery>, c: nat)
    requires Fresh(base) && LossesOvertaken(base, deliveries) && c < |Run(base, deliveries).consignments|
    ensures var t := Run(base, deliveries);
            var ordered := OrderMilestones(RowsOf(t.milestones, c));
            && (forall i, j :: 0 <= i < j < |ordered| ==>
                  ordered[i].occurredAt < ordered[j].occurredAt ||
                  (ordered[i].occurredAt == ordered[j].occurredAt && ordered[i].id <= ordered[j].id))
            && multiset(ordered) == multiset(RowsOf(t.milestones, c))
            && ShowsLast(t.consignments[c], ordered)
  {
    PointersLeadExactlyWhen(base, deliveries);
    RunKeepsInv(base, deliveries);
    var t := Run(base, deliveries);
    var rows := RowsOf(t.milestones, c);
    var ordered := OrderMilestones(rows);
    DisplayOrderIsTotal();
    SortSorts(rows, DisplayOrder);
    forall x ensures x in ordered <==> x in rows {
      assert x in multiset(ordered) <==> x in multiset(rows);
    }
    forall k | 0 <= k < |t.milestones| && t.milestones[k].consignment == c ensures Leads(t, t.milestones[k]) {
    }
    LatestRowIsLast(t.consignments[c], t.milestones, c, ordered);
  }

  // ----- Billing snapshots -----

  /** A positive amount of the extension counts; without one, a positive amount of the payload. */
  predicate Charges(e: Event, amount: int) {
    && amount > 0
    && (e.extensionAmount == Some(amount) ||
        (e.payloadAmount == Some(amount) && (e.extensionAmount.None? || e.extensionAmount.value <= 0)))
  }

  /** The snapshot that a billing event with a usable amount leaves. */
  predicate Bills(e: Event, row: Snapshot) {
    && (e.eventType == (match row.status case PAID => BookingPaid case REFUNDED => BookingRefunded))
    && row.booking == e.subject && row.sourceEventId == e.id && Charges(e, row.amount)
  }

  lemma BillsWhatIsProjected(e: Event, row: Snapshot)
    ensures Bills(e, row) <==>
            && BillingStatusOf(e.eventType).Some? && AmountOf(e).Some?
            && row == Snapshot(e.subject, AmountOf(e).value, BillingStatusOf(e.eventType).value, e.id)
  {
  }

  lemma ProjectBills(t: Tables, e: Event, stop: Stop, row: Snapshot)
    requires forall k :: 0 <= k < |t.billing| && t.billing[k].sourceEventId == e.id ==> Bills(e, t.billing[k])
    ensures row in Project(t, e, stop).0.billing <==> row in t.billing || Bills(e, row)
  {
    var u := Project(t, e, stop).0;
    BillsWhatIsProjected(e, row);
    if BillingStatusOf(e.eventType).Some? && AmountOf(e).Some? {
      if SnapshotExists(t.billing, e.id) {
        var k :| 0 <= k < |t.billing| && t.billing[k].sourceEventId == e.id;
        assert t.billing[k] in t.billing;
        BillsWhatIsProjected(e, t.billing[k]);
      } else {
        assert u.billing[|t.billing|] in u.billing;
      }
    }
  }

  lemma EventsOfLast(deliveries: seq<Delivery>)
    requires deliveries != []
    ensures EventsOf(deliveries) == EventsOf(deliveries[..|deliveries| - 1]) + iset{deliveries[|deliveries| - 1].event}
  {
    var head := deliveries[..|deliveries| - 1];
    forall e | e in EventsOf(deliveries) ensures e in EventsOf(head) || e == deliveries[|deliveries| - 1].event {
      var d :| 0 <= d < |deliveries| && deliveries[d].event == e;
      assert d < |head| ==> head[d] == deliveries[d];
    }
    forall e | e in EventsOf(head) ensures e in EventsOf(deliveries) {
      var d :| 0 <= d < |head| && head[d].event == e;
      assert deliveries[d].event == e;
    }
  }

  ghost predicate BilledOnce(billing: seq<Snapshot>) {
    forall i, j :: 0 <= i < j < |billing| ==> billing[i].sourceEventId != billing[j].sourceEventId
  }

  lemma ProjectBillsOnce(t: Tables, e: Event, stop: Stop)
    requires BilledOnce(t.billing)
    ensures BilledOnce(Project(t, e, stop).0.billing)
  {
  }

  /** In every run an event is billed at most once. */
  lemma {:induction false} BilledAtMostOnce(base: Tables, deliveries: seq<Delivery>)
    requires Fresh(base)
    ensures BilledOnce(Run(base, deliveries).billing)
  {
    if deliveries != [] {
      var head, last := deliveries[..|deliveries| - 1], deliveries[|deliveries| - 1];
      BilledAtMostOnce(base, head);
      ProjectBillsOnce(Run(base, head), last.event, last.stop);
    }
  }

  lemma SnapshotsOfEvent(deliveries: seq<Delivery>, billing: seq<Snapshot>, k: nat)
    requires deliveries != [] && IdsIdentify(deliveries) && k < |billing|
    requires exists e :: e in EventsOf(deliveries[..|deliveries| - 1]) && Bills(e, billing[k])
    requires billing[k].sourceEventId == deliveries[|deliveries| - 1].event.id
    ensures Bills(deliveries[|deliveries| - 1].event, billing[k])
  {
    var head := deliveries[..|deliveries| - 1];
    var e :| e in EventsOf(head) && Bills(e, billing[k]);
    var d :| 0 <= d < |head| && head[d].event == e;
    assert deliveries[d].event.id == deliveries[|deliveries| - 1].event.id;
  }

  /** In every run the billing snapshots are exactly those of the delivered billing events with a positive
      amount, however often and in whatever order they were delivered. */
  lemma {:induction false} BillingIsExact(base: Tables, deliveries: seq<Delivery>, row: Snapshot)
    requires Fresh(base) && IdsIdentify(deliveries)
    ensures row in Run(base, deliveries).billing <==> exists e :: e in EventsOf(deliveries) && Bills(e, row)
  {
    if deliveries != [] {
      var head, last := deliveries[..|deliveries| - 1], deliveries[|deliveries| - 1];
      var billing := Run(base, head).billing;
      EventsOfLast(deliveries);
      BillingIsExact(base, head, row);
      forall k | 0 <= k < |billing| && billing[k].sourceEventId == last.event.id ensures Bills(last.event, billing[k]) {
        BillingIsExact(base, head, billing[k]);
        SnapshotsOfEvent(deliveries, billing, k);
      }
      ProjectBills(Run(base, head), last.event, last.stop, row);
      assert last.event in EventsOf(deliveries);
      assert forall e :: e in EventsOf(deliveries) <==> e in EventsOf(head) || e == last.event;
    }
  }
}
