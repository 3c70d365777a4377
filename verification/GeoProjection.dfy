/**
 * The vessel-position consumer: one partition of the log, at-least-once delivery, and offsets that are
 * committed by the handler only.
 *
 * A record's event identifier and content are fixed in the log; whether the envelope verifies depends
 * on the trust keys of the session that delivers it. A handler that returns without committing does not
 * stop the partition: the session goes on to the next record, and only a restart goes back to the
 * committed offset.
 */
module GeoProjection {
  // ----- The log and the tables -----

  datatype PositionRow = PositionRow(mmsi: string, latitudeMicros: int, longitudeMicros: int,
                                     recordedAt: int, positionReportId: string)

  /** What a record holds once its envelope has been verified. */
  datatype Content =
    | Position(eventId: string, row: PositionRow)
    | MalformedPosition(eventId: string)
    | OtherEvent(eventId: string)

  /** A tombstone is a record without a value. */
  datatype Record = Tombstone | Value(content: Content)

  /** How a write ends for the handler: an error may hide a write that did take effect. */
  datatype Reply = Done | NoEffect | LostReply

  /** `keysUsable` and `verifies` are decided by the keys of the session, the rest by the environment. */
  datatype Luck = Luck(keysUsable: bool, verifies: bool, dlq: Reply, dbUp: bool, write: Reply, commitDone: bool)

  datatype Keyring = Unparsed | Parsed | Failed

  /** `dlq` lists the offsets published to the dead-letter topic; `acknowledged` is history: the offsets of
      verified non-position events that were passed over. */
  datatype State = State(keys: Keyring, table: map<string, PositionRow>, dlq: seq<nat>, acknowledged: set<nat>,
                         committed: nat)

  function Commit(s: State, offset: nat, luck: Luck): State {
    if luck.commitDone then s.(committed := offset + 1) else s
  }

  /** The insert does nothing when a row with this event identifier exists. */
  function InsertPosition(s: State, eventId: string, row: PositionRow): State {
    if eventId in s.table then s else s.(table := s.table[eventId := row])
  }

  function Reject(s: State, offset: nat, luck: Luck): State {
    match luck.dlq
    case NoEffect => s
    case LostReply => s.(dlq := s.dlq + [offset])
    case Done => Commit(s.(dlq := s.dlq + [offset]), offset, luck)
  }

  function ParseKeys(s: State, luck: Luck): State {
    if s.keys == Unparsed then s.(keys := if luck.keysUsable then Parsed else Failed) else s
  }

  /** One call of the handler. */
  function Handle(s: State, record: Record, offset: nat, luck: Luck): State {
    if record.Tombstone? then s
    else
      var t := ParseKeys(s, luck);
      if t.keys != Parsed then t
      else if !luck.verifies then Reject(t, offset, luck)
      else
        match record.content
        case OtherEvent(_) => Commit(t.(acknowledged := t.acknowledged + {offset}), offset, luck)
        case MalformedPosition(_) => Reject(t, offset, luck)
        case Position(eventId, row) =>
          if !luck.dbUp || luck.write == NoEffect then t
          else if luck.write == LostReply then InsertPosition(t, eventId, row)
          else Commit(InsertPosition(t, eventId, row), offset, luck)
  }

  class GeoVesselConsumer {
    var keys: Keyring
    var table: map<string, PositionRow>
    var dlq: seq<nat>
    ghost var acknowledged: set<nat>
    var committed: nat

    ghost function View(): State
      reads this
    {
      State(keys, table, dlq, acknowledged, committed)
    }

    constructor (start: nat)
      ensures View() == State(Unparsed, map[], [], {}, start)
    {
      keys, table, dlq, acknowledged, committed := Unparsed, map[], [], {}, start;
    }

    method CommitOffset(offset: nat, luck: Luck)
      modifies this`committed
      ensures committed == if luck.commitDone then offset + 1 else old(committed)
    {
      if luck.commitDone {
        committed := offset + 1;
      }
    }

    method ToDlq(offset: nat, luck: Luck) returns (published: bool)
      modifies this`dlq
      ensures published == (luck.dlq == Done)
      ensures dlq == if luck.dlq == NoEffect then old(dlq) else old(dlq) + [offset]
    {
      if luck.dlq != NoEffect {
        dlq := dlq + [offset];
      }
      published := luck.dlq == Done;
    }

    method ProjectVesselPosition(eventId: string, row: PositionRow) returns (inserted: bool)
      modifies this`table
      ensures inserted <==> eventId !in old(table)
      ensures table == if inserted then old(table)[eventId := row] else old(table)
    {
      inserted := eventId !in table;
      if inserted {
        table := table[eventId := row];
      }
    }

    method EachMessage(record: Record, offset: nat, luck: Luck)
      modifies this
      ensures View() == Handle(old(View()), record, offset, luck)
    {
      if record.Tombstone? {
        return;
      }
      if keys == Unparsed {
        keys := if luck.keysUsable then Parsed else Failed;
      }
      if keys != Parsed {
        return;
      }
      if !luck.verifies {
        var published := ToDlq(offset, luck);
        if !published {
          return;
        }
        CommitOffset(offset, luck);
        return;
      }
      match record.content
      case OtherEvent(_) =>
        acknowledged := acknowledged + {offset};
        CommitOffset(offset, luck);
      case MalformedPosition(_) =>
        var published := ToDlq(offset, luck);
        if !published {
          return;
        }
        CommitOffset(offset, luck);
      case Position(eventId, row) =>
        if !luck.dbUp {
          return;
        }
        if luck.write != NoEffect {
          var _ := ProjectVesselPosition(eventId, row);
        }
        if luck.write == Done {
          CommitOffset(offset, luck);
        }
    }
  }

  // ----- Durable outcomes -----

  /** The record needs nothing more: it is in the table, in the dead-letter topic, or acknowledged. */
  ghost predicate Settled(s: State, log: seq<Record>, offset: nat) {
    offset < |log| && log[offset].Value? ==>
      || (log[offset].content.Position? && log[offset].content.eventId in s.table)
      || offset in s.dlq
      || offset in s.acknowledged
  }

  /** Rows, dead letters and acknowledgements are never withdrawn, and a row is never replaced. */
  ghost predicate Keeps(s: State, t: State) {
    && (forall id :: id in s.table ==> id in t.table && t.table[id] == s.table[id])
    && s.dlq <= t.dlq && s.acknowledged <= t.acknowledged
  }

  lemma HandleKeeps(s: State, record: Record, offset: nat, luck: Luck)
    ensures Keeps(s, Handle(s, record, offset, luck))
  {
  }

  /** A commit past a record is issued only after the record has a durable outcome. */
  lemma CommitsOnlyAfterSettling(s: State, log: seq<Record>, offset: nat, luck: Luck)
    requires offset < |log|
    ensures var t := Handle(s, log[offset], offset, luck);
            t.committed != s.committed ==> t.committed == offset + 1 && log[offset].Value? && Settled(t, log, offset)
  {
    var t := Handle(s, log[offset], offset, luck);
    if t.dlq != s.dlq {
      assert t.dlq[|s.dlq|] == offset;
    }
  }

  // ----- What one delivery does -----

  /** The keys of the session parse, at this delivery or before. */
  predicate HasKeys(s: State, luck: Luck) {
    s.keys == Parsed || (s.keys == Unparsed && luck.keysUsable)
  }

  /** The delivery writes the row of event `id`, or would if the table did not have it. */
  predicate Writes(s: State, record: Record, luck: Luck, id: string) {
    && record.Value? && HasKeys(s, luck) && luck.verifies
    && record.content.Position? && record.content.eventId == id && luck.dbUp && luck.write != NoEffect
  }

  predicate IsRejected(record: Record, luck: Luck) {
    record.Value? && (!luck.verifies || record.content.MalformedPosition?)
  }

  /** The delivery gives its record a durable outcome: whether it commits does not matter. */
  predicate Settles(s: State, record: Record, luck: Luck) {
    && record.Value? && HasKeys(s, luck)
    && (if IsRejected(record, luck) then luck.dlq != NoEffect
        else record.content.Position? ==> luck.dbUp && luck.write != NoEffect)
  }

  /** The delivery comes to its commit, and the commit succeeds. */
  predicate Commits(s: State, record: Record, luck: Luck) {
    && record.Value? && HasKeys(s, luck) && luck.commitDone
    && (if IsRejected(record, luck) then luck.dlq == Done
        else record.content.Position? ==> luck.dbUp && luck.write == Done)
  }

  lemma SettledAfterDelivery(s: State, log: seq<Record>, offset: nat, luck: Luck)
    requires offset < |log| && log[offset].Value?
    ensures Settled(Handle(s, log[offset], offset, luck), log, offset)
            <==> Settled(s, log, offset) || Settles(s, log[offset], luck)
  {
    var t := Handle(s, log[offset], offset, luck);
    HandleKeeps(s, log[offset], offset, luck);
    if t.dlq != s.dlq {
      assert t.dlq[|s.dlq|] == offset;
    }
    assert forall o :: o in t.dlq ==> o in s.dlq || o == offset;
  }

  // ----- Runs of one consumer -----

  /** `next` is the offset that the session delivers next. */
  datatype Session = Session(state: State, next: nat)

  datatype Step = Deliver(luck: Luck) | Restart

  /** A restart goes back to the committed offset and parses the keys anew. */
  function Next(x: Session, log: seq<Record>, step: Step): Session {
    match step
    case Restart => Session(x.state.(keys := Unparsed), x.state.committed)
    case Deliver(luck) =>
      if x.next >= |log| then x else Session(Handle(x.state, log[x.next], x.next, luck), x.next + 1)
  }

  function Run(x: Session, log: seq<Record>, steps: seq<Step>): Session {
    if steps == [] then x else Next(Run(x, log, steps[..|steps| - 1]), log, steps[|steps| - 1])
  }

  function Start(at: nat): Session {
    Session(State(Unparsed, map[], [], {}, at), at)
  }

  /** The step delivers a record that has no durable outcome, and does not give it one. */
  ghost predicate LeavesUnsettled(x: Session, log: seq<Record>, step: Step) {
    && step.Deliver? && x.next < |log|
    && !Settled(x.state, log, x.next) && !Settles(x.state, log[x.next], step.luck)
  }

  /** The hypothesis on a run: every such delivery is followed by a restart. A handler that returns without a
      commit after the row, the dead letter or the acknowledgement is stored needs none. */
  ghost predicate RestartsAfterFailures(x: Session, log: seq<Record>, steps: seq<Step>) {
    |steps| < 2 ||
    (&& RestartsAfterFailures(x, log, steps[..|steps| - 1])
     && (LeavesUnsettled(Run(x, log, steps[..|steps| - 2]), log, steps[|steps| - 2]) ==>
         steps[|steps| - 1] == Restart))
  }

  /** Everything from `at` up to, but not including, `end` is settled. */
  ghost predicate SettledUpTo(s: State, log: seq<Record>, at: nat, end: int) {
    forall offset: nat :: at <= offset < end ==> Settled(s, log, offset)
  }

  lemma SettledStays(s: State, t: State, log: seq<Record>, at: nat, end: int)
    requires SettledUpTo(s, log, at, end) && Keeps(s, t)
    ensures SettledUpTo(t, log, at, end)
  {
    forall offset: nat | at <= offset < end ensures Settled(t, log, offset) {
      assert Settled(s, log, offset);
    }
  }

  ghost predicate LastStepFails(x: Session, log: seq<Record>, steps: seq<Step>) {
    steps != [] && LeavesUnsettled(Run(x, log, steps[..|steps| - 1]), log, steps[|steps| - 1])
  }

  /** Unless the last delivery left its record unsettled, all that the session has passed is settled; if it
      did, all but that one record is. */
  lemma {:induction false} PassedRecordsAreSettled(at: nat, log: seq<Record>, steps: seq<Step>)
    requires RestartsAfterFailures(Start(at), log, steps)
    ensures var x := Run(Start(at), log, steps);
            && at <= x.state.committed <= x.next
            && (LastStepFails(Start(at), log, steps) ==> x.state.committed < x.next)
            && SettledUpTo(x.state, log, at, if LastStepFails(Start(at), log, steps) then x.next - 1 else x.next)
  {
    if steps != [] {
      var head, last := steps[..|steps| - 1], steps[|steps| - 1];
      var y, x := Run(Start(at), log, head), Run(Start(at), log, steps);
      if |steps| >= 2 {
        assert head[..|head| - 1] == steps[..|steps| - 2];
      }
      PassedRecordsAreSettled(at, log, head);
      if last.Restart? {
        SettledStays(y.state, x.state, log, at, y.state.committed);
      } else {
        assert !LastStepFails(Start(at), log, head);
        if y.next < |log| {
          HandleKeeps(y.state, log[y.next], y.next, last.luck);
          CommitsOnlyAfterSettling(y.state, log, y.next, last.luck);
          if log[y.next].Value? {
            SettledAfterDelivery(y.state, log, y.next, last.luck);
          }
          SettledStays(y.state, x.state, log, at, y.next);
        }
      }
    }
  }

  /** If every delivery that leaves its record unsettled is followed by a restart, every record with a value
      below the committed offset has a durable outcome. */
  lemma {:induction false} CommittedPrefixIsSettled(at: nat, log: seq<Record>, steps: seq<Step>, offset: nat)
    requires RestartsAfterFailures(Start(at), log, steps)
    requires at <= offset < Run(Start(at), log, steps).state.committed
    ensures Settled(Run(Start(at), log, steps).state, log, offset)
  {
    PassedRecordsAreSettled(at, log, steps);
  }

  lemma OtherMarksStay(s: State, record: Record, offset: nat, other: nat, luck: Luck)
    requires other != offset
    ensures var t := Handle(s, record, other, luck);
            (offset in t.dlq <==> offset in s.dlq) && (offset in t.acknowledged <==> offset in s.acknowledged)
  {
  }

  lemma RowIsWritten(s: State, record: Record, offset: nat, luck: Luck, id: string)
    ensures id in Handle(s, record, offset, luck).table <==> id in s.table || Writes(s, record, luck, id)
  {
  }

  lemma SettledByAnotherDelivery(s: State, log: seq<Record>, offset: nat, other: nat, luck: Luck)
    requires offset < |log| && log[offset].Value? && other < |log| && other != offset
    ensures Settled(Handle(s, log[other], other, luck), log, offset)
            <==> Settled(s, log, offset) ||
                 (log[offset].content.Position? && Writes(s, log[other], luck, log[offset].content.eventId))
  {
    OtherMarksStay(s, log[other], offset, other, luck);
    if log[offset].content.Position? {
      RowIsWritten(s, log[other], other, luck, log[offset].content.eventId);
    }
  }

  lemma CommitsExactlyWhen(s: State, record: Record, offset: nat, luck: Luck)
    requires s.committed != offset + 1
    ensures Handle(s, record, offset, luck).committed == (if Commits(s, record, luck) then offset + 1 else s.committed)
  {
  }

  /** Without that restart the session goes on, and the commit of the next record may pass over one that has
      no durable outcome. This happens exactly when the first delivery leaves its record unsettled, the second
      commits, and the second does not write the row of the same event. */
  lemma WithoutRestartAFailureIsPassedOver(x: Session, log: seq<Record>, first: Luck, second: Luck)
    requires x.next + 1 < |log| && log[x.next].Value? && x.state.committed <= x.next
    ensures var y := Next(x, log, Deliver(first)).state;
            var z := Next(Next(x, log, Deliver(first)), log, Deliver(second)).state;
            z.committed > x.next && !Settled(z, log, x.next) <==>
              && LeavesUnsettled(x, log, Deliver(first)) && Commits(y, log[x.next + 1], second)
              && !(log[x.next].content.Position? && Writes(y, log[x.next + 1], second, log[x.next].content.eventId))
  {
    var y := Next(x, log, Deliver(first)).state;
    SettledAfterDelivery(x.state, log, x.next, first);
    SettledByAnotherDelivery(y, log, x.next, x.next + 1, second);
    CommitsExactlyWhen(x.state, log[x.next], x.next, first);
    CommitsExactlyWhen(y, log[x.next + 1], x.next + 1, second);
  }

  /** Once the keys of a session have failed to parse, nothing is stored or committed until a restart. */
  lemma {:induction false} FailedKeysBlockTheSession(x: Session, log: seq<Record>, steps: seq<Step>)
    requires x.state.keys == Failed && Restart !in steps
    ensures Run(x, log, steps).state == x.state
  {
    if steps != [] {
      FailedKeysBlockTheSession(x, log, steps[..|steps| - 1]);
      assert steps[|steps| - 1] in steps;
    }
  }

  /** After a restart the first record with a value parses the keys anew. */
  lemma RestartParsesAnew(x: Session, log: seq<Record>, luck: Luck)
    requires x.state.committed < |log| && log[x.state.committed].Value?
    ensures Next(Next(x, log, Restart), log, Deliver(luck)).state.keys == if luck.keysUsable then Parsed else Failed
  {
  }

  // ----- Redelivery -----

  /** Redelivering a record changes the table exactly when it verifies now, is a position that the table
      does not have yet, and the write takes effect. In particular a record whose outcome was a row never
      changes it, whereas one that went to the dead-letter topic under other keys may. */
  lemma RedeliveryChangesTableExactlyWhen(s: State, record: Record, offset: nat, luck: Luck)
    ensures Handle(s, record, offset, luck).table != s.table <==>
            && record.Value? && ParseKeys(s, luck).keys == Parsed && luck.verifies
            && record.content.Position? && record.content.eventId !in s.table && luck.dbUp && luck.write != NoEffect
  {
    if record.Value? && record.content.Position? && record.content.eventId !in s.table {
      var inserted := InsertPosition(s, record.content.eventId, record.content.row);
      assert record.content.eventId in inserted.table;
    }
  }

  /** A record verifies in one session if and only if it verifies in every other. */
  ghost predicate StableVerdict(verdict: nat -> bool, x: Session, step: Step) {
    step.Deliver? ==> step.luck.verifies == verdict(x.next)
  }

  ghost predicate StableRun(verdict: nat -> bool, x: Session, log: seq<Record>, steps: seq<Step>) {
    steps == [] ||
    (StableRun(verdict, x, log, steps[..|steps| - 1]) &&
     StableVerdict(verdict, Run(x, log, steps[..|steps| - 1]), steps[|steps| - 1]))
  }

  /** The outcome of a record is the one its verdict calls for. */
  ghost predicate SettledAs(verdict: nat -> bool, s: State, log: seq<Record>, offset: nat) {
    offset < |log| && log[offset].Value? && verdict(offset) &&
    log[offset].content.Position? && Settled(s, log, offset) ==>
      log[offset].content.eventId in s.table
  }

  lemma {:induction false} StableOutcomes(verdict: nat -> bool, at: nat, log: seq<Record>, steps: seq<Step>,
                                          offset: nat)
    requires StableRun(verdict, Start(at), log, steps)
    ensures SettledAs(verdict, Run(Start(at), log, steps).state, log, offset)
  {
    if steps != [] {
      var head, last := steps[..|steps| - 1], steps[|steps| - 1];
      StableOutcomes(verdict, at, log, head, offset);
      var y := Run(Start(at), log, head);
      if last.Deliver? && y.next < |log| {
        HandleKeeps(y.state, log[y.next], y.next, last.luck);
      }
    }
  }

  /** When verdicts do not change and failures are followed by restarts, delivering any record below the
      committed offset again leaves the table as it is. */
  lemma {:induction false} RedeliveryIsIdempotent(verdict: nat -> bool, at: nat, log: seq<Record>, steps: seq<Step>,
                                                  offset: nat, luck: Luck)
    requires StableRun(verdict, Start(at), log, steps) && RestartsAfterFailures(Start(at), log, steps)
    requires at <= offset < Run(Start(at), log, steps).state.committed && offset < |log|
    requires luck.verifies == verdict(offset)
    ensures var s := Run(Start(at), log, steps).state;
            Handle(s, log[offset], offset, luck).table == s.table
  {
    CommittedPrefixIsSettled(at, log, steps, offset);
    StableOutcomes(verdict, at, log, steps, offset);
    RedeliveryChangesTableExactlyWhen(Run(Start(at), log, steps).state, log[offset], offset, luck);
  }

  // ----- What the table holds -----

  /** The first verified position of event `id` at or after `at`. */
  ghost predicate IsFirst(verdict: nat -> bool, at: nat, log: seq<Record>, o: nat, id: string) {
    && at <= o && IsPositionOf(verdict, log, o, id)
    && forall j: nat :: at <= j < o ==> !IsPositionOf(verdict, log, j, id)
  }

  ghost predicate IsPositionOf(verdict: nat -> bool, log: seq<Record>, o: nat, id: string) {
    o < |log| && log[o].Value? && verdict(o) && log[o].content.Position? && log[o].content.eventId == id
  }

  ghost predicate HoldsFirstRows(verdict: nat -> bool, at: nat, log: seq<Record>, s: State) {
    forall id :: id in s.table ==> exists o: nat ::
        IsFirst(verdict, at, log, o, id) && s.table[id] == log[o].content.row
  }

  lemma DeliveryStoresAFirstRow(verdict: nat -> bool, at: nat, log: seq<Record>, s: State, o: nat, luck: Luck)
    requires HoldsFirstRows(verdict, at, log, s) && at <= o < |log| && luck.verifies == verdict(o)
    requires SettledUpTo(s, log, at, o) && forall j: nat :: SettledAs(verdict, s, log, j)
    ensures HoldsFirstRows(verdict, at, log, Handle(s, log[o], o, luck))
  {
    var t := Handle(s, log[o], o, luck);
    RedeliveryChangesTableExactlyWhen(s, log[o], o, luck);
    if t.table != s.table {
      var id := log[o].content.eventId;
      forall j: nat | at <= j < o ensures !IsPositionOf(verdict, log, j, id) {
        assert Settled(s, log, j) && SettledAs(verdict, s, log, j);
      }
      assert IsFirst(verdict, at, log, o, id);
      assert t.table == s.table[id := log[o].content.row];
    }
  }

  /** Whatever is delivered again after however many failures and restarts, every row of the table is that
      of the first verified position of its event. */
  lemma {:induction false} RowsAreFirstRows(verdict: nat -> bool, at: nat, log: seq<Record>, steps: seq<Step>)
    requires StableRun(verdict, Start(at), log, steps) && RestartsAfterFailures(Start(at), log, steps)
    ensures HoldsFirstRows(verdict, at, log, Run(Start(at), log, steps).state)
  {
    if steps != [] {
      var head, last := steps[..|steps| - 1], steps[|steps| - 1];
      var y := Run(Start(at), log, head);
      RowsAreFirstRows(verdict, at, log, head);
      if last.Deliver? && y.next < |log| {
        if |steps| >= 2 {
          assert head[..|head| - 1] == steps[..|steps| - 2];
        }
        assert !LastStepFails(Start(at), log, head);
        PassedRecordsAreSettled(at, log, head);
        forall j: nat ensures SettledAs(verdict, y.state, log, j) {
          StableOutcomes(verdict, at, log, head, j);
        }
        DeliveryStoresAFirstRow(verdict, at, log, y.state, y.next, last.luck);
      }
    }
  }

  /** The session has passed the end of the log, and the last record did not fail. */
  ghost predicate Consumed(at: nat, log: seq<Record>, steps: seq<Step>) {
    Run(Start(at), log, steps).next >= |log| && !LastStepFails(Start(at), log, steps)
  }

  lemma ConsumedTableIsComplete(verdict: nat -> bool, at: nat, log: seq<Record>, steps: seq<Step>, id: string)
    requires StableRun(verdict, Start(at), log, steps) && RestartsAfterFailures(Start(at), log, steps)
    requires Consumed(at, log, steps)
    ensures id in Run(Start(at), log, steps).state.table <==> exists o: nat :: IsFirst(verdict, at, log, o, id)
  {
    RowsAreFirstRows(verdict, at, log, steps);
    if o: nat :| IsFirst(verdict, at, log, o, id) {
      PassedRecordsAreSettled(at, log, steps);
      StableOutcomes(verdict, at, log, steps, o);
      assert Settled(Run(Start(at), log, steps).state, log, o);
    }
  }

  /** Two sessions that consume the same log end with the same table, whatever failures, lost replies and
      restarts either of them had on the way. */
  lemma ConsumersConverge(verdict: nat -> bool, at: nat, log: seq<Record>, one: seq<Step>, other: seq<Step>)
    requires StableRun(verdict, Start(at), log, one) && RestartsAfterFailures(Start(at), log, one)
    requires StableRun(verdict, Start(at), log, other) && RestartsAfterFailures(Start(at), log, other)
    requires Consumed(at, log, one) && Consumed(at, log, other)
    ensures Run(Start(at), log, one).state.table == Run(Start(at), log, other).state.table
  {
    var s, t := Run(Start(at), log, one).state, Run(Start(at), log, other).state;
    RowsAreFirstRows(verdict, at, log, one);
    RowsAreFirstRows(verdict, at, log, other);
    forall id ensures id in s.table <==> id in t.table {
      ConsumedTableIsComplete(verdict, at, log, one, id);
      ConsumedTableIsComplete(verdict, at, log, other, id);
    }
  }

  // ----- Progress -----

  /** Everything the delivery needs works. */
  predicate Smooth(step: Step) {
    && step.Deliver? && step.luck.keysUsable && step.luck.dlq == Done && step.luck.dbUp
    && step.luck.write == Done && step.luck.commitDone
  }

  ghost predicate CommittedPast(s: State, log: seq<Record>, at: nat, end: nat) {
    forall o: nat :: at <= o < end && o < |log| && log[o].Value? ==> o < s.committed
  }

  /** As long as everything works, each delivery moves on, and the committed offset passes every record that
      has a value: one that verifies and one that does not, a position and any other event. */
  lemma {:induction false} SmoothRunsConsume(at: nat, log: seq<Record>, steps: seq<Step>)
    requires forall k :: 0 <= k < |steps| ==> Smooth(steps[k])
    requires at <= |log|
    ensures var x := Run(Start(at), log, steps);
            && x.next == (if at + |steps| <= |log| then at + |steps| else |log|)
            && x.state.keys != Failed
            && CommittedPast(x.state, log, at, x.next)
            && !LastStepFails(Start(at), log, steps) && RestartsAfterFailures(Start(at), log, steps)
  {
    if steps != [] {
      var head, last := steps[..|steps| - 1], steps[|steps| - 1];
      SmoothRunsConsume(at, log, head);
      if |steps| >= 2 {
        assert head[..|head| - 1] == steps[..|steps| - 2];
        assert head[|head| - 1] == steps[|steps| - 2];
      }
    }
  }
}
