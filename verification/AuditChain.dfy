/**
 * The audit log: every entry of an entity carries the hash of the entry before it and the hash of its own
 * content, so that the trail can be verified later.
 *
 * The digest and the rendering of a timestamp are parameters (`Codec`). A hash input is taken as the seven
 * fields joined with '|'.
 */
module AuditChain {
  import opened Wrappers
  import opened Numerals

  datatype Codec = Codec(digest: string -> string, iso: int -> string)

  /** The hashed content that the caller supplies; `stateText` is the JSON text of the new state. */
  datatype Event = Event(entityType: string, entityId: int, action: string, actorId: Option<int>, stateText: string)

  /** One row. `unhashed` stands for the columns that the hash leaves out: previous state, actor type,
      address, user agent and metadata. */
  datatype Entry = Entry(event: Event, createdAt: int, prevHash: Option<string>, entryHash: string, unhashed: string)

  function Join(fields: seq<string>): string
    requires fields != []
  {
    if |fields| == 1 then fields[0] else fields[0] + "|" + Join(fields[1..])
  }

  function OrEmpty(h: Option<string>): string {
    if h.Some? then h.value else ""
  }

  function Fields(c: Codec, event: Event, createdAt: int, prevHash: Option<string>): seq<string> {
    [event.entityType, Decimal(event.entityId), event.action,
     if event.actorId.Some? then Decimal(event.actorId.value) else "",
     c.iso(createdAt), OrEmpty(prevHash), event.stateText]
  }

  function HashInput(c: Codec, event: Event, createdAt: int, prevHash: Option<string>): string {
    Join(Fields(c, event, createdAt, prevHash))
  }

  function InputOf(c: Codec, e: Entry): string {
    HashInput(c, e.event, e.createdAt, e.prevHash)
  }

  function MakeEntry(c: Codec, event: Event, createdAt: int, prevHash: Option<string>, unhashed: string): Entry {
    Entry(event, createdAt, prevHash, c.digest(HashInput(c, event, createdAt, prevHash)), unhashed)
  }

  predicate OfEntity(e: Entry, entityType: string, entityId: int) {
    e.event.entityType == entityType && e.event.entityId == entityId
  }

  predicate IsLatestAt(rows: seq<Entry>, entityType: string, entityId: int, i: nat) {
    && i < |rows|
    && OfEntity(rows[i], entityType, entityId)
    && forall j :: 0 <= j < |rows| && OfEntity(rows[j], entityType, entityId) ==> rows[j].createdAt <= rows[i].createdAt
  }

  /** What the query for the newest row may answer: among rows of equal time the database chooses freely. */
  ghost predicate MayRead(rows: seq<Entry>, entityType: string, entityId: int, prev: Option<string>) {
    match prev
    case None => forall e <- rows :: !OfEntity(e, entityType, entityId)
    case Some(h) => exists i: nat :: IsLatestAt(rows, entityType, entityId, i) && rows[i].entryHash == h
  }

  lemma {:induction false} SomeRowIsLatest(rows: seq<Entry>, entityType: string, entityId: int)
    requires exists e <- rows :: OfEntity(e, entityType, entityId)
    ensures exists i: nat :: IsLatestAt(rows, entityType, entityId, i)
  {
    var head, last := rows[..|rows| - 1], rows[|rows| - 1];
    if exists e <- head :: OfEntity(e, entityType, entityId) {
      SomeRowIsLatest(head, entityType, entityId);
      var i: nat :| IsLatestAt(head, entityType, entityId, i);
      if OfEntity(last, entityType, entityId) && last.createdAt > head[i].createdAt {
        assert IsLatestAt(rows, entityType, entityId, |rows| - 1);
      } else {
        assert IsLatestAt(rows, entityType, entityId, i);
      }
    } else {
      assert forall j :: 0 <= j < |head| ==> rows[j] == head[j];
      assert IsLatestAt(rows, entityType, entityId, |rows| - 1);
    }
  }

  lemma JoinFirst(a: string, rest: seq<string>)
    requires rest != []
    ensures Join([a] + rest) == a + "|" + Join(rest)
  {
    assert ([a] + rest)[1..] == rest;
  }

  lemma JoinOfFour(a: string, b: string, c: string, d: string)
    ensures Join([a, b, c, d]) == a + "|" + (b + "|" + (c + "|" + d))
  {
    JoinFirst(a, [b, c, d]);
    JoinFirst(b, [c, d]);
    JoinFirst(c, [d]);
    assert [a] + [b, c, d] == [a, b, c, d] && [b] + [c, d] == [b, c, d] && [c] + [d] == [c, d];
  }

  lemma JoinOfSeven(a: string, b: string, c: string, d: string, e: string, f: string, g: string)
    ensures Join([a, b, c, d, e, f, g])
            == a + "|" + (b + "|" + (c + "|" + (d + "|" + (e + "|" + (f + "|" + g)))))
  {
    JoinFirst(a, [b, c, d, e, f, g]);
    JoinFirst(b, [c, d, e, f, g]);
    JoinFirst(c, [d, e, f, g]);
    JoinOfFour(d, e, f, g);
    assert [a] + [b, c, d, e, f, g] == [a, b, c, d, e, f, g];
    assert [b] + [c, d, e, f, g] == [b, c, d, e, f, g] && [c] + [d, e, f, g] == [c, d, e, f, g];
  }

  /** The hashed text: seven fields in this order, with a bar between any two. */
  lemma HashInputIs(c: Codec, event: Event, createdAt: int, prev: Option<string>)
    ensures HashInput(c, event, createdAt, prev)
            == event.entityType + "|" + (Decimal(event.entityId) + "|" + (event.action + "|"
               + ((if event.actorId.Some? then Decimal(event.actorId.value) else "") + "|" + (c.iso(createdAt) + "|"
               + ((if prev.Some? then prev.value else "") + "|" + event.stateText)))))
  {
    JoinOfSeven(event.entityType, Decimal(event.entityId), event.action,
                if event.actorId.Some? then Decimal(event.actorId.value) else "", c.iso(createdAt), OrEmpty(prev),
                event.stateText);
  }

  class AuditLog {
    var rows: seq<Entry>

    constructor ()
      ensures rows == []
    {
      rows := [];
    }

    method ReadLatestHash(entityType: string, entityId: int) returns (prev: Option<string>)
      ensures MayRead(rows, entityType, entityId, prev)
    {
      if i: nat :| i < |rows| && IsLatestAt(rows, entityType, entityId, i) {
        return Some(rows[i].entryHash);
      }
      if exists e <- rows :: OfEntity(e, entityType, entityId) {
        SomeRowIsLatest(rows, entityType, entityId);
      }
      return None;
    }

    /** Reads the newest hash of the entity and appends the entry that points at it. */
    method LogAuditEvent(c: Codec, event: Event, createdAt: int, unhashed: string)
      modifies this
      ensures exists prev :: MayRead(old(rows), event.entityType, event.entityId, prev)
                             && rows == old(rows) + [MakeEntry(c, event, createdAt, prev, unhashed)]
      ensures var e := rows[|rows| - 1];
              && e.event == event && e.createdAt == createdAt && e.unhashed == unhashed
              && e.entryHash == c.digest(
                   event.entityType + "|" + (Decimal(event.entityId) + "|" + (event.action + "|"
                   + ((if event.actorId.Some? then Decimal(event.actorId.value) else "") + "|" + (c.iso(createdAt) + "|"
                   + ((if e.prevHash.Some? then e.prevHash.value else "") + "|" + event.stateText))))))
    {
      var prev := ReadLatestHash(event.entityType, event.entityId);
      HashInputIs(c, event, createdAt, prev);
      rows := rows + [MakeEntry(c, event, createdAt, prev, unhashed)];
    }
  }

  // ----- The trail and its verification -----

  function InsertByTime(trail: seq<Entry>, e: Entry): seq<Entry> {
    if trail == [] || trail[|trail| - 1].createdAt <= e.createdAt then trail + [e]
    else InsertByTime(trail[..|trail| - 1], e) + [trail[|trail| - 1]]
  }

  /** The rows of one entity, oldest first. */
  function Trail(rows: seq<Entry>, entityType: string, entityId: int): seq<Entry> {
    if rows == [] then []
    else
      var rest := Trail(rows[..|rows| - 1], entityType, entityId);
      var e := rows[|rows| - 1];
      if OfEntity(e, entityType, entityId) then InsertByTime(rest, e) else rest
  }

  function LastHash(trail: seq<Entry>): Option<string> {
    if trail == [] then None else Some(trail[|trail| - 1].entryHash)
  }

  /** The check that the header of the log describes: every hash is recomputed, every previous hash is
      compared with the row before. */
  predicate Verifies(c: Codec, trail: seq<Entry>) {
    forall i :: 0 <= i < |trail| ==>
      trail[i].entryHash == c.digest(InputOf(c, trail[i])) && trail[i].prevHash == LastHash(trail[..i])
  }

  predicate StrictlyInTime(trail: seq<Entry>) {
    forall i, j :: 0 <= i < j < |trail| ==> trail[i].createdAt < trail[j].createdAt
  }

  // ----- Concurrent appends: the read and the insert are separate steps of a writer -----

  datatype Step =
    | Begin(writer: int, event: Event, createdAt: int, prev: Option<string>, unhashed: string)
    | Finish(writer: int)
    | Abandon(writer: int)

  datatype System = System(rows: seq<Entry>, pending: map<int, Entry>)

  ghost predicate Enabled(s: System, step: Step) {
    match step
    case Begin(w, event, _, prev, _) => w !in s.pending && MayRead(s.rows, event.entityType, event.entityId, prev)
    case Finish(w) => w in s.pending
    case Abandon(w) => w in s.pending
  }

  ghost function Apply(c: Codec, s: System, step: Step): System
    requires Enabled(s, step)
  {
    match step
    case Begin(w, event, createdAt, prev, unhashed) =>
      s.(pending := s.pending[w := MakeEntry(c, event, createdAt, prev, unhashed)])
    case Finish(w) => System(s.rows + [s.pending[w]], s.pending - {w})
    case Abandon(w) => s.(pending := s.pending - {w})
  }

  /** Whether the steps can be taken one after another, and the state they lead to. */
  ghost function Outcome(c: Codec, steps: seq<Step>): Option<System> {
    if steps == [] then Some(System([], map[]))
    else
      var before := Outcome(c, steps[..|steps| - 1]);
      var step := steps[|steps| - 1];
      if before.Some? && Enabled(before.value, step) then Some(Apply(c, before.value, step)) else None
  }

  /** An append to the entity starts only while no other append to it is under way, and carries a time later
      than every row of the entity. Steps for other entities are not restricted. */
  ghost predicate Serial(s: System, step: Step, entityType: string, entityId: int) {
    step.Begin? && step.event.entityType == entityType && step.event.entityId == entityId ==>
      && (forall w <- s.pending :: !OfEntity(s.pending[w], entityType, entityId))
      && (forall e <- s.rows :: OfEntity(e, entityType, entityId) ==> e.createdAt < step.createdAt)
  }

  ghost predicate SerialRun(c: Codec, steps: seq<Step>, entityType: string, entityId: int) {
    forall k :: 0 <= k < |steps| ==>
      var before := Outcome(c, steps[..k]);
      before.Some? ==> Serial(before.value, steps[k], entityType, entityId)
  }

  /** What serial appends keep: the trail verifies and the one append under way extends it. */
  ghost predicate ChainInv(c: Codec, s: System, entityType: string, entityId: int) {
    var trail := Trail(s.rows, entityType, entityId);
    && Verifies(c, trail)
    && StrictlyInTime(trail)
    && (forall w <- s.pending :: OfEntity(s.pending[w], entityType, entityId) ==> Extends(c, trail, s.pending[w]))
    && (forall v <- s.pending, w <- s.pending ::
          OfEntity(s.pending[v], entityType, entityId) && OfEntity(s.pending[w], entityType, entityId) ==> v == w)
  }

  predicate Extends(c: Codec, trail: seq<Entry>, e: Entry) {
    && e.entryHash == c.digest(InputOf(c, e))
    && e.prevHash == LastHash(trail)
    && forall t <- trail :: t.createdAt < e.createdAt
  }

  lemma {:induction false} InsertAtPosition(trail: seq<Entry>, e: Entry) returns (k: nat)
    ensures k <= |trail| && InsertByTime(trail, e) == trail[..k] + [e] + trail[k..]
    ensures forall i :: k <= i < |trail| ==> e.createdAt < trail[i].createdAt
    ensures k > 0 ==> trail[k - 1].createdAt <= e.createdAt
  {
    var n := |trail|;
    if trail == [] || trail[n - 1].createdAt <= e.createdAt {
      k := n;
      assert trail[..n] == trail;
    } else {
      k := InsertAtPosition(trail[..n - 1], e);
      assert trail[..n - 1][k..] + [trail[n - 1]] == trail[k..];
      assert trail[..n - 1][..k] == trail[..k];
    }
  }

  lemma {:induction false} TrailHoldsTheEntity(rows: seq<Entry>, entityType: string, entityId: int)
    ensures forall e :: e in Trail(rows, entityType, entityId) <==> e in rows && OfEntity(e, entityType, entityId)
  {
    if rows != [] {
      var head, e := rows[..|rows| - 1], rows[|rows| - 1];
      TrailHoldsTheEntity(head, entityType, entityId);
      assert rows == head + [e];
      if OfEntity(e, entityType, entityId) {
        var rest := Trail(head, entityType, entityId);
        var k := InsertAtPosition(rest, e);
        assert rest == rest[..k] + rest[k..];
      }
    }
  }

  predicate InTime(trail: seq<Entry>) {
    forall i, j :: 0 <= i < j < |trail| ==> trail[i].createdAt <= trail[j].createdAt
  }

  lemma InsertKeepsTime(trail: seq<Entry>, e: Entry)
    requires InTime(trail)
    ensures InTime(InsertByTime(trail, e))
  {
    var k := InsertAtPosition(trail, e);
    var longer := trail[..k] + [e] + trail[k..];
    forall i | 0 <= i < |longer| ensures longer[i] == if i < k then trail[i] else if i == k then e else trail[i - 1] {
    }
  }

  /** The trail lists the rows of the entity, oldest first, in whatever order they were stored. */
  lemma {:induction false} TrailIsInTime(rows: seq<Entry>, entityType: string, entityId: int)
    ensures InTime(Trail(rows, entityType, entityId))
    ensures forall e :: e in Trail(rows, entityType, entityId) <==> e in rows && OfEntity(e, entityType, entityId)
  {
    TrailHoldsTheEntity(rows, entityType, entityId);
    if rows != [] {
      TrailIsInTime(rows[..|rows| - 1], entityType, entityId);
      InsertKeepsTime(Trail(rows[..|rows| - 1], entityType, entityId), rows[|rows| - 1]);
    }
  }

  lemma LatestIsTheLast(rows: seq<Entry>, entityType: string, entityId: int, prev: Option<string>)
    requires StrictlyInTime(Trail(rows, entityType, entityId))
    requires MayRead(rows, entityType, entityId, prev)
    ensures prev == LastHash(Trail(rows, entityType, entityId))
  {
    var trail := Trail(rows, entityType, entityId);
    TrailHoldsTheEntity(rows, entityType, entityId);
    assert trail == [] || trail[|trail| - 1] in trail;
    if prev.Some? {
      var i: nat :| IsLatestAt(rows, entityType, entityId, i) && rows[i].entryHash == prev.value;
      assert rows[i] in trail;
    }
  }

  lemma ExtendingKeepsTheTrail(c: Codec, trail: seq<Entry>, e: Entry)
    requires Verifies(c, trail) && StrictlyInTime(trail) && Extends(c, trail, e)
    ensures InsertByTime(trail, e) == trail + [e]
    ensures Verifies(c, trail + [e]) && StrictlyInTime(trail + [e])
  {
    if trail != [] {
      assert trail[|trail| - 1] in trail;
    }
    forall i | 0 <= i < |trail + [e]|
      ensures (trail + [e])[i].prevHash == LastHash((trail + [e])[..i])
    {
      assert (trail + [e])[..i] == trail[..i];
      assert trail[..|trail|] == trail;
    }
  }

  lemma StepKeepsChain(c: Codec, s: System, step: Step, entityType: string, entityId: int)
    requires ChainInv(c, s, entityType, entityId) && Enabled(s, step) && Serial(s, step, entityType, entityId)
    ensures ChainInv(c, Apply(c, s, step), entityType, entityId)
  {
    var trail := Trail(s.rows, entityType, entityId);
    TrailHoldsTheEntity(s.rows, entityType, entityId);
    match step
    case Begin(w, event, createdAt, prev, unhashed) =>
      if event.entityType == entityType && event.entityId == entityId {
        LatestIsTheLast(s.rows, entityType, entityId, prev);
        assert Extends(c, trail, MakeEntry(c, event, createdAt, prev, unhashed));
      }
    case Finish(w) =>
      var e := s.pending[w];
      assert (s.rows + [e])[..|s.rows + [e]| - 1] == s.rows;
      if OfEntity(e, entityType, entityId) {
        ExtendingKeepsTheTrail(c, trail, e);
      }
    case Abandon(w) =>
  }

  /** Serial appends with increasing times, interleaved in any way with appends to other entities and with
      writers that give up, always leave a trail that verifies, in the order it was written. */
  lemma {:induction false} SerialTrailsVerify(c: Codec, steps: seq<Step>, entityType: string, entityId: int)
    requires Outcome(c, steps).Some? && SerialRun(c, steps, entityType, entityId)
    ensures ChainInv(c, Outcome(c, steps).value, entityType, entityId)
    ensures Verifies(c, Trail(Outcome(c, steps).value.rows, entityType, entityId))
  {
    if steps != [] {
      var n := |steps| - 1;
      assert forall k :: 0 <= k < n ==> steps[..n][..k] == steps[..k];
      SerialTrailsVerify(c, steps[..n], entityType, entityId);
      StepKeepsChain(c, Outcome(c, steps[..n]).value, steps[n], entityType, entityId);
    }
  }

  // ----- What the hash binds -----

  predicate PipeFree(s: string) {
    '|' !in s
  }

  /** What is known of the codec: timestamps are told apart, neither they nor digests hold '|', and no
      digest is empty. */
  ghost predicate Plain(c: Codec) {
    && (forall t :: PipeFree(c.iso(t)))
    && (forall t, u :: c.iso(t) == c.iso(u) ==> t == u)
    && (forall s :: c.digest(s) != "" && PipeFree(c.digest(s)))
  }

  predicate PlainEvent(e: Event) {
    PipeFree(e.entityType) && PipeFree(e.action)
  }

  predicate PlainTrail(trail: seq<Entry>) {
    forall e <- trail :: PlainEvent(e.event)
  }

  /** Two entries, one of each trail, whose different hash inputs have the same digest. */
  predicate Collide(c: Codec, a: seq<Entry>, b: seq<Entry>) {
    exists x <- a, y <- b :: InputOf(c, x) != InputOf(c, y) && c.digest(InputOf(c, x)) == c.digest(InputOf(c, y))
  }

  predicate AgreeOnHashedFields(a: seq<Entry>, b: seq<Entry>) {
    |a| == |b| && forall i :: 0 <= i < |a| ==> a[i].(unhashed := b[i].unhashed) == b[i]
  }

  lemma {:induction false} FirstFieldIsFixed(x: string, y: string, restX: string, restY: string)
    requires PipeFree(x) && PipeFree(y) && x + "|" + restX == y + "|" + restY
    ensures x == y && restX == restY
  {
    var whole := x + "|" + restX;
    assert forall i :: 0 <= i < |x| ==> whole[i] == x[i];
    assert forall i :: 0 <= i < |y| ==> whole[i] == y[i];
    assert whole[|x|] == '|' == whole[|y|];
    assert whole[..|x|] == x && (y + "|" + restY)[..|y|] == y;
    assert whole[|x| + 1..] == restX && (y + "|" + restY)[|y| + 1..] == restY;
  }

  /** The joined text determines the fields, although the last one may itself hold '|'. */
  lemma {:induction false} JoinIsInjective(xs: seq<string>, ys: seq<string>)
    requires |xs| == |ys| && xs != [] && Join(xs) == Join(ys)
    requires forall i :: 0 <= i < |xs| - 1 ==> PipeFree(xs[i]) && PipeFree(ys[i])
    ensures xs == ys
  {
    if |xs| == 1 {
      assert xs == [xs[0]] && ys == [ys[0]];
    } else {
      FirstFieldIsFixed(xs[0], ys[0], Join(xs[1..]), Join(ys[1..]));
      JoinIsInjective(xs[1..], ys[1..]);
      assert xs == [xs[0]] + xs[1..] && ys == [ys[0]] + ys[1..];
    }
  }

  lemma FieldsArePipeFree(c: Codec, e: Entry)
    requires Plain(c) && PlainEvent(e.event)
    requires e.prevHash.Some? ==> PipeFree(e.prevHash.value)
    ensures var fields := Fields(c, e.event, e.createdAt, e.prevHash);
            forall i :: 0 <= i < |fields| - 1 ==> PipeFree(fields[i])
  {
    assert !IsDigit('|');
    DecimalIsInjective(0, e.event.entityId);
    if e.event.actorId.Some? {
      DecimalIsInjective(0, e.event.actorId.value);
    }
  }

  predicate ProperPrev(e: Entry) {
    e.prevHash.Some? ==> e.prevHash.value != "" && PipeFree(e.prevHash.value)
  }

  lemma EqualInputsEqualFields(c: Codec, a: Entry, b: Entry)
    requires Plain(c) && PlainEvent(a.event) && PlainEvent(b.event) && ProperPrev(a) && ProperPrev(b)
    requires InputOf(c, a) == InputOf(c, b)
    ensures a.event == b.event && a.createdAt == b.createdAt && a.prevHash == b.prevHash
  {
    var xs := Fields(c, a.event, a.createdAt, a.prevHash);
    var ys := Fields(c, b.event, b.createdAt, b.prevHash);
    FieldsArePipeFree(c, a);
    FieldsArePipeFree(c, b);
    JoinIsInjective(xs, ys);
    assert xs[0] == ys[0] && xs[1] == ys[1] && xs[2] == ys[2] && xs[3] == ys[3] && xs[4] == ys[4] && xs[5] == ys[5] &&
           xs[6] == ys[6];
    DecimalIsInjective(a.event.entityId, b.event.entityId);
    if a.event.actorId.Some? {
      DecimalIsInjective(0, a.event.actorId.value);
    }
    if b.event.actorId.Some? {
      DecimalIsInjective(if a.event.actorId.Some? then a.event.actorId.value else 0, b.event.actorId.value);
    }
  }

  lemma PrefixVerifies(c: Codec, trail: seq<Entry>)
    requires Verifies(c, trail) && trail != []
    ensures Verifies(c, trail[..|trail| - 1])
  {
    var n := |trail| - 1;
    assert forall i :: 0 <= i < n ==> trail[..n][..i] == trail[..i];
  }

  lemma LastPrevIsProper(c: Codec, trail: seq<Entry>)
    requires Plain(c) && Verifies(c, trail) && trail != []
    ensures var e := trail[|trail| - 1];
            && e.entryHash == c.digest(InputOf(c, e))
            && e.prevHash == LastHash(trail[..|trail| - 1])
            && ProperPrev(e)
  {
    var n := |trail| - 1;
    if n > 0 {
      assert trail[n - 1].entryHash == c.digest(InputOf(c, trail[n - 1]));
    }
  }

  lemma LastEntriesAgree(c: Codec, a: seq<Entry>, b: seq<Entry>)
    requires Plain(c) && PlainTrail(a) && PlainTrail(b) && a != [] && b != []
    requires Verifies(c, a) && Verifies(c, b) && !Collide(c, a, b)
    requires LastHash(a) == LastHash(b)
    ensures var (x, y) := (a[|a| - 1], b[|b| - 1]);
            x.event == y.event && x.createdAt == y.createdAt && x.prevHash == y.prevHash
  {
    var x, y := a[|a| - 1], b[|b| - 1];
    assert x in a && y in b;
    LastPrevIsProper(c, a);
    LastPrevIsProper(c, b);
    EqualInputsEqualFields(c, x, y);
  }

  lemma AgreementIsByEntry(a: seq<Entry>, b: seq<Entry>)
    requires a != [] && b != []
    ensures AgreeOnHashedFields(a, b)
            <==> AgreeOnHashedFields(a[..|a| - 1], b[..|b| - 1])
                 && a[|a| - 1].(unhashed := b[|b| - 1].unhashed) == b[|b| - 1]
  {
  }

  /** Unless two different contents share a digest, two trails that verify end in the same hash exactly when
      they have the same length and agree on every hashed field of every entry. */
  lemma {:induction false} LastHashBindsTheTrail(c: Codec, a: seq<Entry>, b: seq<Entry>)
    requires Plain(c) && PlainTrail(a) && PlainTrail(b)
    requires Verifies(c, a) && Verifies(c, b) && !Collide(c, a, b)
    ensures LastHash(a) == LastHash(b) <==> AgreeOnHashedFields(a, b)
  {
    if a != [] && b != [] {
      AgreementIsByEntry(a, b);
      if LastHash(a) == LastHash(b) {
        LastEntriesAgree(c, a, b);
        PrefixVerifies(c, a);
        PrefixVerifies(c, b);
        LastPrevIsProper(c, a);
        LastPrevIsProper(c, b);
        LastHashBindsTheTrail(c, a[..|a| - 1], b[..|b| - 1]);
      }
    }
  }

  // ----- Where a further row may go -----

  lemma PrevIsBefore(c: Codec, trail: seq<Entry>, i: nat)
    requires Verifies(c, trail) && i < |trail|
    ensures trail[i].prevHash == if i == 0 then None else Some(trail[i - 1].entryHash)
  {
    assert trail[i].prevHash == LastHash(trail[..i]);
  }

  lemma EntryIsProper(c: Codec, trail: seq<Entry>, j: nat)
    requires Plain(c) && Verifies(c, trail) && j < |trail|
    ensures ProperPrev(trail[j]) && trail[j].entryHash == c.digest(InputOf(c, trail[j]))
  {
    PrevIsBefore(c, trail, j);
    assert j > 0 ==> trail[j - 1].entryHash == c.digest(InputOf(c, trail[j - 1]));
  }

  /** In a trail that verifies no entry with the content of `e` has its own hash before it. */
  lemma {:induction false} NoSelfLink(c: Codec, trail: seq<Entry>, e: Entry, j: nat)
    requires Plain(c) && PlainTrail(trail) && PlainEvent(e.event) && ProperPrev(e)
    requires Verifies(c, trail) && !Collide(c, trail, [e]) && e.entryHash == c.digest(InputOf(c, e))
    requires j < |trail| && trail[j].entryHash == e.entryHash
    ensures e.prevHash == trail[j].prevHash != Some(e.entryHash)
  {
    var t := trail[j];
    assert t in trail && e in [e];
    EntryIsProper(c, trail, j);
    EqualInputsEqualFields(c, t, e);
    PrevIsBefore(c, trail, j);
    if j > 0 && trail[j - 1].entryHash == e.entryHash {
      NoSelfLink(c, trail, e, j - 1);
    }
  }

  /** `longer` has row `e` in front of entry `k` of the trail. */
  lemma MisplacedRowBreaksTheTrail(c: Codec, trail: seq<Entry>, e: Entry, k: nat, longer: seq<Entry>)
    requires Plain(c) && PlainTrail(trail) && PlainEvent(e.event) && ProperPrev(e)
    requires Verifies(c, trail) && !Collide(c, trail, [e]) && e.entryHash == c.digest(InputOf(c, e))
    requires k < |trail| && |longer| == |trail| + 1 && longer[k] == e && longer[k + 1] == trail[k]
    requires k > 0 ==> longer[k - 1] == trail[k - 1]
    ensures !Verifies(c, longer)
  {
    PrevIsBefore(c, trail, k);
    if Verifies(c, longer) {
      PrevIsBefore(c, longer, k);
      PrevIsBefore(c, longer, k + 1);
      NoSelfLink(c, trail, e, k - 1);
    }
  }

  lemma AppendedRowVerifiesExactlyWhen(c: Codec, trail: seq<Entry>, e: Entry)
    requires Verifies(c, trail) && e.entryHash == c.digest(InputOf(c, e))
    ensures Verifies(c, trail + [e]) <==> e.prevHash == LastHash(trail)
  {
    var longer := trail + [e];
    assert longer[|trail|] == e && longer[..|trail|] == trail;
    assert forall i :: 0 <= i < |trail| ==> longer[i] == trail[i] && longer[..i] == trail[..i];
  }

  /** A further row, at whatever position the database lists it, keeps a verifying trail verifying exactly when
      it is listed last and points at the last entry. */
  lemma RowKeepsTrailExactlyWhen(c: Codec, trail: seq<Entry>, e: Entry, k: nat)
    requires Plain(c) && PlainTrail(trail) && PlainEvent(e.event) && ProperPrev(e)
    requires Verifies(c, trail) && !Collide(c, trail, [e]) && e.entryHash == c.digest(InputOf(c, e))
    requires k <= |trail|
    ensures Verifies(c, trail[..k] + [e] + trail[k..]) <==> k == |trail| && e.prevHash == LastHash(trail)
  {
    if k < |trail| {
      MisplacedRowBreaksTheTrail(c, trail, e, k, trail[..k] + [e] + trail[k..]);
    } else {
      assert trail[..k] + [e] + trail[k..] == trail + [e];
      AppendedRowVerifiesExactlyWhen(c, trail, e);
    }
  }

  /** By time: exactly when no stored row of the entity is later and the row points at the last of them. */
  lemma LateRowKeepsTrailExactlyWhen(c: Codec, trail: seq<Entry>, e: Entry)
    requires Plain(c) && PlainTrail(trail) && PlainEvent(e.event) && ProperPrev(e)
    requires Verifies(c, trail) && StrictlyInTime(trail) && !Collide(c, trail, [e])
    requires e.entryHash == c.digest(InputOf(c, e))
    ensures Verifies(c, InsertByTime(trail, e))
            <==> (forall t <- trail :: t.createdAt <= e.createdAt) && e.prevHash == LastHash(trail)
  {
    var k := InsertAtPosition(trail, e);
    RowKeepsTrailExactlyWhen(c, trail, e, k);
    if k < |trail| {
      assert trail[k] in trail;
    }
  }

  // ----- Forks -----

  lemma SameHashSamePrev(c: Codec, trail: seq<Entry>, i: nat, j: nat)
    requires Plain(c) && PlainTrail(trail) && Verifies(c, trail) && !Collide(c, trail, trail)
    requires i < |trail| && j < |trail| && trail[i].entryHash == trail[j].entryHash
    ensures trail[i].prevHash == trail[j].prevHash
  {
    EntryIsProper(c, trail, i);
    EntryIsProper(c, trail, j);
    assert trail[i] in trail && trail[j] in trail;
    EqualInputsEqualFields(c, trail[i], trail[j]);
  }

  /** Every hash determines what its entry points at, and that is the hash of the entry before. */
  ghost predicate Chain(hashes: seq<string>, prevs: seq<Option<string>>) {
    && |hashes| == |prevs|
    && (forall i {:trigger prevs[i]} :: 0 <= i < |prevs| ==> prevs[i] == if i == 0 then None else Some(hashes[i - 1]))
    && (forall i, j {:trigger prevs[i], prevs[j]} :: 0 <= i < j < |prevs| && hashes[i] == hashes[j] ==>
        prevs[i] == prevs[j])
  }

  lemma {:induction false} ChainHasNoFork(hashes: seq<string>, prevs: seq<Option<string>>, i: nat, j: nat)
    requires Chain(hashes, prevs) && i < j < |prevs|
    ensures prevs[i] != prevs[j]
  {
    if i > 0 {
      ChainHasNoFork(hashes, prevs, i - 1, j - 1);
    }
  }

  function HashesOf(trail: seq<Entry>): seq<string> {
    seq(|trail|, i requires 0 <= i < |trail| => trail[i].entryHash)
  }

  function PrevsOf(trail: seq<Entry>): seq<Option<string>> {
    seq(|trail|, i requires 0 <= i < |trail| => trail[i].prevHash)
  }

  lemma VerifyingTrailIsChain(c: Codec, trail: seq<Entry>)
    requires Plain(c) && PlainTrail(trail) && Verifies(c, trail) && !Collide(c, trail, trail)
    ensures Chain(HashesOf(trail), PrevsOf(trail))
  {
    var hashes, prevs := HashesOf(trail), PrevsOf(trail);
    forall i | 0 <= i < |prevs| ensures prevs[i] == if i == 0 then None else Some(hashes[i - 1]) {
      PrevIsBefore(c, trail, i);
    }
    forall i, j | 0 <= i < j < |prevs| && hashes[i] == hashes[j] ensures prevs[i] == prevs[j] {
      SameHashSamePrev(c, trail, i, j);
    }
  }

  /** What two overlapping appends leave: both read before either of them stores its row. */
  ghost function Overlap(c: Codec, s: System, first: Step, second: Step): System
    requires first.Begin? && second.Begin? && first.writer != second.writer
    requires Enabled(s, first) && Enabled(s, second)
  {
    Apply(c, Apply(c, Apply(c, Apply(c, s, first), second), Finish(first.writer)), Finish(second.writer))
  }

  lemma OverlapStoresBoth(c: Codec, s: System, first: Step, second: Step)
    requires first.Begin? && second.Begin? && first.writer != second.writer
    requires Enabled(s, first) && Enabled(s, second)
    ensures Overlap(c, s, first, second).rows
            == s.rows + [MakeEntry(c, first.event, first.createdAt, first.prev, first.unhashed)]
               + [MakeEntry(c, second.event, second.createdAt, second.prev, second.unhashed)]
  {
  }

  lemma TrailOfLast(rows: seq<Entry>, e: Entry, entityType: string, entityId: int) returns (k: nat)
    requires OfEntity(e, entityType, entityId)
    ensures var rest := Trail(rows, entityType, entityId);
            k <= |rest| && Trail(rows + [e], entityType, entityId) == rest[..k] + [e] + rest[k..]
  {
    assert (rows + [e])[..|rows + [e]| - 1] == rows;
    k := InsertAtPosition(Trail(rows, entityType, entityId), e);
  }

  lemma InsertedCounts(rest: seq<Entry>, e: Entry, k: nat)
    requires k <= |rest|
    ensures multiset(rest[..k] + [e] + rest[k..]) == multiset(rest) + multiset{e}
  {
    assert rest == rest[..k] + rest[k..];
  }

  lemma PositionOf(listed: seq<Entry>, e: Entry) returns (p: nat)
    requires e in multiset(listed)
    ensures p < |listed| && listed[p] == e
    ensures multiset(listed) == multiset(listed[..p] + listed[p + 1..]) + multiset{e}
  {
    assert e in listed;
    p :| p < |listed| && listed[p] == e;
    assert listed == listed[..p] + [e] + listed[p + 1..];
  }

  lemma TwoPositions(listed: seq<Entry>, e1: Entry, e2: Entry) returns (i: nat, j: nat)
    requires multiset{e1, e2} <= multiset(listed)
    ensures i < j < |listed|
    ensures (listed[i] == e1 && listed[j] == e2) || (listed[i] == e2 && listed[j] == e1)
  {
    assert e1 in multiset{e1, e2} && e1 in multiset(listed);
    var p := PositionOf(listed, e1);
    var others := listed[..p] + listed[p + 1..];
    assert multiset(others)[e2] >= (multiset{e1, e2} - multiset{e1})[e2] >= 1;
    var q := PositionOf(others, e2);
    i, j := if q < p then q else p, if q < p then p else q + 1;
  }

  /** Two entries that point at the same entry: no listing that holds both verifies. */
  lemma ForkedListingFails(c: Codec, listed: seq<Entry>, e1: Entry, e2: Entry)
    requires Plain(c) && PlainTrail(listed) && !Collide(c, listed, listed)
    requires multiset{e1, e2} <= multiset(listed) && e1.prevHash == e2.prevHash
    ensures !Verifies(c, listed)
  {
    var i, j := TwoPositions(listed, e1, e2);
    assert PrevsOf(listed)[i] == PrevsOf(listed)[j];
    if Verifies(c, listed) {
      VerifyingTrailIsChain(c, listed);
      ChainHasNoFork(HashesOf(listed), PrevsOf(listed), i, j);
    }
  }

  lemma TrailGains(rows: seq<Entry>, e: Entry, entityType: string, entityId: int)
    requires OfEntity(e, entityType, entityId)
    ensures multiset(Trail(rows + [e], entityType, entityId))
            == multiset(Trail(rows, entityType, entityId)) + multiset{e}
  {
    var k := TrailOfLast(rows, e, entityType, entityId);
    InsertedCounts(Trail(rows, entityType, entityId), e, k);
  }

  lemma TrailGainsBoth(rows: seq<Entry>, e1: Entry, e2: Entry, entityType: string, entityId: int)
    requires OfEntity(e1, entityType, entityId) && OfEntity(e2, entityType, entityId)
    ensures multiset(Trail(rows + [e1] + [e2], entityType, entityId))
            == multiset(Trail(rows, entityType, entityId)) + multiset{e1, e2}
  {
    TrailGains(rows, e1, entityType, entityId);
    TrailGains(rows + [e1], e2, entityType, entityId);
  }

  /** Two appends that read the same newest row, from any state, fork the chain: both rows are stored, and
      unless two contents collide the trail of the entity does not verify, in whatever order it is listed. */
  lemma OverlappingAppendsForkTheChain(c: Codec, s: System, first: Step, second: Step, listed: seq<Entry>)
    requires first.Begin? && second.Begin? && first.writer != second.writer
    requires Enabled(s, first) && Enabled(s, second) && first.prev == second.prev
    requires first.event.entityType == second.event.entityType && first.event.entityId == second.event.entityId
    requires multiset(listed) == multiset(Trail(Overlap(c, s, first, second).rows,
                                                first.event.entityType, first.event.entityId))
    requires Plain(c) && PlainTrail(listed) && !Collide(c, listed, listed)
    ensures |listed| == |Trail(s.rows, first.event.entityType, first.event.entityId)| + 2
    ensures !Verifies(c, listed)
  {
    var entityType, entityId := first.event.entityType, first.event.entityId;
    var e1 := MakeEntry(c, first.event, first.createdAt, first.prev, first.unhashed);
    var e2 := MakeEntry(c, second.event, second.createdAt, second.prev, second.unhashed);
    OverlapStoresBoth(c, s, first, second);
    TrailGainsBoth(s.rows, e1, e2, entityType, entityId);
    assert |listed| == |multiset(listed)| == |multiset(Trail(s.rows, entityType, entityId))| + 2;
    ForkedListingFails(c, listed, e1, e2);
  }
}
