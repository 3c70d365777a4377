/**
 * The payment worker itself: one cycle recovers stuck rows, claims a batch and processes it row by
 * row. The two tables are the object's fields. The ghost fields record the statements issued, so that
 * whatever holds of every run of the queue holds of every state the worker reaches.
 */
module PaymentWorkers {
  import opened Wrappers
  import opened PaymentQueue
  import opened PaymentLease
  import BalanceDrift

  // ----- Which rows a cycle claims -----

  const WORKER_BATCH_SIZE := 50

  predicate Due(row: Row, now: int) {
    row.status == Queued && row.nextRetryAt.Some? && row.nextRetryAt.value <= now
  }

  /** ORDER BY next_retry_at, id. */
  predicate Before(rows: seq<Row>, i: nat, j: nat)
    requires i < |rows| && rows[i].nextRetryAt.Some? && j < |rows| && rows[j].nextRetryAt.Some?
  {
    rows[i].nextRetryAt.value < rows[j].nextRetryAt.value ||
    (rows[i].nextRetryAt.value == rows[j].nextRetryAt.value && i < j)
  }

  predicate Timed(rows: seq<Row>, ids: seq<nat>) {
    forall k :: 0 <= k < |ids| ==> ids[k] < |rows| && rows[ids[k]].nextRetryAt.Some?
  }

  predicate InOrder(rows: seq<Row>, ids: seq<nat>)
    requires Timed(rows, ids)
  {
    forall j, k :: 0 <= j < k < |ids| ==> Before(rows, ids[j], ids[k])
  }

  function Insert(rows: seq<Row>, ids: seq<nat>, i: nat): (r: seq<nat>)
    requires i < |rows| && rows[i].nextRetryAt.Some? && Timed(rows, ids) && InOrder(rows, ids)
    requires i !in ids
    ensures Timed(rows, r) && InOrder(rows, r)
    ensures forall j :: j in r <==> j in ids || j == i
    ensures |r| == |ids| + 1
  {
    if ids == [] || Before(rows, i, ids[0]) then [i] + ids
    else
      var rest := Insert(rows, ids[1..], i);
      assert forall k :: 0 <= k < |rest| ==> rest[k] in ids[1..] || rest[k] == i;
      [ids[0]] + rest
  }

  /** The due rows among the first `n`, in claiming order. */
  function DueIds(rows: seq<Row>, n: nat, now: int): (r: seq<nat>)
    requires n <= |rows|
    ensures Timed(rows, r) && InOrder(rows, r)
    ensures forall i :: i in r ==> i < n && Due(rows[i], now)
    ensures forall i :: 0 <= i < n && Due(rows[i], now) ==> i in r
  {
    if n == 0 then []
    else
      var head := DueIds(rows, n - 1, now);
      if Due(rows[n - 1], now) then Insert(rows, head, n - 1) else head
  }

  function Batch(rows: seq<Row>, now: int): seq<nat> {
    var due := DueIds(rows, |rows|, now);
    if |due| > WORKER_BATCH_SIZE then due[..WORKER_BATCH_SIZE] else due
  }

  /** The row is queued and its retry time has come. */
  predicate Ready(row: Row, now: int) {
    row.status == Queued && row.nextRetryAt.Some? && row.nextRetryAt.value <= now
  }

  /** Row `i` has an earlier retry time than row `j`, or the same and a lower number. */
  predicate Earlier(rows: seq<Row>, i: nat, j: nat) {
    && i < |rows| && j < |rows| && rows[i].nextRetryAt.Some? && rows[j].nextRetryAt.Some?
    && (rows[i].nextRetryAt.value < rows[j].nextRetryAt.value ||
        (rows[i].nextRetryAt.value == rows[j].nextRetryAt.value && i < j))
  }

  lemma BatchIsPrefix(rows: seq<Row>, now: int, k: nat)
    requires k < |Batch(rows, now)|
    ensures k < |DueIds(rows, |rows|, now)| && Batch(rows, now)[k] == DueIds(rows, |rows|, now)[k]
  {
  }

  lemma BatchRowIsReady(rows: seq<Row>, now: int, k: nat)
    requires k < |Batch(rows, now)|
    ensures Batch(rows, now)[k] < |rows| && Ready(rows[Batch(rows, now)[k]], now)
  {
    BatchIsPrefix(rows, now, k);
    var due := DueIds(rows, |rows|, now);
    assert due[k] in due && Due(rows[due[k]], now);
  }

  lemma BatchRowsAreInOrder(rows: seq<Row>, now: int, j: nat, k: nat)
    requires j < k < |Batch(rows, now)|
    ensures Earlier(rows, Batch(rows, now)[j], Batch(rows, now)[k])
  {
    BatchIsPrefix(rows, now, j);
    BatchIsPrefix(rows, now, k);
    var due := DueIds(rows, |rows|, now);
    assert Before(rows, due[j], due[k]);
  }

  lemma BatchIsOfDueRows(rows: seq<Row>, now: int)
    ensures var batch := Batch(rows, now);
            && |batch| <= 50
            && (forall k :: 0 <= k < |batch| ==> batch[k] < |rows| && Ready(rows[batch[k]], now))
            && (forall j, k :: 0 <= j < k < |batch| ==> Earlier(rows, batch[j], batch[k]))
  {
    forall k | 0 <= k < |Batch(rows, now)|
      ensures Batch(rows, now)[k] < |rows| && Ready(rows[Batch(rows, now)[k]], now)
    {
      BatchRowIsReady(rows, now, k);
    }
    forall j, k | 0 <= j < k < |Batch(rows, now)| ensures Earlier(rows, Batch(rows, now)[j], Batch(rows, now)[k]) {
      BatchRowsAreInOrder(rows, now, j, k);
    }
  }

  lemma LeftOutIsLater(rows: seq<Row>, now: int, i: nat)
    requires i < |rows| && Ready(rows[i], now) && i !in Batch(rows, now)
    ensures var batch := Batch(rows, now); |batch| == 50 && forall k :: 0 <= k < |batch| ==> Earlier(rows, batch[k], i)
  {
    var due := DueIds(rows, |rows|, now);
    var batch := Batch(rows, now);
    assert Due(rows[i], now) && i in due;
    var p :| 0 <= p < |due| && due[p] == i;
    assert p >= |batch|;
    forall k | 0 <= k < |batch| ensures Earlier(rows, batch[k], i) {
      assert batch[k] == due[k] && Before(rows, due[k], due[p]);
    }
  }

  /** The batch holds ready rows only, each once and the earliest first, and a ready row is left out only when the
      batch is full of earlier ones. */
  lemma BatchTakesTheEarliest(rows: seq<Row>, now: int, i: nat)
    requires i < |rows|
    ensures var batch := Batch(rows, now);
            && Claimable(rows, batch) && |batch| <= 50
            && (i in batch ==> Ready(rows[i], now))
            && (Ready(rows[i], now) && i !in batch ==>
                  |batch| == 50 && forall k :: 0 <= k < |batch| ==> Earlier(rows, batch[k], i))
            && (forall j, k :: 0 <= j < k < |batch| ==> Earlier(rows, batch[j], batch[k]))
  {
    BatchIsOfDueRows(rows, now);
    if Ready(rows[i], now) && i !in Batch(rows, now) {
      LeftOutIsLater(rows, now, i);
    }
  }

  lemma BatchIsClaimable(rows: seq<Row>, now: int)
    ensures Claimable(rows, Batch(rows, now)) && |Batch(rows, now)| <= WORKER_BATCH_SIZE
  {
    if |rows| > 0 {
      BatchTakesTheEarliest(rows, now, 0);
    }
  }

  // ----- The worker -----

  /** What the environment does while one row is processed. */
  datatype Luck = Luck(generated: string, prepare: Reply, confirmed: bool, write: Reply,
                       debit: Reply, credit: Reply, requeue: Reply, now: int)
  {
    /** A confirmed payment is committed and mirrored without an error, or the commit has no effect. */
    predicate WellBehaved() {
      confirmed ==> write != LostReply && debit == Done && credit == Done
    }
  }

  /** Which statements one handler issues for its row, up to its end or to an error. */
  function MirrorSteps(h: nat, debit: Reply, credit: Reply): seq<Step> {
    [Mirror(h, debit)] + (if debit == Done then [Mirror(h, credit)] else [])
  }

  function FinalSteps(h: nat, luck: Luck): seq<Step> {
    if !luck.confirmed then [Refuse(h, luck.write, luck.now)]
    else
      [Commit(h, luck.write, luck.now)]
      + (if luck.write == Done then MirrorSteps(h, luck.debit, luck.credit) else [])
  }

  predicate PreimageFails(item: Row, luck: Luck) {
    !item.HasPreimage() && luck.prepare != Done
  }

  predicate Throws(item: Row, luck: Luck) {
    PreimageFails(item, luck) || luck.write != Done
  }

  function ItemSteps(h: nat, item: Row, luck: Luck): seq<Step> {
    [Prepare(h, luck.generated, luck.prepare, luck.now)]
    + (if PreimageFails(item, luck) then [] else [Switch(h, luck.confirmed)] + FinalSteps(h, luck))
  }

  lemma ItemStepsAfter(h: nat, item: Row, luck: Luck, done: seq<Step>)
    ensures var prepared := done + [Prepare(h, luck.generated, luck.prepare, luck.now)];
            && (PreimageFails(item, luck) ==> prepared == done + ItemSteps(h, item, luck))
            && (!PreimageFails(item, luck) ==>
                  prepared + [Switch(h, luck.confirmed)] + FinalSteps(h, luck) == done + ItemSteps(h, item, luck))
  {
  }

  /** A row that is put back: queued again, due after the delay of the attempts that the claimed copy had. */
  predicate PutBackAt(row: Row, item: Row, now: int) {
    && row.status == Queued && row.updatedAt == now
    && row.nextRetryAt == Some(now + CalcBackoffMs(NonNegative(item.attempts)))
  }

  lemma PutBackIsWritten(row: Row, item: Row, now: int)
    ensures PutBackAt(Requeued(row, item, now), item, now)
  {
  }

  lemma RefusalIsWritten(row: Row, item: Row, now: int)
    ensures RefusedAt(AfterRefusal(row, item, now), item, now)
  {
  }

  /** The status that a handler leaves when nothing throws. */
  function FinalStatus(item: Row, luck: Luck): Status {
    if luck.confirmed then Committed else if item.attempts + 1 >= item.maxAttempts then DeadLetter else Failed
  }

  /** A written failure: one attempt more than the claimed copy had, and a retry time after the delay for that many,
      unless the attempts are used up. */
  predicate RefusedAt(row: Row, item: Row, now: int) {
    && row.attempts == item.attempts + 1 && row.updatedAt == now
    && row.nextRetryAt == (if item.attempts + 1 >= item.maxAttempts then None
                           else Some(now + CalcBackoffMs(NonNegative(item.attempts + 1))))
  }

  function RequeueSteps(h: nat, luck: Luck): seq<Step> {
    if luck.requeue == NoEffect then [Crash(h)] else [Requeue(h, luck.now)]
  }

  function ClaimedSteps(h: nat, item: Row, luck: Luck): seq<Step> {
    ItemSteps(h, item, luck) + (if Throws(item, luck) then RequeueSteps(h, luck) else [])
  }

  predicate Stops(item: Row, luck: Luck) {
    Throws(item, luck) && luck.requeue != Done
  }

  function AbandonSteps(from: nat, to: nat): seq<Step>
    decreases if from < to then to - from else 0
  {
    if from >= to then [] else [Crash(from)] + AbandonSteps(from + 1, to)
  }

  /** The k-th claimed row; when its requeue fails the rest is left as claimed. */
  function NextSteps(first: nat, claimed: seq<Row>, luck: Luck, k: nat): seq<Step>
    requires k < |claimed|
  {
    ClaimedSteps(first + k, claimed[k], luck)
    + (if Stops(claimed[k], luck) then AbandonSteps(first + (k + 1), first + |claimed|) else [])
  }

  /** From the k-th claimed row on: row by row, until a requeue fails. */
  function BatchSteps(first: nat, claimed: seq<Row>, lucks: seq<Luck>, k: nat): seq<Step>
    requires |claimed| <= |lucks|
    decreases |claimed| - k
  {
    if k >= |claimed| then []
    else
      NextSteps(first, claimed, lucks[k], k)
      + (if Stops(claimed[k], lucks[k]) then [] else BatchSteps(first, claimed, lucks, k + 1))
  }

  /** Some row of the batch ends it early. */
  predicate Halts(claimed: seq<Row>, lucks: seq<Luck>)
    requires |claimed| <= |lucks|
  {
    exists k :: 0 <= k < |claimed| && Stops(claimed[k], lucks[k])
  }

  lemma Associative(a: seq<Step>, b: seq<Step>, c: seq<Step>)
    ensures (a + b) + c == a + (b + c)
  {
  }

  lemma NextStepsAfter(first: nat, claimed: seq<Row>, luck: Luck, k: nat, done: seq<Step>)
    requires k < |claimed|
    ensures var more := done + ClaimedSteps(first + k, claimed[k], luck);
            && (Stops(claimed[k], luck) ==>
                  more + AbandonSteps(first + (k + 1), first + |claimed|) == done + NextSteps(first, claimed, luck, k))
            && (!Stops(claimed[k], luck) ==> more == done + NextSteps(first, claimed, luck, k))
  {
    Associative(done, ClaimedSteps(first + k, claimed[k], luck), AbandonSteps(first + (k + 1), first + |claimed|));
    Associative(done, ClaimedSteps(first + k, claimed[k], luck), []);
  }

  /** After `done`, one more row: then the rest of the batch, unless it has been stopped. */
  lemma BatchUnfolds(first: nat, claimed: seq<Row>, lucks: seq<Luck>, k: nat, done: seq<Step>, all: seq<Step>)
    requires k < |claimed| <= |lucks| && done + BatchSteps(first, claimed, lucks, k) == all
    ensures var more := done + NextSteps(first, claimed, lucks[k], k);
            if Stops(claimed[k], lucks[k]) then more == all
            else more + BatchSteps(first, claimed, lucks, k + 1) == all
  {
    Associative(done, NextSteps(first, claimed, lucks[k], k), BatchSteps(first, claimed, lucks, k + 1));
  }

  /** The batch as the claim returns it. */
  function BatchRows(rows: seq<Row>, now: int): (r: seq<Row>)
    ensures |r| == |Batch(rows, now)| <= WORKER_BATCH_SIZE
  {
    BatchIsClaimable(rows, now);
    ClaimedRows(rows, Batch(rows, now), now)
  }

  function ClaimedRows(rows: seq<Row>, ids: seq<nat>, now: int): (r: seq<Row>)
    requires Claimable(rows, ids)
    ensures |r| == |ids|
  {
    seq(|ids|, k requires 0 <= k < |ids| => ClaimRows(rows, ids, now)[ids[k]])
  }

  /** When the reply of the claim is lost, the rows are left as they were claimed. */
  function AfterClaim(first: nat, claimed: seq<Row>, claim: Reply, lucks: seq<Luck>): seq<Step>
    requires |claimed| <= |lucks|
  {
    if claim == Done then BatchSteps(first, claimed, lucks, 0) else AbandonSteps(first, first + |claimed|)
  }

  function ClaimSteps(rows: seq<Row>, first: nat, claim: Reply, now: int, lucks: seq<Luck>): seq<Step>
    requires |lucks| >= WORKER_BATCH_SIZE
  {
    var ids := Batch(rows, now);
    BatchIsClaimable(rows, now);
    if claim == NoEffect then []
    else [Claim(ids, now)] + AfterClaim(first, ClaimedRows(rows, ids, now), claim, lucks)
  }

  /** All statements of one cycle. An error of the recovery ends it. */
  function CycleSteps(rows: seq<Row>, first: nat, recovery: Reply, claim: Reply, now: int, lucks: seq<Luck>): seq<Step>
    requires |lucks| >= WORKER_BATCH_SIZE
  {
    if recovery == NoEffect then []
    else
      [Recover(now)]
      + (if recovery == LostReply then [] else ClaimSteps(RecoverRows(rows, now), first, claim, now, lucks))
  }

  lemma ClaimStepsAfter(done: seq<Step>, rows: seq<Row>, first: nat, claim: Reply, now: int, lucks: seq<Luck>)
    requires |lucks| >= WORKER_BATCH_SIZE && claim != NoEffect
    ensures var ids, all := Batch(rows, now), done + ClaimSteps(rows, first, claim, now, lucks);
            && Claimable(rows, ids) && |ids| <= WORKER_BATCH_SIZE
            && done + [Claim(ids, now)] + AfterClaim(first, ClaimedRows(rows, ids, now), claim, lucks) == all
  {
    var ids := Batch(rows, now);
    BatchIsClaimable(rows, now);
    Associative(done, [Claim(ids, now)], AfterClaim(first, ClaimedRows(rows, ids, now), claim, lucks));
  }

  // ----- No row is lost -----

  /** Handler number `first` or later works on row `i`. */
  ghost predicate Taken(w: World, first: nat, i: nat) {
    exists g: nat :: first <= g < |w.handlers| && w.handlers[g].id == i && w.handlers[g].stage == Waiting
  }

  ghost predicate TakesEarlier(w: World, g: nat, i: nat)
    requires g < |w.handlers|
  {
    w.handlers[g].stage == Waiting && Earlier(w.rows, w.handlers[g].id, i)
  }

  lemma NewHandler(w: World, ids: seq<nat>, now: int, k: nat)
    requires Claimable(w.rows, ids) && k < |ids|
    ensures var t, first := Next(w, Claim(ids, now)), |w.handlers|;
            && |t.handlers| == first + |ids|
            && t.handlers[first + k].id == ids[k] && t.handlers[first + k].stage == Waiting
  {
    ClaimHandsOver(w, ids, now);
  }

  lemma ClaimKeepsOrder(w: World, ids: seq<nat>, now: int, i: nat, j: nat)
    requires Claimable(w.rows, ids) && Earlier(w.rows, i, j)
    ensures Earlier(Next(w, Claim(ids, now)).rows, i, j)
  {
  }

  /** After a claim from `first` on, row `i` is taken, or fifty earlier ones are. */
  ghost predicate TakenInTurn(t: World, first: nat, i: nat) {
    Taken(t, first, i) ||
    (|t.handlers| == first + 50 && forall g :: first <= g < |t.handlers| ==> TakesEarlier(t, g, i))
  }

  lemma ReadyRowIsTaken(w: World, now: int, i: nat)
    requires i < |w.rows| && Ready(w.rows[i], now)
    ensures TakenInTurn(Next(w, Claim(Batch(w.rows, now), now)), |w.handlers|, i)
  {
    var ids, first := Batch(w.rows, now), |w.handlers|;
    var t := Next(w, Claim(ids, now));
    BatchTakesTheEarliest(w.rows, now, i);
    if k :| 0 <= k < |ids| && ids[k] == i {
      NewHandler(w, ids, now, k);
    } else {
      NewHandler(w, ids, now, 0);
      forall g | first <= g < |t.handlers| ensures TakesEarlier(t, g, i) {
        NewHandler(w, ids, now, g - first);
        ClaimKeepsOrder(w, ids, now, ids[g - first], i);
      }
    }
  }

  /** In every run, a queued row that was not queued without a retry time has one, and whenever a worker issues its
      claim after that time it takes the row, unless it takes fifty earlier ones. */
  lemma {:induction false} QueuedRowsAreClaimed(steps: seq<Step>, i: nat, now: int)
    requires i < |Run(PaymentQueue.INITIAL, steps).rows|
    requires Run(PaymentQueue.INITIAL, steps).rows[i].status == Queued
    requires !exists k: nat :: QueuedUntimed(steps, k, i)
    ensures var w := Run(PaymentQueue.INITIAL, steps);
            var t, first := Next(w, Claim(Batch(w.rows, now), now)), |w.handlers|;
            && w.rows[i].nextRetryAt.Some?
            && (now >= w.rows[i].nextRetryAt.value ==> TakenInTurn(t, first, i))
  {
    var w := Run(PaymentQueue.INITIAL, steps);
    RunKeepsRetryTimes(steps, i);
    if now >= w.rows[i].nextRetryAt.value {
      ReadyRowIsTaken(w, now, i);
    }
  }

  /** The claim of a worker takes ready rows only, and no administrator retries row `i`. */
  predicate LeavesUntimed(w: World, step: Step, i: nat) {
    && (step.Claim? ==>
          forall k :: 0 <= k < |step.ids| ==> step.ids[k] < |w.rows| && Ready(w.rows[step.ids[k]], step.now))
    && (step.RetryDead? ==> i !in step.chosen)
  }

  ghost predicate LeavesUntimedThroughout(w: World, steps: seq<Step>, i: nat) {
    steps == [] ||
    (LeavesUntimedThroughout(w, steps[..|steps| - 1], i) &&
     LeavesUntimed(Run(w, steps[..|steps| - 1]), steps[|steps| - 1], i))
  }

  /** The row is queued, has no retry time, and nobody works on it. */
  ghost predicate WaitsForEver(w: World, i: nat) {
    i < |w.rows| && w.rows[i].status == Queued && w.rows[i].nextRetryAt.None? && Unheld(w, i)
  }

  lemma HandlerLeavesUntimed(w: World, step: Step, i: nat)
    requires WaitsForEver(w, i) && OnHandler(step)
    ensures WaitsForEver(Next(w, step), i) && Next(w, step).rows[i] == w.rows[i]
  {
    if step.h >= |w.handlers| {
      UnknownHandlerDoesNothing(w, step);
    } else if !w.handlers[step.h].Live() {
      FinishedHandlerDoesNothing(w, step);
    } else {
      HandlerTouchesItsRow(w, step, i);
    }
  }

  lemma HandlerTouchesItsRow(w: World, step: Step, i: nat)
    requires WaitsForEver(w, i) && OnHandler(step) && step.h < |w.handlers| && w.handlers[step.h].Live()
    ensures WaitsForEver(Next(w, step), i) && Next(w, step).rows[i] == w.rows[i]
  {
    var t, h := Next(w, step), step.h;
    assert w.handlers[h].id != i;
    HandlerFrame(w, step, i);
    forall g | 0 <= g < |t.handlers| && t.handlers[g].id == i ensures !t.handlers[g].Live() {
      assert g != h && t.handlers[g] == w.handlers[g];
    }
  }

  lemma HandlerFrame(w: World, step: Step, i: nat)
    requires OnHandler(step) && step.h < |w.handlers| && i < |w.rows| && w.handlers[step.h].id != i
    ensures var t := Next(w, step);
            && |t.rows| == |w.rows| && t.rows[i] == w.rows[i] && |t.handlers| == |w.handlers|
            && t.handlers[step.h].id == w.handlers[step.h].id
            && forall g :: 0 <= g < |w.handlers| && g != step.h ==> t.handlers[g] == w.handlers[g]
  {
  }

  lemma ClaimLeavesUntimed(w: World, ids: seq<nat>, now: int, i: nat)
    requires WaitsForEver(w, i) && LeavesUntimed(w, Claim(ids, now), i)
    ensures WaitsForEver(Next(w, Claim(ids, now)), i) && Next(w, Claim(ids, now)).rows[i] == w.rows[i]
  {
    if Claimable(w.rows, ids) {
      var t, n := Next(w, Claim(ids, now)), |w.handlers|;
      assert i !in ids;
      ClaimHandsOver(w, ids, now);
      forall g | 0 <= g < |t.handlers| ensures t.handlers[g].id == i ==> !t.handlers[g].Live() {
        if g < n {
          assert t.handlers[..n][g] == w.handlers[g];
        } else {
          assert t.handlers[n + (g - n)].id == ids[g - n];
        }
      }
    }
  }

  lemma StepLeavesUntimed(w: World, step: Step, i: nat)
    requires WaitsForEver(w, i) && LeavesUntimed(w, step, i)
    ensures WaitsForEver(Next(w, step), i) && Next(w, step).rows[i] == w.rows[i]
  {
    if OnHandler(step) {
      HandlerLeavesUntimed(w, step, i);
    } else if step.Claim? {
      ClaimLeavesUntimed(w, step.ids, step.now, i);
    }
  }

  lemma {:induction false} UntimedRowsStay(w: World, steps: seq<Step>, i: nat)
    requires WaitsForEver(w, i) && LeavesUntimedThroughout(w, steps, i)
    ensures WaitsForEver(Run(w, steps), i) && Run(w, steps).rows[i] == w.rows[i]
  {
    if steps != [] {
      UntimedRowsStay(w, steps[..|steps| - 1], i);
      StepLeavesUntimed(Run(w, steps[..|steps| - 1]), steps[|steps| - 1], i);
    }
  }

  /** A payment that is queued without a retry time is never worked on: after any run, and through any continuation
      in which workers claim ready rows and no administrator retries it, it stays as it was queued. Recovery does not
      help, as the row is not in process. */
  lemma {:induction false} UntimedPaymentsAreNeverClaimed(before: seq<Step>, step: Step, after: seq<Step>)
    requires step.Enqueue? && !step.timed
    requires LeavesUntimedThroughout(Next(Run(PaymentQueue.INITIAL, before), step), after,
                                     |Run(PaymentQueue.INITIAL, before).rows|)
    ensures var i, w := |Run(PaymentQueue.INITIAL, before).rows|, Next(Run(PaymentQueue.INITIAL, before), step);
            && WaitsForEver(w, i) && WaitsForEver(Run(w, after), i) && Run(w, after).rows[i] == w.rows[i]
  {
    var i, w := |Run(PaymentQueue.INITIAL, before).rows|, Next(Run(PaymentQueue.INITIAL, before), step);
    RunKeepsInv(before);
    UntimedRowsStay(w, after, i);
  }

  /** What a worker claims are ready rows. */
  lemma WorkersLeaveUntimed(w: World, now: int, i: nat)
    ensures LeavesUntimed(w, Claim(Batch(w.rows, now), now), i)
  {
    BatchIsOfDueRows(w.rows, now);
  }

  lemma FirstTwoSteps(w: World, now: int, lucks: seq<Luck>)
    requires |lucks| >= WORKER_BATCH_SIZE
    ensures var steps, recovered := CycleSteps(w.rows, |w.handlers|, Done, Done, now, lucks), Next(w, Recover(now));
            |steps| >= 2 && Run(w, steps[..2]) == Next(recovered, Claim(Batch(recovered.rows, now), now))
  {
    var steps, recovered := CycleSteps(w.rows, |w.handlers|, Done, Done, now, lucks), Next(w, Recover(now));
    var claim := Claim(Batch(recovered.rows, now), now);
    assert steps[..2] == [Recover(now)] + [claim] && [Recover(now)] == [] + [Recover(now)];
    RunSnoc(w, [Recover(now)], claim);
    RunSnoc(w, [], Recover(now));
  }

  /** A row that has been in process for a minute is taken by the next cycle, once its recovery and its claim
      succeed, unless the cycle takes fifty earlier ones. */
  lemma StuckRowsAreClaimed(w: World, i: nat, now: int, lucks: seq<Luck>)
    requires |lucks| >= WORKER_BATCH_SIZE
    requires i < |w.rows| && w.rows[i].status == Processing && w.rows[i].updatedAt <= now - 60_000
    ensures var steps, first := CycleSteps(w.rows, |w.handlers|, Done, Done, now, lucks), |w.handlers|;
            |steps| >= 2 && TakenInTurn(Run(w, steps[..2]), first, i)
  {
    FirstTwoSteps(w, now, lucks);
    ReadyRowIsTaken(Next(w, Recover(now)), now, i);
  }

  lemma Front(one: seq<Step>, head: seq<Step>, last: Step)
    ensures one + (head + [last]) == (one + head) + [last]
  {
  }

  lemma {:induction false} RunConcat(w: World, one: seq<Step>, other: seq<Step>)
    ensures Run(w, one + other) == Run(Run(w, one), other)
  {
    if other == [] {
      assert one + other == one;
    } else {
      var head, last := other[..|other| - 1], other[|other| - 1];
      RunConcat(w, one, head);
      RunSnoc(w, one + head, last);
      RunSnoc(Run(w, one), head, last);
      Front(one, head, last);
      assert other == head + [last];
    }
  }

  /** What the mirror update leaves in the accounts. */
  function Mirrored(accounts: seq<Account>, item: Row, debit: Reply, credit: Reply): seq<Account> {
    var debited := if debit == NoEffect then accounts else PostTo(accounts, item.debitAccount, Debit, item.amount);
    if debit != Done || credit == NoEffect then debited
    else PostTo(debited, item.creditAccount, Credit, item.amount)
  }

  predicate AllWellBehaved(lucks: seq<Luck>) {
    forall k :: 0 <= k < |lucks| ==> lucks[k].WellBehaved()
  }

  ghost predicate AccountsExist(w: World) {
    forall i :: 0 <= i < |w.rows| ==>
      HasAccount(w.accounts, w.rows[i].debitAccount) && HasAccount(w.accounts, w.rows[i].creditAccount)
  }

  /** `t` follows `w` by statements of handler `h` alone. */
  ghost predicate ByHandler(w: World, t: World, h: nat) {
    && h < |w.handlers| == |t.handlers|
    && SamePayments(w.rows, t.rows)
    && (forall g :: 0 <= g < |w.handlers| && g != h ==> t.handlers[g] == w.handlers[g])
    && t.handlers[h].id == w.handlers[h].id && t.handlers[h].snapshot == w.handlers[h].snapshot
    && (AccountsExist(w) ==> AccountsExist(t))
  }

  lemma SameAccountsStillExist(w: World, t: World)
    requires AccountsExist(w) && SamePayments(w.rows, t.rows) && t.accounts == w.accounts
    ensures AccountsExist(t)
  {
    forall i | 0 <= i < |t.rows|
      ensures HasAccount(t.accounts, t.rows[i].debitAccount) && HasAccount(t.accounts, t.rows[i].creditAccount)
    {
      assert w.rows[i].SamePayment(t.rows[i]);
    }
  }

  lemma MirrorStepByHandler(w: World, h: nat, side: Side, reply: Reply)
    requires h < |w.handlers|
    ensures ByHandler(w, MirrorStep(w, h, side, reply), h)
  {
    var t := MirrorStep(w, h, side, reply);
    if AccountsExist(w) && reply != NoEffect {
      var id, amount := w.handlers[h].snapshot.AccountOn(side), w.handlers[h].snapshot.amount;
      forall i | 0 <= i < |t.rows|
        ensures HasAccount(t.accounts, t.rows[i].debitAccount) && HasAccount(t.accounts, t.rows[i].creditAccount)
      {
        PostToKeepsAccounts(w.accounts, id, side, amount, t.rows[i].debitAccount);
        PostToKeepsAccounts(w.accounts, id, side, amount, t.rows[i].creditAccount);
      }
    }
  }

  lemma MirrorIsOneStep(w: World, h: nat, side: Side, reply: Reply)
    requires AtStage(w, h, if side == Debit then Debiting else Crediting)
    ensures var t, handler := Next(w, Mirror(h, reply)), w.handlers[h];
            && ByHandler(w, t, h) && t.rows == w.rows
            && t.accounts == (if reply == NoEffect then w.accounts
                              else PostTo(w.accounts, handler.snapshot.AccountOn(side), side, handler.snapshot.amount))
            && t.handlers[h].stage == (if side == Debit && reply == Done then Crediting else Finished)
  {
    MirrorStepByHandler(w, h, side, reply);
    assert Next(w, Mirror(h, reply)) == MirrorStep(w, h, side, reply);
  }

  lemma MirrorIsHealthy(w: World, h: nat)
    requires h < |w.handlers| && w.handlers[h].id < |w.rows| && AccountsExist(w)
    requires w.handlers[h].snapshot.SamePayment(w.rows[w.handlers[h].id])
    ensures Healthy(w, Mirror(h, Done))
  {
  }

  lemma StepByHandler(w: World, step: Step)
    requires OfHandler(step) && step.h < |w.handlers| && w.handlers[step.h].id < |w.rows|
    ensures ByHandler(w, Next(w, step), step.h)
  {
    HandlerStepShape(w, step);
    if AccountsExist(w) {
      SameAccountsStillExist(w, Next(w, step));
    }
  }

  lemma ByHandlerComposes(w: World, t: World, u: World, h: nat)
    requires ByHandler(w, t, h) && ByHandler(t, u, h)
    ensures ByHandler(w, u, h)
  {
  }

  lemma HealthySnoc(w: World, steps: seq<Step>, step: Step)
    ensures HealthyRun(w, steps + [step]) <==> HealthyRun(w, steps) && Healthy(Run(w, steps), step)
  {
    assert (steps + [step])[..|steps|] == steps;
  }

  lemma CrashIsHealthy(w: World, h: nat)
    requires AtStage(w, h, Waiting) || (AtStage(w, h, Erring) && w.rows[w.handlers[h].id].status != Committed)
    ensures Healthy(w, Crash(h)) && Next(w, Crash(h)) == Move(w, h, Finished)
  {
  }

  lemma RequeueWrites(w: World, h: nat, now: int)
    requires AtStage(w, h, Erring)
    ensures w.rows[w.handlers[h].id].status != Committed ==> Healthy(w, Requeue(h, now))
    ensures Next(w, Requeue(h, now)) ==
            Write(Move(w, h, Finished), w.handlers[h].id,
                  Requeued(w.rows[w.handlers[h].id], w.handlers[h].snapshot, now))
  {
  }

  /** `t` is `w` but for the handlers from `from` to `to`, which have died. */
  ghost predicate Abandoned(w: World, t: World, from: nat, to: nat) {
    && t == w.(handlers := t.handlers) && |t.handlers| == |w.handlers|
    && (forall g :: 0 <= g < |w.handlers| && !(from <= g < to) ==> t.handlers[g] == w.handlers[g])
    && (forall g :: from <= g < to && g < |w.handlers| ==> !t.handlers[g].Live())
  }

  ghost predicate AllWait(w: World, from: nat, to: nat) {
    from <= to && forall g: nat :: from <= g < to ==> AtStage(w, g, Waiting)
  }

  lemma OneAbandoned(w: World, from: nat, to: nat)
    requires AllWait(w, from, to) && from < to
    ensures AllWait(Next(w, Crash(from)), from + 1, to) && Healthy(w, Crash(from))
    ensures Abandoned(w, Next(w, Crash(from)), from, from + 1)
  {
    assert AtStage(w, from, Waiting);
    CrashIsHealthy(w, from);
    forall g: nat | from + 1 <= g < to ensures AtStage(Next(w, Crash(from)), g, Waiting) {
      assert AtStage(w, g, Waiting);
    }
  }

  lemma AbandonedComposes(w: World, t: World, u: World, from: nat, to: nat)
    requires from < to && Abandoned(w, t, from, from + 1) && Abandoned(t, u, from + 1, to)
    ensures Abandoned(w, u, from, to)
  {
    forall g | from <= g < to && g < |w.handlers| ensures !u.handlers[g].Live() {
      assert g == from ==> u.handlers[g] == t.handlers[g];
    }
  }

  lemma AbandonUnfolds(done: seq<Step>, from: nat, to: nat)
    ensures done + AbandonSteps(from, to) ==
            if from < to then done + [Crash(from)] + AbandonSteps(from + 1, to) else done
  {
    if from < to {
      Associative(done, [Crash(from)], AbandonSteps(from + 1, to));
    }
  }

  /** Handlers that wait and die one after the other leave everything else as it is. */
  lemma {:induction false} AbandonRuns(done: seq<Step>, from: nat, to: nat, all: seq<Step>)
    requires AllWait(Run(PaymentQueue.INITIAL, done), from, to) && all == done + AbandonSteps(from, to)
    ensures Abandoned(Run(PaymentQueue.INITIAL, done), Run(PaymentQueue.INITIAL, all), from, to)
    ensures HealthyRun(PaymentQueue.INITIAL, done) ==> HealthyRun(PaymentQueue.INITIAL, all)
    decreases if from < to then to - from else 0
  {
    AbandonUnfolds(done, from, to);
    if from < to {
      var w := Run(PaymentQueue.INITIAL, done);
      RunSnoc(PaymentQueue.INITIAL, done, Crash(from));
      HealthySnoc(PaymentQueue.INITIAL, done, Crash(from));
      OneAbandoned(w, from, to);
      AbandonRuns(done + [Crash(from)], from + 1, to, all);
      AbandonedComposes(w, Next(w, Crash(from)), Run(PaymentQueue.INITIAL, all), from, to);
    }
  }

  lemma AbandonedIsOver(w: World, t: World, first: nat, from: nat, to: nat)
    requires Abandoned(w, t, from, to) && first <= from && to == |w.handlers|
    requires forall g :: first <= g < from && g < |w.handlers| ==> !w.handlers[g].Live()
    ensures |t.handlers| == |w.handlers|
    ensures forall g :: first <= g < to ==> !t.handlers[g].Live()
    ensures first <= |w.handlers| ==> t.handlers[..first] == w.handlers[..first]
  {
  }

  lemma HeldRowIsProcessing(steps: seq<Step>, h: nat)
    requires HealthyRun(PaymentQueue.INITIAL, steps) && h < |Run(PaymentQueue.INITIAL, steps).handlers|
    requires Run(PaymentQueue.INITIAL, steps).handlers[h].stage in {Waiting, Calling, Settled, Refused}
    ensures var w := Run(PaymentQueue.INITIAL, steps); HasStatus(w, w.handlers[h].id, Processing)
  {
    HealthyRunKeepsAll(PaymentQueue.INITIAL, steps);
    assert HandlerOk(Run(PaymentQueue.INITIAL, steps), h);
  }

  lemma RecoverIsHealthyWhenQuiescent(w: World, now: int)
    requires Quiescent(w)
    ensures Healthy(w, Recover(now))
  {
  }

  lemma ClaimedColumns(rows: seq<Row>, ids: seq<nat>, now: int)
    ensures |ClaimRows(rows, ids, now)| == |rows|
    ensures forall i :: 0 <= i < |rows| ==>
              ClaimRows(rows, ids, now)[i] ==
              if i in ids then rows[i].(status := Processing, updatedAt := now) else rows[i]
  {
  }

  lemma ClaimHandsOver(w: World, ids: seq<nat>, now: int)
    requires Claimable(w.rows, ids)
    ensures var t, n := Next(w, Claim(ids, now)), |w.handlers|;
            && t.rows == ClaimRows(w.rows, ids, now) && t.accounts == w.accounts
            && |t.handlers| == n + |ids| && t.handlers[..n] == w.handlers
            && (forall k :: 0 <= k < |ids| ==>
                  && t.handlers[n + k] == Handler(ids[k], ClaimedRows(w.rows, ids, now)[k], Waiting)
                  && ids[k] < |t.rows| && ClaimedRows(w.rows, ids, now)[k].SamePayment(t.rows[ids[k]]))
            && (AccountsExist(w) ==> AccountsExist(t))
  {
    if AccountsExist(w) {
      SameAccountsStillExist(w, Next(w, Claim(ids, now)));
    }
  }

  lemma QuiescentAgain(w: World, t: World)
    requires |w.handlers| <= |t.handlers| && t.handlers[..|w.handlers|] == w.handlers
    requires forall g :: |w.handlers| <= g < |t.handlers| ==> !t.handlers[g].Live()
    ensures Quiescent(w) ==> Quiescent(t)
  {
    assert forall g :: 0 <= g < |w.handlers| ==> t.handlers[g] == t.handlers[..|w.handlers|][g];
  }

  class PaymentWorker {
    var rows: seq<Row>
    var accounts: seq<Account>
    ghost var world: World
    ghost var trace: seq<Step>

    ghost predicate Valid()
      reads this
    {
      world == Run(PaymentQueue.INITIAL, trace) && rows == world.rows && accounts == world.accounts
    }

    /** Whether every statement so far was issued in a healthy situation. */
    ghost predicate AllHealthy()
      reads this
    {
      HealthyRun(PaymentQueue.INITIAL, trace)
    }

    /** Handler `h` works on row `id` with the copy `item` and has reached `stage`. */
    ghost predicate Works(h: nat, id: nat, item: Row, stage: Stage)
      reads this
    {
      && h < |world.handlers| && world.handlers[h] == Handler(id, item, stage)
      && id < |rows| && item.SamePayment(rows[id])
    }

    /** A worker attaches to the tables that some earlier run has left behind. */
    constructor (rows: seq<Row>, accounts: seq<Account>, ghost history: seq<Step>)
      requires rows == Run(PaymentQueue.INITIAL, history).rows
      requires accounts == Run(PaymentQueue.INITIAL, history).accounts
      ensures Valid() && trace == history
      ensures this.rows == rows && this.accounts == accounts
    {
      this.rows, this.accounts := rows, accounts;
      world, trace := Run(PaymentQueue.INITIAL, history), history;
    }

    /** Books a statement that has just been applied to the tables. */
    ghost method Book(step: Step)
      requires world == Run(PaymentQueue.INITIAL, trace)
      requires rows == Next(world, step).rows && accounts == Next(world, step).accounts
      modifies this`world, this`trace
      ensures Valid() && world == Next(old(world), step) && trace == old(trace) + [step]
      ensures AllHealthy() <==> old(AllHealthy()) && Healthy(old(world), step)
    {
      RunSnoc(PaymentQueue.INITIAL, trace, step);
      HealthySnoc(PaymentQueue.INITIAL, trace, step);
      world := Next(world, step);
      trace := trace + [step];
    }

    /** Recovery leaves alone all handlers; when none is live it also respects the lease. */
    method RecoverStuckItems(now: int)
      requires Valid()
      modifies this
      ensures Valid() && trace == old(trace) + [Recover(now)]
      ensures rows == RecoverRows(old(rows), now) && accounts == old(accounts)
      ensures forall i :: 0 <= i < |rows| ==>
                var row := old(rows)[i];
                rows[i] == if row.status == Processing && row.updatedAt <= now - 60_000
                           then row.(status := Queued, nextRetryAt := Some(now), updatedAt := now) else row
      ensures world.handlers == old(world).handlers && (old(AccountsExist(world)) ==> AccountsExist(world))
      ensures old(AllHealthy() && Quiescent(world)) ==> AllHealthy()
    {
      rows := RecoverRows(rows, now);
      if AccountsExist(world) {
        SameAccountsStillExist(world, Next(world, Recover(now)));
      }
      if Quiescent(world) {
        RecoverIsHealthyWhenQuiescent(world, now);
      }
      Book(Recover(now));
    }

    /** One UPDATE that claims the given rows; the k-th becomes handler number `first + k`. */
    method ClaimGiven(ids: seq<nat>, now: int) returns (claimed: seq<Row>, ghost first: nat)
      requires Valid() && Claimable(rows, ids)
      modifies this
      ensures Valid() && trace == old(trace) + [Claim(ids, now)] && world == Next(old(world), Claim(ids, now))
      ensures rows == ClaimRows(old(rows), ids, now) && accounts == old(accounts)
      ensures first == |old(world).handlers| && claimed == ClaimedRows(old(rows), ids, now)
      ensures old(AllHealthy()) ==> AllHealthy()
    {
      first := |world.handlers|;
      claimed := ClaimedRows(rows, ids, now);
      rows := ClaimRows(rows, ids, now);
      Book(Claim(ids, now));
    }

    lemma ClaimedOnesWait(w: World, ids: seq<nat>, now: int)
      requires Claimable(w.rows, ids) && world == Next(w, Claim(ids, now)) && rows == world.rows
      ensures Pending(|w.handlers|, 0, ids, ClaimedRows(w.rows, ids, now))
      ensures world.handlers[..|w.handlers|] == w.handlers && (AccountsExist(w) ==> AccountsExist(world))
    {
      ClaimHandsOver(w, ids, now);
      forall k | 0 <= k < |ids| ensures Works(|w.handlers| + k, ids[k], ClaimedRows(w.rows, ids, now)[k], Waiting) {
      }
    }

    /** Claims a batch and returns the claimed rows. */
    method ClaimBatch(now: int) returns (ids: seq<nat>, claimed: seq<Row>, ghost first: nat)
      requires Valid()
      modifies this
      ensures Valid() && trace == old(trace) + [Claim(ids, now)]
      ensures ids == Batch(old(rows), now) && |ids| <= WORKER_BATCH_SIZE
      ensures rows == ClaimRows(old(rows), ids, now) && accounts == old(accounts)
      ensures forall i :: 0 <= i < |rows| ==>
                rows[i] == if i in ids then old(rows)[i].(status := Processing, updatedAt := now) else old(rows)[i]
      ensures first == |old(world).handlers| && |claimed| == |ids| && |world.handlers| == first + |ids|
      ensures Claimable(old(rows), ids) && claimed == ClaimedRows(old(rows), ids, now)
      ensures Pending(first, 0, ids, claimed)
      ensures world.handlers[..first] == old(world).handlers && (old(AccountsExist(world)) ==> AccountsExist(world))
      ensures old(AllHealthy()) ==> AllHealthy()
    {
      ids := Batch(rows, now);
      BatchIsClaimable(rows, now);
      ClaimedColumns(rows, ids, now);
      claimed, first := ClaimGiven(ids, now);
      ClaimedOnesWait(old(world), ids, now);
    }

    method EnsureIlpPreimage(ghost h: nat, id: nat, item: Row, luck: Luck) returns (threw: bool)
      requires Valid() && Works(h, id, item, Waiting)
      modifies this
      ensures Valid() && trace == old(trace) + [Prepare(h, luck.generated, luck.prepare, luck.now)]
      ensures ByHandler(old(world), world, h)
      ensures Works(h, id, item, if threw then Erring else Calling)
      ensures threw <==> item.preimage in {None, Some("")} && luck.prepare != Done
      ensures !threw ==>
                rows[id].preimage == if item.preimage in {None, Some("")} then Some(luck.generated)
                                     else old(rows[id].preimage)
      ensures rows[id] == old(rows[id]).(preimage := rows[id].preimage, updatedAt := rows[id].updatedAt)
      ensures old(AllHealthy()) ==> AllHealthy()
    {
      StepByHandler(world, Prepare(h, luck.generated, luck.prepare, luck.now));
      threw := false;
      if !item.HasPreimage() {
        if luck.prepare != NoEffect {
          rows := rows[id := rows[id].(preimage := Some(luck.generated), updatedAt := luck.now)];
        }
        threw := luck.prepare != Done;
      }
      Book(Prepare(h, luck.generated, luck.prepare, luck.now));
    }

    /** The transfer through the payment switch: its outcome comes from outside. */
    method CallMojaloopTransfer(ghost h: nat, id: nat, item: Row, luck: Luck) returns (success: bool)
      requires Valid() && Works(h, id, item, Calling)
      modifies this`world, this`trace
      ensures Valid() && trace == old(trace) + [Switch(h, luck.confirmed)] && ByHandler(old(world), world, h)
      ensures Works(h, id, item, if success then Settled else Refused) && success == luck.confirmed
      ensures old(AllHealthy()) ==> AllHealthy()
    {
      StepByHandler(world, Switch(h, luck.confirmed));
      Book(Switch(h, luck.confirmed));
      success := luck.confirmed;
    }

    method CommitItem(ghost h: nat, id: nat, item: Row, luck: Luck) returns (threw: bool)
      requires Valid() && Works(h, id, item, Settled)
      modifies this
      ensures Valid() && trace == old(trace) + [Commit(h, luck.write, luck.now)] && ByHandler(old(world), world, h)
      ensures Works(h, id, item, if threw then Erring else Debiting) && (threw <==> luck.write != Done)
      ensures luck.write != NoEffect ==> rows[id] == old(rows[id]).(status := Committed, updatedAt := luck.now)
      ensures luck.write == NoEffect ==> rows == old(rows)
      ensures old(AllHealthy()) ==> AllHealthy()
    {
      StepByHandler(world, Commit(h, luck.write, luck.now));
      if luck.write != NoEffect {
        rows := rows[id := rows[id].(status := Committed, updatedAt := luck.now)];
      }
      Book(Commit(h, luck.write, luck.now));
      threw := luck.write != Done;
    }

    method FailItem(ghost h: nat, id: nat, item: Row, luck: Luck) returns (threw: bool)
      requires Valid() && Works(h, id, item, Refused)
      modifies this
      ensures Valid() && trace == old(trace) + [Refuse(h, luck.write, luck.now)] && ByHandler(old(world), world, h)
      ensures Works(h, id, item, if threw then Erring else Finished) && (threw <==> luck.write != Done)
      ensures luck.write != NoEffect ==>
                rows[id] == AfterRefusal(old(rows[id]), item, luck.now) && RefusedAt(rows[id], item, luck.now)
      ensures luck.write == NoEffect ==> rows == old(rows)
      ensures old(AllHealthy()) ==> AllHealthy()
    {
      StepByHandler(world, Refuse(h, luck.write, luck.now));
      if luck.write != NoEffect {
        RefusalIsWritten(rows[id], item, luck.now);
        rows := rows[id := AfterRefusal(rows[id], item, luck.now)];
      }
      Book(Refuse(h, luck.write, luck.now));
      threw := luck.write != Done;
    }

    method PostMirror(ghost h: nat, id: nat, item: Row, side: Side, reply: Reply)
      requires Valid() && Works(h, id, item, if side == Debit then Debiting else Crediting)
      modifies this
      ensures Valid() && trace == old(trace) + [Mirror(h, reply)] && ByHandler(old(world), world, h)
      ensures Works(h, id, item, if side == Debit && reply == Done then Crediting else Finished)
      ensures rows == old(rows)
      ensures accounts == if reply == NoEffect then old(accounts)
                          else PostTo(old(accounts), item.AccountOn(side), side, item.amount)
      ensures old(AllHealthy()) && reply == Done && old(AccountsExist(world)) ==> AllHealthy()
    {
      MirrorIsOneStep(world, h, side, reply);
      if reply == Done && AccountsExist(world) {
        MirrorIsHealthy(world, h);
      }
      if reply != NoEffect {
        accounts := PostTo(accounts, item.AccountOn(side), side, item.amount);
      }
      Book(Mirror(h, reply));
    }

    /** A failed mirror update is only logged: the remaining one is skipped. */
    method UpdateBalanceMirror(ghost h: nat, id: nat, item: Row, debit: Reply, credit: Reply)
      requires Valid() && Works(h, id, item, Debiting)
      modifies this
      ensures Valid() && trace == old(trace) + MirrorSteps(h, debit, credit) && ByHandler(old(world), world, h)
      ensures Works(h, id, item, Finished) && rows == old(rows)
      ensures accounts == Mirrored(old(accounts), item, debit, credit)
      ensures old(AllHealthy()) && debit == Done && credit == Done && old(AccountsExist(world)) ==> AllHealthy()
    {
      PostMirror(h, id, item, Debit, debit);
      if debit == Done {
        ghost var debited := world;
        PostMirror(h, id, item, Credit, credit);
        ByHandlerComposes(old(world), debited, world, h);
      }
    }

    /** Writes what the switch has decided, and after a commit the mirror. */
    method FinishItem(ghost h: nat, id: nat, item: Row, luck: Luck) returns (threw: bool)
      requires Valid() && Works(h, id, item, if luck.confirmed then Settled else Refused)
      modifies this
      ensures Valid() && trace == old(trace) + FinalSteps(h, luck) && ByHandler(old(world), world, h)
      ensures Works(h, id, item, if threw then Erring else Finished) && (threw <==> luck.write != Done)
      ensures !threw ==> rows[id].status == FinalStatus(item, luck)
      ensures !threw && !luck.confirmed ==> RefusedAt(rows[id], item, luck.now)
      ensures threw && old(AllHealthy()) && luck.WellBehaved() ==> rows[id].status != Committed
      ensures old(AllHealthy()) && luck.WellBehaved() && old(AccountsExist(world)) ==> AllHealthy()
    {
      if AllHealthy() {
        HeldRowIsProcessing(trace, h);
      }
      if luck.confirmed {
        threw := CommitItem(h, id, item, luck);
        if !threw {
          ghost var committed := world;
          UpdateBalanceMirror(h, id, item, luck.debit, luck.credit);
          ByHandlerComposes(old(world), committed, world, h);
        }
      } else {
        threw := FailItem(h, id, item, luck);
      }
    }

    /** The call, and what follows it. */
    method SettleItem(ghost h: nat, id: nat, item: Row, luck: Luck) returns (threw: bool)
      requires Valid() && Works(h, id, item, Calling)
      modifies this
      ensures Valid() && trace == old(trace) + [Switch(h, luck.confirmed)] + FinalSteps(h, luck)
      ensures ByHandler(old(world), world, h)
      ensures Works(h, id, item, if threw then Erring else Finished) && (threw <==> luck.write != Done)
      ensures !threw ==> rows[id].status == FinalStatus(item, luck)
      ensures !threw && !luck.confirmed ==> RefusedAt(rows[id], item, luck.now)
      ensures threw && old(AllHealthy()) && luck.WellBehaved() ==> rows[id].status != Committed
      ensures old(AllHealthy()) && luck.WellBehaved() && old(AccountsExist(world)) ==> AllHealthy()
    {
      var success := CallMojaloopTransfer(h, id, item, luck);
      ghost var called := world;
      threw := FinishItem(h, id, item, luck);
      ByHandlerComposes(old(world), called, world, h);
    }

    method ProcessItem(ghost h: nat, id: nat, item: Row, luck: Luck) returns (threw: bool)
      requires Valid() && Works(h, id, item, Waiting)
      modifies this
      ensures Valid() && trace == old(trace) + ItemSteps(h, item, luck) && ByHandler(old(world), world, h)
      ensures Works(h, id, item, if threw then Erring else Finished) && (threw <==> Throws(item, luck))
      ensures !threw ==> rows[id].status == FinalStatus(item, luck)
      ensures !threw && !luck.confirmed ==> RefusedAt(rows[id], item, luck.now)
      ensures threw && old(AllHealthy()) && luck.WellBehaved() ==> rows[id].status != Committed
      ensures old(AllHealthy()) && luck.WellBehaved() && old(AccountsExist(world)) ==> AllHealthy()
    {
      if AllHealthy() {
        HeldRowIsProcessing(trace, h);
      }
      ItemStepsAfter(h, item, luck, trace);
      threw := EnsureIlpPreimage(h, id, item, luck);
      if threw {
        return;
      }
      ghost var prepared := world;
      threw := SettleItem(h, id, item, luck);
      ByHandlerComposes(old(world), prepared, world, h);
    }

    /** A handler that dies does nothing any more. */
    ghost method Die(h: nat, id: nat, item: Row)
      requires Valid() && Works(h, id, item, Erring)
      modifies this`world, this`trace
      ensures Valid() && trace == old(trace) + [Crash(h)] && ByHandler(old(world), world, h)
      ensures Works(h, id, item, Finished) && rows == old(rows)
      ensures old(AllHealthy()) && rows[id].status != Committed ==> AllHealthy()
    {
      StepByHandler(world, Crash(h));
      if rows[id].status != Committed {
        CrashIsHealthy(world, h);
      }
      Book(Crash(h));
    }

    method PutBack(ghost h: nat, id: nat, item: Row, luck: Luck)
      requires Valid() && Works(h, id, item, Erring)
      modifies this
      ensures Valid() && trace == old(trace) + [Requeue(h, luck.now)] && ByHandler(old(world), world, h)
      ensures Works(h, id, item, Finished) && rows[id] == Requeued(old(rows[id]), item, luck.now)
      ensures PutBackAt(rows[id], item, luck.now)
      ensures old(AllHealthy()) && old(rows[id].status) != Committed ==> AllHealthy()
    {
      StepByHandler(world, Requeue(h, luck.now));
      RequeueWrites(world, h, luck.now);
      PutBackIsWritten(rows[id], item, luck.now);
      rows := rows[id := Requeued(rows[id], item, luck.now)];
      Book(Requeue(h, luck.now));
    }

    /** Puts the row back after an unexpected error; this statement may fail in its turn. */
    method RequeueAfterError(ghost h: nat, id: nat, item: Row, luck: Luck) returns (threw: bool)
      requires Valid() && Works(h, id, item, Erring)
      modifies this
      ensures Valid() && trace == old(trace) + RequeueSteps(h, luck) && ByHandler(old(world), world, h)
      ensures Works(h, id, item, Finished) && (threw <==> luck.requeue != Done)
      ensures luck.requeue != NoEffect ==> PutBackAt(rows[id], item, luck.now)
      ensures old(AllHealthy()) && old(rows[id].status) != Committed ==> AllHealthy()
    {
      if luck.requeue == NoEffect {
        Die(h, id, item);
      } else {
        PutBack(h, id, item, luck);
      }
      threw := luck.requeue != Done;
    }

    /** The handlers from `first + k` on are waiting. */
    ghost predicate Pending(first: nat, k: nat, ids: seq<nat>, claimed: seq<Row>)
      reads this
    {
      && |claimed| == |ids| && |world.handlers| == first + |ids|
      && forall j :: k <= j < |ids| ==> Works(first + j, ids[j], claimed[j], Waiting)
    }

    ghost predicate Over(from: nat, to: nat)
      reads this
    {
      forall g :: from <= g < to && g < |world.handlers| ==> !world.handlers[g].Live()
    }

    /** One claimed row: its processing, and after an error its requeue. */
    method HandleClaimed(ghost h: nat, id: nat, item: Row, luck: Luck) returns (stop: bool)
      requires Valid() && Works(h, id, item, Waiting)
      modifies this
      ensures Valid() && trace == old(trace) + ClaimedSteps(h, item, luck) && ByHandler(old(world), world, h)
      ensures Works(h, id, item, Finished) && (stop <==> Stops(item, luck))
      ensures old(AllHealthy() && AccountsExist(world)) && luck.WellBehaved() ==> AllHealthy()
    {
      ghost var before := world;
      stop := ProcessItem(h, id, item, luck);
      if stop {
        ghost var processed := world;
        Associative(old(trace), ItemSteps(h, item, luck), RequeueSteps(h, luck));
        stop := RequeueAfterError(h, id, item, luck);
        ByHandlerComposes(before, processed, world, h);
      }
    }

    /** Handles one claimed row from beginning to end; true when the whole cycle must stop. */
    method ProcessClaimed(ghost first: nat, k: nat, ids: seq<nat>, claimed: seq<Row>, luck: Luck) returns (stop: bool)
      requires Valid() && k < |ids| && Pending(first, k, ids, claimed) && Over(first, first + k)
      modifies this
      ensures Valid() && trace == old(trace) + ClaimedSteps(first + k, claimed[k], luck)
      ensures stop <==> Stops(claimed[k], luck)
      ensures Pending(first, k + 1, ids, claimed) && Over(first, first + k + 1)
      ensures world.handlers[..first] == old(world.handlers[..first])
      ensures old(AllHealthy() && AccountsExist(world)) && luck.WellBehaved() ==> AllHealthy() && AccountsExist(world)
    {
      ghost var h := first + k;
      ghost var before := world;
      assert Works(h, ids[k], claimed[k], Waiting);
      stop := HandleClaimed(h, ids[k], claimed[k], luck);
      OtherHandlersStillWait(before, h, first, k, ids, claimed);
    }

    lemma OtherHandlersStillWait(before: World, h: nat, first: nat, k: nat, ids: seq<nat>, claimed: seq<Row>)
      requires ByHandler(before, world, h) && h == first + k && k < |ids| && rows == world.rows
      requires |claimed| == |ids| && |before.handlers| == first + |ids|
      requires forall j :: k <= j < |ids| ==>
                 && before.handlers[first + j] == Handler(ids[j], claimed[j], Waiting)
                 && ids[j] < |before.rows| && claimed[j].SamePayment(before.rows[ids[j]])
      requires forall g :: first <= g < first + k ==> !before.handlers[g].Live()
      requires !world.handlers[h].Live()
      ensures Pending(first, k + 1, ids, claimed) && Over(first, first + k + 1)
      ensures world.handlers[..first] == before.handlers[..first]
    {
      forall j | k + 1 <= j < |ids| ensures Works(first + j, ids[j], claimed[j], Waiting) {
        assert before.rows[ids[j]].SamePayment(world.rows[ids[j]]);
      }
    }

    /** When a cycle stops early, the rows not yet processed are left as they were claimed. */
    ghost method AbandonRest(first: nat, from: nat, ids: seq<nat>, claimed: seq<Row>)
      requires Valid() && from <= |ids| && Pending(first, from, ids, claimed) && Over(first, first + from)
      modifies this`world, this`trace
      ensures Valid() && trace == old(trace) + AbandonSteps(first + from, first + |claimed|)
      ensures |world.handlers| == first + |ids| && Over(first, first + |ids|)
      ensures world.handlers[..first] == old(world.handlers[..first])
      ensures old(AllHealthy()) ==> AllHealthy()
    {
      WaitingOnes(first, from, ids, claimed);
      AbandonRuns(trace, first + from, first + |claimed|, trace + AbandonSteps(first + from, first + |claimed|));
      trace := trace + AbandonSteps(first + from, first + |claimed|);
      world := Run(PaymentQueue.INITIAL, trace);
      AbandonedIsOver(old(world), world, first, first + from, first + |claimed|);
    }

    lemma WaitingOnes(first: nat, from: nat, ids: seq<nat>, claimed: seq<Row>)
      requires Pending(first, from, ids, claimed) && from <= |ids| && rows == world.rows
      ensures AllWait(world, first + from, first + |claimed|)
    {
      forall g: nat | first + from <= g < first + |claimed| ensures AtStage(world, g, Waiting) {
        assert Works(first + (g - first), ids[g - first], claimed[g - first], Waiting);
      }
    }

    /** The k-th claimed row, and when its requeue fails the end of the batch. */
    method ProcessNext(ghost first: nat, k: nat, ids: seq<nat>, claimed: seq<Row>, luck: Luck) returns (stop: bool)
      requires Valid() && k < |ids| && Pending(first, k, ids, claimed) && Over(first, first + k)
      modifies this
      ensures Valid() && (stop <==> Stops(claimed[k], luck))
      ensures trace == old(trace) + NextSteps(first, claimed, luck, k)
      ensures |world.handlers| == first + |ids| && world.handlers[..first] == old(world.handlers[..first])
      ensures if stop then Over(first, first + |ids|)
              else Pending(first, k + 1, ids, claimed) && Over(first, first + k + 1)
      ensures old(AllHealthy() && AccountsExist(world)) && luck.WellBehaved() ==> AllHealthy()
      ensures !stop && old(AllHealthy() && AccountsExist(world)) && luck.WellBehaved() ==> AccountsExist(world)
    {
      ghost var all := trace + NextSteps(first, claimed, luck, k);
      NextStepsAfter(first, claimed, luck, k, trace);
      stop := ProcessClaimed(first, k, ids, claimed, luck);
      if stop {
        AbandonRest(first, k + 1, ids, claimed);
        assert trace == all;
      }
    }

    /** Processes the claimed rows one after the other. */
    method ProcessBatch(ghost first: nat, ids: seq<nat>, claimed: seq<Row>, lucks: seq<Luck>) returns (processed: nat)
      requires Valid() && Pending(first, 0, ids, claimed) && |ids| <= |lucks|
      modifies this
      ensures Valid() && trace == old(trace) + BatchSteps(first, claimed, lucks, 0)
      ensures |world.handlers| == first + |ids| && Over(first, first + |ids|)
      ensures world.handlers[..first] == old(world.handlers[..first])
      ensures processed == if Halts(claimed, lucks) then 0 else |ids|
      ensures (old(AllHealthy() && AccountsExist(world)) && AllWellBehaved(lucks)) ==> AllHealthy()
    {
      ghost var healthy := AllHealthy() && AccountsExist(world) && AllWellBehaved(lucks);
      ghost var all := trace + BatchSteps(first, claimed, lucks, 0);
      for k := 0 to |ids|
        invariant Valid() && Pending(first, k, ids, claimed) && Over(first, first + k)
        invariant trace + BatchSteps(first, claimed, lucks, k) == all
        invariant world.handlers[..first] == old(world.handlers[..first])
        invariant healthy ==> AllHealthy() && AccountsExist(world)
        invariant forall j :: 0 <= j < k ==> !Stops(claimed[j], lucks[j])
      {
        BatchUnfolds(first, claimed, lucks, k, trace, all);
        var stop := ProcessNext(first, k, ids, claimed, lucks[k]);
        if stop {
          assert Halts(claimed, lucks);
          return 0;
        }
      }
      assert !Halts(claimed, lucks);
      return |ids|;
    }

    method ProcessAfterClaim(ghost first: nat, ids: seq<nat>, claimed: seq<Row>, claim: Reply, lucks: seq<Luck>)
      returns (processed: nat)
      requires Valid() && Pending(first, 0, ids, claimed) && |ids| <= |lucks|
      modifies this
      ensures Valid() && trace == old(trace) + AfterClaim(first, claimed, claim, lucks)
      ensures |world.handlers| == first + |ids| && Over(first, first + |ids|)
      ensures world.handlers[..first] == old(world.handlers[..first])
      ensures processed == if claim == Done && !Halts(claimed, lucks) then |ids| else 0
      ensures old(AllHealthy() && AccountsExist(world)) && AllWellBehaved(lucks) ==> AllHealthy()
    {
      if claim == Done {
        processed := ProcessBatch(first, ids, claimed, lucks);
      } else {
        AbandonRest(first, 0, ids, claimed);
        processed := 0;
      }
    }

    /** The claim and what follows it. */
    method ClaimAndProcess(claim: Reply, now: int, lucks: seq<Luck>) returns (processed: nat)
      requires Valid() && |lucks| >= WORKER_BATCH_SIZE
      modifies this
      ensures Valid() && trace == old(trace) + ClaimSteps(old(rows), |old(world).handlers|, claim, now, lucks)
      ensures |world.handlers| >= |old(world).handlers|
      ensures world.handlers[..|old(world).handlers|] == old(world).handlers
      ensures Over(|old(world).handlers|, |world.handlers|)
      ensures processed == if claim == Done && !Halts(BatchRows(old(rows), now), lucks)
                           then |Batch(old(rows), now)| else 0
      ensures old(AllHealthy() && AccountsExist(world)) && AllWellBehaved(lucks) ==> AllHealthy()
    {
      if claim == NoEffect {
        return 0;
      }
      ghost var all := trace + ClaimSteps(rows, |world.handlers|, claim, now, lucks);
      ClaimStepsAfter(trace, rows, |world.handlers|, claim, now, lucks);
      var ids, claimed, first := ClaimBatch(now);
      processed := ProcessAfterClaim(first, ids, claimed, claim, lucks);
      assert trace == all;
    }

    /** One cycle, whatever happens to each of its statements. It issues exactly its statements, it leaves none
        of its handlers live, and when no other handler is live, every account exists and every outcome is well
        behaved, it keeps the run healthy. */
    method RunPaymentWorkerCycle(recovery: Reply, claim: Reply, now: int, lucks: seq<Luck>) returns (processed: nat)
      requires Valid() && |lucks| >= WORKER_BATCH_SIZE
      modifies this
      ensures Valid()
      ensures trace == old(trace) + CycleSteps(old(rows), |old(world).handlers|, recovery, claim, now, lucks)
      ensures world == Run(old(world), CycleSteps(old(rows), |old(world).handlers|, recovery, claim, now, lucks))
      ensures |world.handlers| >= |old(world).handlers|
      ensures world.handlers[..|old(world).handlers|] == old(world).handlers
      ensures Over(|old(world).handlers|, |world.handlers|)
      ensures processed == if recovery == claim == Done && !Halts(BatchRows(RecoverRows(old(rows), now), now), lucks)
                           then |Batch(RecoverRows(old(rows), now), now)| else 0
      ensures old(AllHealthy() && Quiescent(world) && AccountsExist(world)) && AllWellBehaved(lucks) ==>
                AllHealthy() && Quiescent(world)
    {
      ghost var steps := CycleSteps(rows, |world.handlers|, recovery, claim, now, lucks);
      RunConcat(PaymentQueue.INITIAL, trace, steps);
      processed := 0;
      if recovery != NoEffect {
        RecoverStuckItems(now);
        if recovery == Done {
          Associative(old(trace), [Recover(now)], ClaimSteps(rows, |world.handlers|, claim, now, lucks));
          processed := ClaimAndProcess(claim, now, lucks);
        }
      }
      assert trace == old(trace) + steps;
      QuiescentAgain(old(world), world);
    }
  }

  /** After healthy cycles the tables of the worker are balanced. */
  lemma HealthyWorkerIsClean(worker: PaymentWorker)
    requires worker.Valid() && worker.AllHealthy() && Quiescent(worker.world)
    ensures forall k, side :: 0 <= k < |worker.accounts| ==>
            BalanceDrift.Drift(side, worker.accounts[k], worker.rows) == 0
    ensures BalanceDrift.TotalPosted(Debit, worker.accounts) == BalanceDrift.TotalPosted(Credit, worker.accounts)
  {
    QuiescentStatesAreClean(worker.trace);
  }
}
