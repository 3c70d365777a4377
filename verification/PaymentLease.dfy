/**
 * What the payment queue guarantees, and under which guards. The final updates of a handler, the requeue
 * after an error and the administrative retry carry no status guard of their own. So three things must be
 * known before a statement is issued: recovery leaves alone the rows that a live handler still works on,
 * the requeue after an error hits no committed row, and a retry hits no row that is committed or held.
 * These guards are exactly what committing once needs: after a statement that misses its guard, statements
 * that all meet theirs can commit the same row twice.
 */
module PaymentLease {
  import opened PaymentQueue
  import BalanceDrift

  /** No live handler works on the row. */
  ghost predicate Unheld(w: World, id: nat) {
    forall h :: 0 <= h < |w.handlers| && w.handlers[h].id == id ==> !w.handlers[h].Live()
  }

  /** The guard of recovery: no row that it would requeue is held. */
  ghost predicate LeaseRespected(w: World, now: int) {
    forall id :: 0 <= id < |w.rows| && Stuck(w.rows[id], now) ==> Unheld(w, id)
  }

  /** The respected lease: recovery requeues no row that is held. */
  ghost predicate KeepsLease(w: World, step: Step) {
    step.Recover? ==> LeaseRespected(w, step.now)
  }

  /** The requeue after an error, on a row that is committed by now: its handler was told that the commit
      had failed. The update does not look at the status. */
  predicate RequeuesCommitted(w: World, step: Step) {
    step.Requeue? && AtStage(w, step.h, Erring) && w.rows[w.handlers[step.h].id].status == Committed
  }

  /** The guard of the administrative retry: the rows it writes are neither committed nor held. The rows
      are selected as dead letters in an earlier statement, and the update does not look again. */
  ghost predicate RetriesUnused(w: World, step: Step) {
    step.RetryDead? ==>
      forall id :: id in step.chosen && id < |w.rows| ==> w.rows[id].status != Committed && Unheld(w, id)
  }

  /** The three guards on one step. */
  ghost predicate Safe(w: World, step: Step) {
    KeepsLease(w, step) && !RequeuesCommitted(w, step) && RetriesUnused(w, step)
  }

  ghost predicate SafeRun(w: World, steps: seq<Step>) {
    steps == [] ||
    (SafeRun(w, steps[..|steps| - 1]) && Safe(Run(w, steps[..|steps| - 1]), steps[|steps| - 1]))
  }

  // ----- The invariant -----

  ghost predicate HandlerOk(w: World, h: nat)
    requires h < |w.handlers|
  {
    var handler := w.handlers[h];
    && handler.id < |w.rows|
    && (handler.Holds() && handler.stage != Erring ==> w.rows[handler.id].status == Processing)
    && (handler.stage == Erring ==> w.rows[handler.id].status != Queued)
    && (handler.stage == Waiting ==> w.rows[handler.id].preimage == handler.snapshot.preimage)
    && (handler.stage in {Debiting, Crediting} ==>
          w.rows[handler.id].status == Committed && w.credited[handler.id] == 0)
    && (handler.stage == Debiting ==> w.debited[handler.id] == 0)
  }

  /** The history of one row: committed once if at all, and never mirrored more often than committed. */
  ghost predicate RowOk(w: World, id: nat) {
    && w.commits[id] == (if id < |w.rows| then CommitCount(w.rows[id]) else 0)
    && w.debited[id] <= w.commits[id]
    && w.credited[id] <= w.commits[id]
  }

  ghost predicate Exclusive(w: World) {
    && (forall h :: 0 <= h < |w.handlers| ==> HandlerOk(w, h))
    && (forall g, h :: 0 <= g < h < |w.handlers| && w.handlers[g].Live() && w.handlers[h].Live() ==>
          w.handlers[g].id != w.handlers[h].id)
    && (forall id :: RowOk(w, id))
  }

  /** `t` differs from `w` in handler `h` and its row only. */
  ghost predicate Local(w: World, t: World, h: nat)
    requires h < |w.handlers|
  {
    var id := w.handlers[h].id;
    && |t.rows| == |w.rows| && |t.handlers| == |w.handlers| && id < |w.rows|
    && (forall i :: 0 <= i < |w.rows| && i != id ==> t.rows[i] == w.rows[i])
    && (forall g :: 0 <= g < |w.handlers| && g != h ==> t.handlers[g] == w.handlers[g])
    && t.handlers[h].id == id
    && (forall i :: i != id ==>
          t.commits[i] == w.commits[i] && t.debited[i] == w.debited[i] && t.credited[i] == w.credited[i])
  }

  lemma LocalKeepsExclusive(w: World, t: World, h: nat)
    requires Exclusive(w) && h < |w.handlers| && w.handlers[h].Live()
    requires Local(w, t, h) && HandlerOk(t, h) && RowOk(t, w.handlers[h].id)
    ensures Exclusive(t)
  {
    forall g | 0 <= g < |t.handlers| ensures HandlerOk(t, g) {
      assert HandlerOk(w, g);
    }
    forall id ensures RowOk(t, id) {
      assert RowOk(w, id);
    }
  }

  lemma MirrorStepIsLocal(w: World, h: nat, side: Side, reply: Reply)
    requires h < |w.handlers| && HandlerOk(w, h) && RowOk(w, w.handlers[h].id)
    requires w.handlers[h].stage == (if side == Debit then Debiting else Crediting)
    ensures var t := MirrorStep(w, h, side, reply); Local(w, t, h) && HandlerOk(t, h) && RowOk(t, w.handlers[h].id)
  {
  }

  lemma MirrorIsLocal(w: World, h: nat, reply: Reply)
    requires h < |w.handlers| && HandlerOk(w, h) && RowOk(w, w.handlers[h].id) && w.handlers[h].Live()
    ensures var t := Next(w, Mirror(h, reply)); Local(w, t, h) && HandlerOk(t, h) && RowOk(t, w.handlers[h].id)
  {
    if AtStage(w, h, Debiting) {
      MirrorStepIsLocal(w, h, Debit, reply);
    } else if AtStage(w, h, Crediting) {
      MirrorStepIsLocal(w, h, Credit, reply);
    }
  }

  lemma PrepareIsLocal(w: World, step: Step)
    requires step.Prepare? && step.h < |w.handlers| && w.handlers[step.h].Live()
    requires HandlerOk(w, step.h) && RowOk(w, w.handlers[step.h].id)
    ensures var t := Next(w, step); Local(w, t, step.h) && HandlerOk(t, step.h) && RowOk(t, w.handlers[step.h].id)
  {
  }

  lemma MoveIsLocal(w: World, step: Step)
    requires (step.Switch? || step.Crash?) && step.h < |w.handlers| && w.handlers[step.h].Live()
    requires HandlerOk(w, step.h) && RowOk(w, w.handlers[step.h].id)
    ensures var t := Next(w, step); Local(w, t, step.h) && HandlerOk(t, step.h) && RowOk(t, w.handlers[step.h].id)
  {
  }

  lemma CommitIsLocal(w: World, h: nat, reply: Reply, now: int)
    requires h < |w.handlers| && HandlerOk(w, h) && RowOk(w, w.handlers[h].id) && w.handlers[h].Live()
    ensures var t := Next(w, Commit(h, reply, now)); Local(w, t, h) && HandlerOk(t, h) && RowOk(t, w.handlers[h].id)
  {
  }

  lemma RefuseIsLocal(w: World, h: nat, reply: Reply, now: int)
    requires h < |w.handlers| && HandlerOk(w, h) && RowOk(w, w.handlers[h].id) && w.handlers[h].Live()
    ensures var t := Next(w, Refuse(h, reply, now)); Local(w, t, h) && HandlerOk(t, h) && RowOk(t, w.handlers[h].id)
  {
  }

  lemma RequeueIsLocal(w: World, h: nat, now: int)
    requires h < |w.handlers| && HandlerOk(w, h) && RowOk(w, w.handlers[h].id) && w.handlers[h].Live()
    requires !RequeuesCommitted(w, Requeue(h, now))
    ensures var t := Next(w, Requeue(h, now)); Local(w, t, h) && HandlerOk(t, h) && RowOk(t, w.handlers[h].id)
  {
  }

  lemma HandlerStepIsLocal(w: World, step: Step)
    requires Exclusive(w) && OnHandler(step) && step.h < |w.handlers| && w.handlers[step.h].Live()
    requires Safe(w, step)
    ensures Local(w, Next(w, step), step.h)
    ensures HandlerOk(Next(w, step), step.h) && RowOk(Next(w, step), w.handlers[step.h].id)
  {
    assert HandlerOk(w, step.h) && RowOk(w, w.handlers[step.h].id);
    match step
    case Mirror(h, reply) => MirrorIsLocal(w, h, reply);
    case Prepare(_, _, _, _) => PrepareIsLocal(w, step);
    case Switch(_, _) => MoveIsLocal(w, step);
    case Crash(_) => MoveIsLocal(w, step);
    case Commit(h, reply, now) => CommitIsLocal(w, h, reply, now);
    case Refuse(h, reply, now) => RefuseIsLocal(w, h, reply, now);
    case Requeue(h, now) => RequeueIsLocal(w, h, now);
  }

  lemma FinishedHandlerDoesNothing(w: World, step: Step)
    requires OnHandler(step) && step.h < |w.handlers| && !w.handlers[step.h].Live()
    ensures Next(w, step) == w
  {
  }

  lemma TableStepKeepsExclusive(w: World, step: Step)
    requires Exclusive(w) && Safe(w, step) && (step.Recover? || step.RetryDead?)
    ensures Exclusive(Next(w, step))
  {
    var t := Next(w, step);
    forall h | 0 <= h < |t.handlers| ensures HandlerOk(t, h) {
      assert HandlerOk(w, h);
    }
    forall id ensures RowOk(t, id) {
      assert RowOk(w, id);
    }
  }

  lemma ClaimKeepsHandlers(w: World, ids: seq<nat>, now: int, h: nat)
    requires Exclusive(w) && Claimable(w.rows, ids) && h < |w.handlers| + |ids|
    ensures var t := Next(w, Claim(ids, now)); h < |t.handlers| && HandlerOk(t, h)
  {
    var t, n := Next(w, Claim(ids, now)), |w.handlers|;
    if h < n {
      assert HandlerOk(w, h) && t.handlers[h] == w.handlers[h];
    } else {
      assert t.handlers[h] == Handler(ids[h - n], t.rows[ids[h - n]], Waiting);
    }
  }

  lemma ClaimKeepsApart(w: World, ids: seq<nat>, now: int, g: nat, h: nat)
    requires Exclusive(w) && Claimable(w.rows, ids) && g < h < |w.handlers| + |ids|
    ensures var t := Next(w, Claim(ids, now));
            && h < |t.handlers|
            && (t.handlers[g].Live() && t.handlers[h].Live() ==> t.handlers[g].id != t.handlers[h].id)
  {
    var t, n := Next(w, Claim(ids, now)), |w.handlers|;
    if h < n {
      assert t.handlers[g] == w.handlers[g] && t.handlers[h] == w.handlers[h];
    } else if g < n {
      assert HandlerOk(w, g) && t.handlers[g] == w.handlers[g] && t.handlers[h].id == ids[h - n];
    } else {
      assert t.handlers[g].id == ids[g - n] && t.handlers[h].id == ids[h - n];
    }
  }

  lemma ClaimKeepsExclusive(w: World, ids: seq<nat>, now: int)
    requires Exclusive(w)
    ensures Exclusive(Next(w, Claim(ids, now)))
  {
    if Claimable(w.rows, ids) {
      var t := Next(w, Claim(ids, now));
      forall h | 0 <= h < |t.handlers| ensures HandlerOk(t, h) {
        ClaimKeepsHandlers(w, ids, now, h);
      }
      forall g, h | 0 <= g < h < |t.handlers| && t.handlers[g].Live() && t.handlers[h].Live()
        ensures t.handlers[g].id != t.handlers[h].id
      {
        ClaimKeepsApart(w, ids, now, g, h);
      }
      forall id ensures RowOk(t, id) {
        assert RowOk(w, id);
      }
    }
  }

  lemma GrowthKeepsExclusive(w: World, step: Step)
    requires Exclusive(w) && (step.Enqueue? || step.OpenAccount?)
    ensures Exclusive(Next(w, step))
  {
    var t := Next(w, step);
    forall h | 0 <= h < |t.handlers| ensures HandlerOk(t, h) {
      assert HandlerOk(w, h);
    }
    forall id ensures RowOk(t, id) {
      assert RowOk(w, id);
    }
  }

  lemma NextKeepsExclusive(w: World, step: Step)
    requires Exclusive(w) && Safe(w, step)
    ensures Exclusive(Next(w, step))
  {
    if step.Enqueue? || step.OpenAccount? {
      GrowthKeepsExclusive(w, step);
    } else if step.Recover? || step.RetryDead? {
      TableStepKeepsExclusive(w, step);
    } else if step.Claim? {
      ClaimKeepsExclusive(w, step.ids, step.now);
    } else if step.h >= |w.handlers| {
      UnknownHandlerDoesNothing(w, step);
    } else if !w.handlers[step.h].Live() {
      FinishedHandlerDoesNothing(w, step);
    } else {
      HandlerStepIsLocal(w, step);
      LocalKeepsExclusive(w, Next(w, step), step.h);
    }
  }

  /** A row that recovery or a retry takes from a live handler no longer fits that handler's stage. */
  lemma TakingAHeldRowBreaksExclusive(w: World, t: World, h: nat)
    requires Exclusive(w) && h < |w.handlers| && w.handlers[h].Live() && t.handlers == w.handlers
    requires w.handlers[h].id < |t.rows| && t.rows[w.handlers[h].id].status == Queued
    ensures !Exclusive(t)
  {
    assert HandlerOk(w, h) && !HandlerOk(t, h);
  }

  lemma UnsafeRecoveryBreaksExclusive(w: World, now: int)
    requires Exclusive(w) && !LeaseRespected(w, now)
    ensures !Exclusive(Next(w, Recover(now)))
  {
    var id :| 0 <= id < |w.rows| && Stuck(w.rows[id], now) && !Unheld(w, id);
    var h :| 0 <= h < |w.handlers| && w.handlers[h].id == id && w.handlers[h].Live();
    TakingAHeldRowBreaksExclusive(w, Next(w, Recover(now)), h);
  }

  lemma UnsafeRetryBreaksExclusive(w: World, step: Step)
    requires Exclusive(w) && step.RetryDead? && !RetriesUnused(w, step)
    ensures !Exclusive(Next(w, step))
  {
    var t := Next(w, step);
    var id :| id in step.chosen && id < |w.rows| && (w.rows[id].status == Committed || !Unheld(w, id));
    if w.rows[id].status == Committed {
      assert RowOk(w, id) && !RowOk(t, id);
    } else {
      var h :| 0 <= h < |w.handlers| && w.handlers[h].id == id && w.handlers[h].Live();
      TakingAHeldRowBreaksExclusive(w, t, h);
    }
  }

  lemma RequeueOfCommittedBreaksExclusive(w: World, step: Step)
    requires Exclusive(w) && RequeuesCommitted(w, step)
    ensures !Exclusive(Next(w, step))
  {
    var id := w.handlers[step.h].id;
    assert RowOk(w, id) && !RowOk(Next(w, step), id);
  }

  /** The three guards are exactly what a step needs: from a state in which no row is processed twice, it
      leads to such a state if and only if recovery respects the lease, no requeue hits a committed row, and
      no retry hits a committed or held row. */
  lemma StepIsSafeExactlyWhen(w: World, step: Step)
    requires Exclusive(w)
    ensures Exclusive(Next(w, step)) <==>
              KeepsLease(w, step) && !RequeuesCommitted(w, step) && RetriesUnused(w, step)
  {
    if Safe(w, step) {
      NextKeepsExclusive(w, step);
    } else if !KeepsLease(w, step) {
      UnsafeRecoveryBreaksExclusive(w, step.now);
    } else if RequeuesCommitted(w, step) {
      RequeueOfCommittedBreaksExclusive(w, step);
    } else {
      UnsafeRetryBreaksExclusive(w, step);
    }
  }

  /** No state of the run has a row that is processed twice. */
  ghost predicate ExclusiveThroughout(w: World, steps: seq<Step>) {
    Exclusive(Run(w, steps)) && (steps == [] || ExclusiveThroughout(w, steps[..|steps| - 1]))
  }

  /** Hence the states of a run are all exclusive exactly when all its steps are safe. */
  lemma {:induction false} RunStaysExclusiveExactlyWhen(w: World, steps: seq<Step>)
    requires Exclusive(w)
    ensures ExclusiveThroughout(w, steps) <==> SafeRun(w, steps)
  {
    if steps != [] {
      var head, last := steps[..|steps| - 1], steps[|steps| - 1];
      RunStaysExclusiveExactlyWhen(w, head);
      if ExclusiveThroughout(w, head) {
        StepIsSafeExactlyWhen(Run(w, head), last);
      }
    }
  }

  lemma {:induction false} RunKeepsExclusive(w: World, steps: seq<Step>)
    requires Exclusive(w) && SafeRun(w, steps)
    ensures Exclusive(Run(w, steps))
  {
    if steps != [] {
      RunKeepsExclusive(w, steps[..|steps| - 1]);
      NextKeepsExclusive(Run(w, steps[..|steps| - 1]), steps[|steps| - 1]);
    }
  }

  /** Commit once, mirror once: in every safe run no row is committed twice, a row is committed exactly
      when its status says so, and neither side of the mirror received it more often. */
  lemma {:induction false} CommittedAndMirroredAtMostOnce(steps: seq<Step>, id: nat)
    requires SafeRun(PaymentQueue.INITIAL, steps)
    ensures var w := Run(PaymentQueue.INITIAL, steps);
            && w.commits[id] <= 1
            && (w.commits[id] == 1 <==> id < |w.rows| && w.rows[id].status == Committed)
            && w.debited[id] <= w.commits[id] && w.credited[id] <= w.commits[id]
  {
    RunKeepsExclusive(PaymentQueue.INITIAL, steps);
    assert RowOk(Run(PaymentQueue.INITIAL, steps), id);
  }

  /** The lease is exactly what recovery needs: from a state in which no row is processed twice, it
      leads to such a state if and only if no row that it requeues is held. */
  lemma RecoveryIsSafeExactlyWhenLeaseRespected(w: World, now: int)
    requires Exclusive(w)
    ensures Exclusive(Next(w, Recover(now))) <==> LeaseRespected(w, now)
  {
    StepIsSafeExactlyWhen(w, Recover(now));
  }

  // ----- What goes wrong otherwise -----

  /** The handler has not been refused and has not committed: the switch may still confirm its payment. */
  predicate MayConfirm(w: World, h: nat) {
    AtStage(w, h, Waiting) || AtStage(w, h, Calling) || AtStage(w, h, Settled)
  }

  /** Preimage and confirmation: whatever of the two is behind the handler already has no effect. */
  function Confirm(w: World, h: nat, now: int): World {
    Next(Next(w, Prepare(h, "preimage", Done, now)), Switch(h, true))
  }

  lemma ConfirmSettles(w: World, h: nat, now: int)
    requires MayConfirm(w, h)
    ensures var t := Confirm(w, h, now);
            && AtStage(t, h, Settled) && t.commits == w.commits && |t.rows| == |w.rows|
            && t.debited == w.debited && t.credited == w.credited && t.accounts == w.accounts
            && t.handlers == w.handlers[h := w.handlers[h].(stage := Settled)]
  {
    var prepared := Next(w, Prepare(h, "preimage", Done, now));
    assert AtStage(prepared, h, Calling) || AtStage(prepared, h, Settled);
    assert prepared.handlers == w.handlers[h := prepared.handlers[h]];
  }

  predicate HasStatus(w: World, id: nat, status: Status) {
    id < |w.rows| && w.rows[id].status == status
  }

  lemma QueuedRowIsClaimed(w: World, id: nat, now: int)
    requires HasStatus(w, id, Queued)
    ensures var t, n := Next(w, Claim([id], now)), |w.handlers|;
            && AtStage(t, n, Waiting) && HasStatus(t, id, Processing) && |t.rows| == |w.rows|
            && t.handlers[..n] == w.handlers && t.handlers[n].id == id
            && t.handlers[n].snapshot.attempts == w.rows[id].attempts
            && t.commits == w.commits && t.debited == w.debited && t.credited == w.credited
  {
    assert Claimable(w.rows, [id]);
  }

  lemma ConfirmedRowIsCommitted(w: World, n: nat, now: int)
    requires MayConfirm(w, n)
    ensures var id := w.handlers[n].id;
            var t := Next(Confirm(w, n, now), Commit(n, Done, now));
            && t.commits == w.commits + multiset{id} && HasStatus(t, id, Committed) && AtStage(t, n, Debiting)
            && |t.rows| == |w.rows| && t.handlers == w.handlers[n := w.handlers[n].(stage := Debiting)]
            && t.debited == w.debited && t.credited == w.credited
  {
    ConfirmSettles(w, n, now);
  }

  /** The row is claimed by one more handler, which settles and commits it. */
  function Recommit(w: World, id: nat, now: int): World {
    Next(Confirm(Next(w, Claim([id], now)), |w.handlers|, now), Commit(|w.handlers|, Done, now))
  }

  lemma QueuedRowIsCommitted(w: World, id: nat, now: int)
    requires HasStatus(w, id, Queued)
    ensures var t, n := Recommit(w, id, now), |w.handlers|;
            && t.commits == w.commits + multiset{id} && HasStatus(t, id, Committed) && AtStage(t, n, Debiting)
            && t.handlers[..n] == w.handlers && t.debited == w.debited && t.credited == w.credited
  {
    QueuedRowIsClaimed(w, id, now);
    ConfirmedRowIsCommitted(Next(w, Claim([id], now)), |w.handlers|, now);
  }

  lemma RecoveredRowIsClaimedAgain(w: World, h: nat, now: int)
    requires MayConfirm(w, h) && Stuck(w.rows[w.handlers[h].id], now)
    ensures var id := w.handlers[h].id;
            var t := Next(Next(w, Recover(now)), Claim([id], now));
            && MayConfirm(t, h) && AtStage(t, |w.handlers|, Waiting) && t.handlers[h].id == id
            && t.handlers[|w.handlers|].id == id && t.commits == w.commits
  {
    var id := w.handlers[h].id;
    assert HasStatus(Next(w, Recover(now)), id, Queued);
  }

  lemma TwoHandlersCommitTwice(w: World, h: nat, n: nat, now: int)
    requires MayConfirm(w, h) && MayConfirm(w, n) && h != n && w.handlers[h].id == w.handlers[n].id
    ensures var confirmed := Confirm(Confirm(w, h, now), n, now);
            Next(Next(confirmed, Commit(h, Done, now)), Commit(n, Done, now)).commits
            == w.commits + multiset{w.handlers[h].id, w.handlers[h].id}
  {
    ConfirmSettles(w, h, now);
    var one := Confirm(w, h, now);
    ConfirmSettles(one, n, now);
    var confirmed := Confirm(one, n, now);
    assert AtStage(confirmed, h, Settled) && AtStage(confirmed, n, Settled);
    assert AtStage(Next(confirmed, Commit(h, Done, now)), n, Settled);
  }

  /** Without the lease: recovery takes a row from a handler that the switch may still confirm, and a second
      worker settles and commits it again. */
  lemma UnrespectedLeaseCommitsTwice(w: World, h: nat, now: int)
    requires Exclusive(w) && MayConfirm(w, h) && Stuck(w.rows[w.handlers[h].id], now)
    ensures var id, n := w.handlers[h].id, |w.handlers|;
            var reclaimed := Next(Next(w, Recover(now)), Claim([id], now));
            var confirmed := Confirm(Confirm(reclaimed, h, now), n, now);
            Next(Next(confirmed, Commit(h, Done, now)), Commit(n, Done, now)).commits[id] == 2
  {
    assert HandlerOk(w, h) && RowOk(w, w.handlers[h].id);
    RecoveredRowIsClaimedAgain(w, h, now);
    TwoHandlersCommitTwice(Next(Next(w, Recover(now)), Claim([w.handlers[h].id], now)), h, |w.handlers|, now);
  }

  lemma LostCommitReply(w: World, h: nat, now: int)
    requires Exclusive(w) && AtStage(w, h, Settled)
    ensures var id, lost := w.handlers[h].id, Next(w, Commit(h, LostReply, now));
            && AtStage(lost, h, Erring) && lost.handlers[h].id == id && |lost.handlers| == |w.handlers|
            && HasStatus(lost, id, Committed) && lost.commits[id] == 1
            && lost.debited[id] == 0 && lost.credited[id] == 0
  {
    assert HandlerOk(w, h) && RowOk(w, w.handlers[h].id);
  }

  lemma ErringHandlerRequeues(w: World, h: nat, now: int)
    requires AtStage(w, h, Erring)
    ensures var id, t := w.handlers[h].id, Next(w, Requeue(h, now));
            && HasStatus(t, id, Queued) && t.handlers == w.handlers[h := w.handlers[h].(stage := Finished)]
            && t.rows[id].attempts == w.rows[id].attempts
            && t.commits == w.commits && t.debited == w.debited && t.credited == w.credited
  {
  }

  /** Without the guard of the requeue: the reply of a commit is lost, the committed row goes back to the
      queue, and the next handler commits it a second time. Neither side of the mirror has received it. */
  lemma LostCommitReplyCommitsTwice(w: World, h: nat, now: int)
    requires Exclusive(w) && AtStage(w, h, Settled)
    ensures var id := w.handlers[h].id;
            var lost := Next(w, Commit(h, LostReply, now));
            var requeued := Next(lost, Requeue(h, now));
            var again := Recommit(requeued, id, now);
            && Exclusive(lost) && RequeuesCommitted(lost, Requeue(h, now)) && HasStatus(requeued, id, Queued)
            && again.commits[id] == 2 && HasStatus(again, id, Committed)
            && again.debited[id] == 0 && again.credited[id] == 0
  {
    var lost := Next(w, Commit(h, LostReply, now));
    NextKeepsExclusive(w, Commit(h, LostReply, now));
    LostCommitReply(w, h, now);
    ErringHandlerRequeues(lost, h, now);
    QueuedRowIsCommitted(Next(lost, Requeue(h, now)), w.handlers[h].id, now);
  }

  /** Without the guard of the retry: a committed row is retried, and the next handler commits it again. */
  lemma RetryOfCommittedCommitsTwice(w: World, id: nat, now: int)
    requires Exclusive(w) && HasStatus(w, id, Committed)
    ensures var retried := Next(w, RetryDead({id}, now));
            HasStatus(retried, id, Queued) && Recommit(retried, id, now).commits[id] == 2
  {
    assert RowOk(w, id);
    QueuedRowIsCommitted(Next(w, RetryDead({id}, now)), id, now);
  }

  // ----- The guards are what committing once needs -----

  /** Some continuation of steps that all meet their guards commits the row a second time. */
  ghost predicate CanCommitTwice(w: World, id: nat) {
    exists steps :: SafeRun(w, steps) && Run(w, steps).commits[id] >= 2
  }

  lemma {:induction false} SafeStepFirst(w: World, step: Step, steps: seq<Step>)
    requires Safe(w, step) && SafeRun(Next(w, step), steps)
    ensures SafeRun(w, [step] + steps) && Run(w, [step] + steps) == Run(Next(w, step), steps)
  {
    var all := [step] + steps;
    if steps == [] {
      assert all[..0] == [] && all[|all| - 1] == step;
    } else {
      SafeStepFirst(w, step, steps[..|steps| - 1]);
      assert all[..|all| - 1] == [step] + steps[..|steps| - 1] && all[|all| - 1] == steps[|steps| - 1];
    }
  }

  lemma BeforeASafeStep(w: World, step: Step, id: nat)
    requires Safe(w, step) && CanCommitTwice(Next(w, step), id)
    ensures CanCommitTwice(w, id)
  {
    var steps :| SafeRun(Next(w, step), steps) && Run(Next(w, step), steps).commits[id] >= 2;
    SafeStepFirst(w, step, steps);
  }

  lemma CommittedTwice(w: World, id: nat)
    requires w.commits[id] >= 2
    ensures CanCommitTwice(w, id)
  {
    assert SafeRun(w, []) && Run(w, []).commits[id] >= 2;
  }

  lemma BeforeConfirm(w: World, h: nat, now: int, id: nat)
    requires CanCommitTwice(Confirm(w, h, now), id)
    ensures CanCommitTwice(w, id)
  {
    BeforeASafeStep(Next(w, Prepare(h, "preimage", Done, now)), Switch(h, true), id);
    BeforeASafeStep(w, Prepare(h, "preimage", Done, now), id);
  }

  lemma QueuedAgain(w: World, id: nat)
    requires HasStatus(w, id, Queued) && w.commits[id] >= 1
    ensures CanCommitTwice(w, id)
  {
    var n, claimed := |w.handlers|, Next(w, Claim([id], 0));
    QueuedRowIsCommitted(w, id, 0);
    CommittedTwice(Recommit(w, id, 0), id);
    BeforeASafeStep(Confirm(claimed, n, 0), Commit(n, Done, 0), id);
    BeforeConfirm(claimed, n, 0, id);
    BeforeASafeStep(w, Claim([id], 0), id);
  }

  lemma TwoMayConfirm(w: World, h: nat, n: nat)
    requires MayConfirm(w, h) && MayConfirm(w, n) && h != n && w.handlers[h].id == w.handlers[n].id
    ensures CanCommitTwice(w, w.handlers[h].id)
  {
    var id, one := w.handlers[h].id, Confirm(w, h, 0);
    var both := Confirm(one, n, 0);
    TwoHandlersCommitTwice(w, h, n, 0);
    CommittedTwice(Next(Next(both, Commit(h, Done, 0)), Commit(n, Done, 0)), id);
    BeforeASafeStep(Next(both, Commit(h, Done, 0)), Commit(n, Done, 0), id);
    BeforeASafeStep(both, Commit(h, Done, 0), id);
    BeforeConfirm(one, n, 0, id);
    BeforeConfirm(w, h, 0, id);
  }

  lemma QueuedUnderConfirmable(w: World, h: nat)
    requires MayConfirm(w, h) && HasStatus(w, w.handlers[h].id, Queued)
    ensures CanCommitTwice(w, w.handlers[h].id)
  {
    var id := w.handlers[h].id;
    QueuedRowIsClaimed(w, id, 0);
    assert Next(w, Claim([id], 0)).handlers[..|w.handlers|][h] == w.handlers[h];
    TwoMayConfirm(Next(w, Claim([id], 0)), h, |w.handlers|);
    BeforeASafeStep(w, Claim([id], 0), id);
  }

  /** The handler requeues the row under the nose of the next one, which may still confirm it. */
  lemma QueuedUnderErring(w: World, h: nat)
    requires AtStage(w, h, Erring) && HasStatus(w, w.handlers[h].id, Queued)
    ensures CanCommitTwice(w, w.handlers[h].id)
  {
    var id, n, claimed := w.handlers[h].id, |w.handlers|, Next(w, Claim([w.handlers[h].id], 0));
    QueuedRowIsClaimed(w, id, 0);
    assert claimed.handlers[..n][h] == w.handlers[h];
    ErringHandlerRequeues(claimed, h, 0);
    QueuedUnderConfirmable(Next(claimed, Requeue(h, 0)), n);
    BeforeASafeStep(claimed, Requeue(h, 0), id);
    BeforeASafeStep(w, Claim([id], 0), id);
  }

  lemma LostRefusalReply(w: World, h: nat, now: int)
    requires AtStage(w, h, Refused)
    ensures var id, lost := w.handlers[h].id, Next(w, Refuse(h, LostReply, now));
            && AtStage(lost, h, Erring) && lost.handlers[h].id == id && |lost.handlers| == |w.handlers|
            && (HasStatus(lost, id, Failed) || HasStatus(lost, id, DeadLetter)) && lost.commits == w.commits
            && lost.rows[id].attempts == w.handlers[h].snapshot.attempts + 1
  {
  }

  /** The next handler commits the row, the refusal overwrites the commit, and its lost reply requeues it. */
  lemma QueuedUnderRefused(w: World, h: nat)
    requires AtStage(w, h, Refused) && HasStatus(w, w.handlers[h].id, Queued)
    ensures CanCommitTwice(w, w.handlers[h].id)
  {
    var id, n, claimed := w.handlers[h].id, |w.handlers|, Next(w, Claim([w.handlers[h].id], 0));
    var committed := Recommit(w, id, 0);
    QueuedRowIsCommitted(w, id, 0);
    assert committed.handlers[..n][h] == w.handlers[h];
    LostRefusalReply(committed, h, 0);
    var refused := Next(committed, Refuse(h, LostReply, 0));
    ErringHandlerRequeues(refused, h, 0);
    QueuedAgain(Next(refused, Requeue(h, 0)), id);
    BeforeASafeStep(refused, Requeue(h, 0), id);
    BeforeASafeStep(committed, Refuse(h, LostReply, 0), id);
    BeforeASafeStep(Confirm(claimed, n, 0), Commit(n, Done, 0), id);
    BeforeConfirm(claimed, n, 0, id);
    BeforeASafeStep(w, Claim([id], 0), id);
  }

  lemma TakenRowIsCommittedTwice(w: World, t: World, h: nat)
    requires Exclusive(w) && h < |w.handlers| && w.handlers[h].Live()
    requires t.handlers == w.handlers && t.commits == w.commits && HasStatus(t, w.handlers[h].id, Queued)
    ensures CanCommitTwice(t, w.handlers[h].id)
  {
    assert HandlerOk(w, h) && RowOk(w, w.handlers[h].id);
    match w.handlers[h].stage
    case Waiting => QueuedUnderConfirmable(t, h);
    case Calling => QueuedUnderConfirmable(t, h);
    case Settled => QueuedUnderConfirmable(t, h);
    case Refused => QueuedUnderRefused(t, h);
    case Erring => QueuedUnderErring(t, h);
    case Debiting => QueuedAgain(t, w.handlers[h].id);
    case Crediting => QueuedAgain(t, w.handlers[h].id);
  }

  lemma UnsafeRecoveryCommitsTwice(w: World, now: int) returns (id: nat)
    requires Exclusive(w) && !LeaseRespected(w, now)
    ensures CanCommitTwice(Next(w, Recover(now)), id)
  {
    id :| 0 <= id < |w.rows| && Stuck(w.rows[id], now) && !Unheld(w, id);
    var h :| 0 <= h < |w.handlers| && w.handlers[h].id == id && w.handlers[h].Live();
    TakenRowIsCommittedTwice(w, Next(w, Recover(now)), h);
  }

  lemma UnsafeRetryCommitsTwice(w: World, step: Step) returns (id: nat)
    requires Exclusive(w) && step.RetryDead? && !RetriesUnused(w, step)
    ensures CanCommitTwice(Next(w, step), id)
  {
    var t := Next(w, step);
    id :| id in step.chosen && id < |w.rows| && (w.rows[id].status == Committed || !Unheld(w, id));
    if w.rows[id].status == Committed {
      assert RowOk(w, id);
      QueuedAgain(t, id);
    } else {
      var h :| 0 <= h < |w.handlers| && w.handlers[h].id == id && w.handlers[h].Live();
      TakenRowIsCommittedTwice(w, t, h);
    }
  }

  lemma UnsafeRequeueCommitsTwice(w: World, step: Step)
    requires Exclusive(w) && RequeuesCommitted(w, step)
    ensures CanCommitTwice(Next(w, step), w.handlers[step.h].id)
  {
    assert RowOk(w, w.handlers[step.h].id);
    ErringHandlerRequeues(w, step.h, step.now);
    QueuedAgain(Next(w, step), w.handlers[step.h].id);
  }

  /** No second commit is within reach of steps that meet their guards. */
  ghost predicate CommitsOnce(w: World) {
    forall id :: !CanCommitTwice(w, id)
  }

  lemma ExclusiveCommitsOnce(w: World)
    requires Exclusive(w)
    ensures CommitsOnce(w)
  {
    forall id, steps | SafeRun(w, steps) ensures Run(w, steps).commits[id] < 2 {
      RunKeepsExclusive(w, steps);
      assert RowOk(Run(w, steps), id);
    }
  }

  /** The three guards are exactly what committing once needs. After a step that meets its guard no
      continuation of such steps commits a row twice; after a step that misses it some continuation does. */
  lemma CommittingOnceNeedsExactlyTheGuards(w: World, step: Step)
    requires Exclusive(w)
    ensures KeepsLease(w, step) && !RequeuesCommitted(w, step) && RetriesUnused(w, step) <==>
            CommitsOnce(Next(w, step))
  {
    if Safe(w, step) {
      NextKeepsExclusive(w, step);
      ExclusiveCommitsOnce(Next(w, step));
    } else if !KeepsLease(w, step) {
      var id := UnsafeRecoveryCommitsTwice(w, step.now);
    } else if RequeuesCommitted(w, step) {
      UnsafeRequeueCommitsTwice(w, step);
    } else {
      var id := UnsafeRetryCommitsTwice(w, step);
    }
  }

  ghost predicate CommitsOnceThroughout(w: World, steps: seq<Step>) {
    CommitsOnce(Run(w, steps)) && (steps == [] || CommitsOnceThroughout(w, steps[..|steps| - 1]))
  }

  /** Hence a run stays out of reach of a second commit exactly when all its steps meet their guards. */
  lemma {:induction false} RunCommitsOnceExactlyWhen(w: World, steps: seq<Step>)
    requires Exclusive(w)
    ensures CommitsOnceThroughout(w, steps) <==> SafeRun(w, steps)
  {
    if steps == [] {
      ExclusiveCommitsOnce(w);
    } else {
      var head, last := steps[..|steps| - 1], steps[|steps| - 1];
      RunCommitsOnceExactlyWhen(w, head);
      if SafeRun(w, head) {
        RunKeepsExclusive(w, head);
        CommittingOnceNeedsExactlyTheGuards(Run(w, head), last);
      }
    }
  }

  // ----- Refused again -----

  predicate HasAttempts(w: World, id: nat, attempts: int) {
    id < |w.rows| && w.rows[id].attempts == attempts
  }

  /** The switch is asked and refuses. */
  function Decline(w: World, h: nat, now: int): World {
    Next(Next(w, Prepare(h, "preimage", Done, now)), Switch(h, false))
  }

  lemma DeclinedRowIsRefused(w: World, n: nat, now: int)
    requires AtStage(w, n, Waiting)
    ensures HasAttempts(Next(Decline(w, n, now), Refuse(n, Done, now)), w.handlers[n].id,
                        w.handlers[n].snapshot.attempts + 1)
  {
    var prepared := Next(w, Prepare(n, "preimage", Done, now));
    assert AtStage(prepared, n, Calling) && prepared.handlers == w.handlers[n := prepared.handlers[n]];
    assert AtStage(Decline(w, n, now), n, Refused);
  }

  /** A lost reply of a refusal meets all three guards; still the refused row goes back to the queue and is
      refused again, so that its attempts are counted on. */
  lemma LostRefusalReplyIsRetried(w: World, h: nat, now: int)
    requires Exclusive(w) && AtStage(w, h, Refused)
    ensures var id, n := w.handlers[h].id, |w.handlers|;
            var lost := Next(w, Refuse(h, LostReply, now));
            var requeued := Next(lost, Requeue(h, now));
            var again := Next(Decline(Next(requeued, Claim([id], now)), n, now), Refuse(n, Done, now));
            && (HasStatus(lost, id, Failed) || HasStatus(lost, id, DeadLetter))
            && Safe(lost, Requeue(h, now)) && HasStatus(requeued, id, Queued)
            && HasAttempts(again, id, w.handlers[h].snapshot.attempts + 2)
  {
    var lost := Next(w, Refuse(h, LostReply, now));
    LostRefusalReply(w, h, now);
    ErringHandlerRequeues(lost, h, now);
    QueuedRowIsClaimed(Next(lost, Requeue(h, now)), w.handlers[h].id, now);
    DeclinedRowIsRefused(Next(Next(lost, Requeue(h, now)), Claim([w.handlers[h].id], now)), |w.handlers|, now);
  }

  // ----- What never changes -----

  ghost predicate KeepsFinal(row: Row, next: Row) {
    && (row.status == Committed ==> next.status == Committed)
    && (row.status == DeadLetter ==> next.status == DeadLetter)
    && (row.status == Failed ==> next.status == Failed)
    && (row.HasPreimage() ==> next.preimage == row.preimage)
  }

  /** The requeue after an error, on a row whose failure has been written: likewise the reply was lost. */
  predicate RequeuesFinal(w: World, step: Step) {
    step.Requeue? && AtStage(w, step.h, Erring) && w.rows[w.handlers[step.h].id].status != Processing
  }

  /** The retry writes no failed row: it is meant for dead letters. */
  ghost predicate RetriesNoFailed(w: World, step: Step) {
    step.RetryDead? ==> forall id :: id in step.chosen && id < |w.rows| ==> w.rows[id].status != Failed
  }

  ghost predicate Respectful(w: World, step: Step) {
    Safe(w, step) && !RequeuesFinal(w, step) && RetriesNoFailed(w, step)
  }

  ghost predicate RespectfulRun(w: World, steps: seq<Step>) {
    steps == [] ||
    (RespectfulRun(w, steps[..|steps| - 1]) && Respectful(Run(w, steps[..|steps| - 1]), steps[|steps| - 1]))
  }

  lemma {:induction false} RespectfulRunIsSafe(w: World, steps: seq<Step>)
    requires RespectfulRun(w, steps)
    ensures SafeRun(w, steps)
  {
    if steps != [] {
      RespectfulRunIsSafe(w, steps[..|steps| - 1]);
    }
  }

  lemma OwnRowKeepsFinal(w: World, step: Step)
    requires OnHandler(step) && step.h < |w.handlers| && HandlerOk(w, step.h) && w.handlers[step.h].Live()
    requires !RequeuesFinal(w, step)
    ensures var id := w.handlers[step.h].id;
            id < |Next(w, step).rows| && KeepsFinal(w.rows[id], Next(w, step).rows[id])
  {
  }

  lemma OwnCommittedRowStays(w: World, step: Step)
    requires OnHandler(step) && step.h < |w.handlers| && HandlerOk(w, step.h) && w.handlers[step.h].Live()
    requires Safe(w, step)
    ensures var id := w.handlers[step.h].id;
            && id < |Next(w, step).rows|
            && (w.rows[id].status == Committed ==> Next(w, step).rows[id].status == Committed)
            && (w.rows[id].HasPreimage() ==> Next(w, step).rows[id].preimage == w.rows[id].preimage)
  {
  }

  lemma OtherRowsStay(w: World, step: Step, id: nat)
    requires Exclusive(w) && Safe(w, step) && OnHandler(step) && id < |w.rows|
    requires step.h < |w.handlers| && w.handlers[step.h].Live() ==> w.handlers[step.h].id != id
    ensures id < |Next(w, step).rows| && Next(w, step).rows[id] == w.rows[id]
  {
    if step.h >= |w.handlers| {
      UnknownHandlerDoesNothing(w, step);
    } else if !w.handlers[step.h].Live() {
      FinishedHandlerDoesNothing(w, step);
    } else {
      HandlerStepIsLocal(w, step);
    }
  }

  lemma SafeStepKeepsCommitted(w: World, step: Step, id: nat)
    requires Exclusive(w) && Safe(w, step) && id < |w.rows|
    ensures id < |Next(w, step).rows|
    ensures w.rows[id].status == Committed ==> Next(w, step).rows[id].status == Committed
    ensures w.rows[id].HasPreimage() ==> Next(w, step).rows[id].preimage == w.rows[id].preimage
  {
    if OnHandler(step) {
      if step.h < |w.handlers| && w.handlers[step.h].Live() && w.handlers[step.h].id == id {
        assert HandlerOk(w, step.h);
        OwnCommittedRowStays(w, step);
      } else {
        OtherRowsStay(w, step, id);
      }
    }
  }

  /** In every safe continuation a committed row stays committed and a stored preimage is never replaced. */
  lemma {:induction false} CommittedIsFinal(w: World, steps: seq<Step>, id: nat)
    requires Exclusive(w) && SafeRun(w, steps) && id < |w.rows|
    ensures id < |Run(w, steps).rows|
    ensures w.rows[id].status == Committed ==> Run(w, steps).rows[id].status == Committed
    ensures w.rows[id].HasPreimage() ==> Run(w, steps).rows[id].preimage == w.rows[id].preimage
  {
    if steps != [] {
      var head := steps[..|steps| - 1];
      CommittedIsFinal(w, head, id);
      RunKeepsExclusive(w, head);
      SafeStepKeepsCommitted(Run(w, head), steps[|steps| - 1], id);
    }
  }

  /** The row keeps its final state, except that a retry may take a dead letter. */
  ghost predicate KeepsFinalAt(w: World, step: Step, id: nat) {
    id < |w.rows| ==>
      && id < |Next(w, step).rows|
      && ((step.RetryDead? && w.rows[id].status == DeadLetter) || KeepsFinal(w.rows[id], Next(w, step).rows[id]))
  }

  lemma StepKeepsFinalStates(w: World, step: Step, id: nat)
    requires Exclusive(w) && Respectful(w, step)
    ensures KeepsFinalAt(w, step, id)
  {
    if OnHandler(step) && id < |w.rows| {
      if step.h < |w.handlers| && w.handlers[step.h].Live() && w.handlers[step.h].id == id {
        assert HandlerOk(w, step.h);
        OwnRowKeepsFinal(w, step);
      } else {
        OtherRowsStay(w, step, id);
      }
    }
  }

  /** A safe step leaves every final state alone, dead letters of a retry apart, exactly when a requeue finds
      its row still in process and a retry finds no failed row. */
  lemma StepKeepsFinalExactlyWhen(w: World, step: Step)
    requires Exclusive(w) && Safe(w, step)
    ensures (forall id :: KeepsFinalAt(w, step, id)) <==> !RequeuesFinal(w, step) && RetriesNoFailed(w, step)
  {
    if RequeuesFinal(w, step) {
      assert HandlerOk(w, step.h) && !KeepsFinalAt(w, step, w.handlers[step.h].id);
    } else if !RetriesNoFailed(w, step) {
      var id :| id in step.chosen && id < |w.rows| && w.rows[id].status == Failed;
      assert !KeepsFinalAt(w, step, id);
    } else {
      forall id ensures KeepsFinalAt(w, step, id) {
        StepKeepsFinalStates(w, step, id);
      }
    }
  }

  /** In every respectful continuation a committed row stays committed, a failed row stays failed, a dead
      letter stays one unless an administrator retries it, and a stored preimage is never replaced. */
  lemma {:induction false} FinalStatesAbsorb(w: World, steps: seq<Step>, id: nat)
    requires Exclusive(w) && RespectfulRun(w, steps) && id < |w.rows|
    ensures id < |Run(w, steps).rows|
    ensures w.rows[id].status == Committed ==> Run(w, steps).rows[id].status == Committed
    ensures w.rows[id].status == Failed ==> Run(w, steps).rows[id].status == Failed
    ensures w.rows[id].status == DeadLetter && (forall s :: s in steps ==> !s.RetryDead?) ==>
              Run(w, steps).rows[id].status == DeadLetter
    ensures w.rows[id].HasPreimage() ==> Run(w, steps).rows[id].preimage == w.rows[id].preimage
  {
    RespectfulRunIsSafe(w, steps);
    CommittedIsFinal(w, steps, id);
    if steps != [] {
      var head := steps[..|steps| - 1];
      FinalStatesAbsorb(w, head, id);
      RunKeepsExclusive(w, head);
      assert forall s :: s in head ==> s in steps;
      StepKeepsFinalStates(Run(w, head), steps[|steps| - 1], id);
    }
  }

  // ----- Healthy runs end clean -----

  /** The handler's row is committed and its mirror update is not complete. */
  predicate AwaitsMirror(w: World, h: nat) {
    || AtStage(w, h, Debiting) || AtStage(w, h, Crediting)
    || (AtStage(w, h, Erring) && w.rows[w.handlers[h].id].status == Committed)
  }

  /** A safe step; moreover every mirror update succeeds on an existing account, and no handler dies between
      the commit and the end of the mirror update. */
  ghost predicate Healthy(w: World, step: Step) {
    && Safe(w, step)
    && match step
       case Mirror(h, reply) =>
         && reply == Done
         && (AtStage(w, h, Debiting) ==> HasAccount(w.accounts, w.handlers[h].snapshot.debitAccount))
         && (AtStage(w, h, Crediting) ==> HasAccount(w.accounts, w.handlers[h].snapshot.creditAccount))
       case Crash(h) => !AwaitsMirror(w, h)
       case _ => true
  }

  ghost predicate HealthyRun(w: World, steps: seq<Step>) {
    steps == [] ||
    (HealthyRun(w, steps[..|steps| - 1]) && Healthy(Run(w, steps[..|steps| - 1]), steps[|steps| - 1]))
  }

  ghost predicate MirroredOk(w: World) {
    && (forall h :: 0 <= h < |w.handlers| && w.handlers[h].stage == Crediting ==> w.debited[w.handlers[h].id] == 1)
    && (forall id :: 0 <= id < |w.rows| && w.rows[id].status == Committed && Unheld(w, id) ==>
          w.debited[id] == 1 && w.credited[id] == 1)
  }

  /** What the mirror invariant says of handler `h` and its row. */
  predicate OwnMirrorOk(t: World, h: nat, id: nat) {
    h < |t.handlers| && id < |t.rows| &&
    (t.handlers[h].stage == Crediting ==> t.debited[id] == 1) &&
    (t.rows[id].status == Committed && !t.handlers[h].Live() ==> t.debited[id] == 1 && t.credited[id] == 1)
  }

  lemma HealthyMirrorUpdate(w: World, h: nat)
    requires h < |w.handlers| && HandlerOk(w, h) && RowOk(w, w.handlers[h].id) && w.handlers[h].Live()
    requires OwnMirrorOk(w, h, w.handlers[h].id) && Healthy(w, Mirror(h, Done))
    ensures OwnMirrorOk(Next(w, Mirror(h, Done)), h, w.handlers[h].id)
  {
  }

  lemma HealthyStatement(w: World, step: Step)
    requires OfHandler(step) && step.h < |w.handlers| && w.handlers[step.h].Live()
    requires HandlerOk(w, step.h) && RowOk(w, w.handlers[step.h].id)
    requires OwnMirrorOk(w, step.h, w.handlers[step.h].id) && Healthy(w, step)
    ensures OwnMirrorOk(Next(w, step), step.h, w.handlers[step.h].id)
  {
  }

  lemma HealthyHandlerStep(w: World, step: Step)
    requires Exclusive(w) && MirroredOk(w) && Healthy(w, step)
    requires OnHandler(step) && step.h < |w.handlers| && w.handlers[step.h].Live()
    ensures Local(w, Next(w, step), step.h) && OwnMirrorOk(Next(w, step), step.h, w.handlers[step.h].id)
  {
    HandlerStepIsLocal(w, step);
    assert HandlerOk(w, step.h) && RowOk(w, w.handlers[step.h].id);
    if step.Mirror? {
      HealthyMirrorUpdate(w, step.h);
    } else {
      HealthyStatement(w, step);
    }
  }

  lemma HealthyLocalKeepsMirrored(w: World, t: World, h: nat)
    requires MirroredOk(w) && Exclusive(w) && h < |w.handlers| && w.handlers[h].Live() && Local(w, t, h)
    requires OwnMirrorOk(t, h, w.handlers[h].id)
    ensures MirroredOk(t)
  {
    forall id | 0 <= id < |t.rows| && t.rows[id].status == Committed && Unheld(t, id)
      ensures t.debited[id] == 1 && t.credited[id] == 1
    {
      if id != w.handlers[h].id {
        assert Unheld(w, id);
      }
    }
  }

  lemma OtherStepKeepsMirrored(w: World, step: Step)
    requires Exclusive(w) && MirroredOk(w) && Healthy(w, step) && !OnHandler(step)
    ensures MirroredOk(Next(w, step))
  {
    var t := Next(w, step);
    assert w.handlers <= t.handlers;
    forall id | 0 <= id < |t.rows| && t.rows[id].status == Committed && Unheld(t, id)
      ensures t.debited[id] == 1 && t.credited[id] == 1
    {
      assert w.rows[id].status == Committed;
      forall h | 0 <= h < |w.handlers| && w.handlers[h].id == id ensures !w.handlers[h].Live() {
        assert t.handlers[h] == w.handlers[h];
      }
      assert Unheld(w, id);
    }
    forall h | 0 <= h < |t.handlers| && t.handlers[h].stage == Crediting ensures t.debited[t.handlers[h].id] == 1 {
      assert h < |w.handlers| && t.handlers[h] == w.handlers[h];
    }
  }

  lemma NextKeepsMirrored(w: World, step: Step)
    requires Exclusive(w) && MirroredOk(w) && Healthy(w, step)
    ensures MirroredOk(Next(w, step))
  {
    if !OnHandler(step) {
      OtherStepKeepsMirrored(w, step);
    } else if step.h >= |w.handlers| {
      UnknownHandlerDoesNothing(w, step);
    } else if !w.handlers[step.h].Live() {
      FinishedHandlerDoesNothing(w, step);
    } else {
      HealthyHandlerStep(w, step);
      HealthyLocalKeepsMirrored(w, Next(w, step), step.h);
    }
  }

  lemma {:induction false} HealthyRunKeepsAll(w: World, steps: seq<Step>)
    requires Exclusive(w) && MirroredOk(w) && HealthyRun(w, steps)
    ensures Exclusive(Run(w, steps)) && MirroredOk(Run(w, steps)) && SafeRun(w, steps)
  {
    if steps != [] {
      HealthyRunKeepsAll(w, steps[..|steps| - 1]);
      NextKeepsExclusive(Run(w, steps[..|steps| - 1]), steps[|steps| - 1]);
      NextKeepsMirrored(Run(w, steps[..|steps| - 1]), steps[|steps| - 1]);
    }
  }

  ghost predicate Quiescent(w: World) {
    forall h :: 0 <= h < |w.handlers| ==> !w.handlers[h].Live()
  }

  lemma {:induction false} NoSurplus(side: Side, rows: seq<Row>, applied: multiset<nat>, id: string)
    requires forall i :: 0 <= i < |rows| ==> applied[i] == CommitCount(rows[i])
    ensures Surplus(side, rows, applied, id) == 0
  {
    if rows != [] {
      NoSurplus(side, rows[..|rows| - 1], applied, id);
    }
  }

  lemma {:induction false} SameApplications(rows: seq<Row>, a: multiset<nat>, b: multiset<nat>)
    requires forall i :: 0 <= i < |rows| ==> a[i] == b[i]
    ensures BalanceDrift.TotalApplied(rows, a) == BalanceDrift.TotalApplied(rows, b)
  {
    if rows != [] {
      SameApplications(rows[..|rows| - 1], a, b);
    }
  }

  /** Whenever no handler is live in a healthy run, the drift check is clean and the debits posted to
      all accounts together equal the credits. */
  lemma {:induction false} QuiescentStatesAreClean(steps: seq<Step>)
    requires HealthyRun(PaymentQueue.INITIAL, steps)
    requires Quiescent(Run(PaymentQueue.INITIAL, steps))
    ensures var w := Run(PaymentQueue.INITIAL, steps);
            && BalanceDrift.Clean(w)
            && BalanceDrift.TotalPosted(Debit, w.accounts) == BalanceDrift.TotalPosted(Credit, w.accounts)
  {
    var w := Run(PaymentQueue.INITIAL, steps);
    HealthyRunKeepsAll(PaymentQueue.INITIAL, steps);
    forall i | 0 <= i < |w.rows|
      ensures w.debited[i] == CommitCount(w.rows[i]) && w.credited[i] == CommitCount(w.rows[i])
    {
      assert RowOk(w, i) && Unheld(w, i);
    }
    forall k, side | 0 <= k < |w.accounts|
      ensures BalanceDrift.Drift(side, w.accounts[k], w.rows) == 0
    {
      DriftExplained(steps, k, side);
      match side
      case Debit => NoSurplus(Debit, w.rows, w.debited, w.accounts[k].id);
      case Credit => NoSurplus(Credit, w.rows, w.credited, w.accounts[k].id);
    }
    BalanceDrift.MirrorTotals(steps, Debit);
    BalanceDrift.MirrorTotals(steps, Credit);
    SameApplications(w.rows, w.debited, w.credited);
  }
}
