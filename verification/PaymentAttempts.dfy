/**
 * How often a payment is attempted. A refused row is written back as `failed`, and no statement of the
 * worker ever claims a failed row: so the attempt counter and its threshold count to one.
 */
module PaymentAttempts {
  import opened PaymentQueue
  import opened PaymentLease

  /** The counter is one exactly in the two states that a refusal leaves, and the threshold decides which. */
  predicate FirstAttempt(row: Row) {
    && row.attempts == (if row.status in {Failed, DeadLetter} then 1 else 0)
    && (row.status == DeadLetter ==> row.maxAttempts <= 1)
    && (row.status == Failed ==> row.maxAttempts > 1)
  }

  ghost predicate ReadsFirstAttempt(w: World, h: nat)
    requires h < |w.handlers|
  {
    var handler := w.handlers[h];
    handler.Live() ==>
      && handler.id < |w.rows|
      && handler.snapshot.attempts == 0 && handler.snapshot.maxAttempts == w.rows[handler.id].maxAttempts
  }

  ghost predicate FirstAttempts(w: World) {
    && (forall i :: 0 <= i < |w.rows| ==> FirstAttempt(w.rows[i]))
    && (forall h :: 0 <= h < |w.handlers| ==> ReadsFirstAttempt(w, h))
  }

  lemma CopyStays(w: World, step: Step)
    requires OnHandler(step) && step.h < |w.handlers| && w.handlers[step.h].id < |w.rows|
    ensures var t, id := Next(w, step), w.handlers[step.h].id;
            && step.h < |t.handlers| && t.handlers[step.h].snapshot == w.handlers[step.h].snapshot
            && id < |t.rows| && t.rows[id].maxAttempts == w.rows[id].maxAttempts
  {
  }

  lemma OwnRowIsFirstAttempt(w: World, step: Step)
    requires OnHandler(step) && step.h < |w.handlers| && w.handlers[step.h].Live()
    requires HandlerOk(w, step.h) && ReadsFirstAttempt(w, step.h) && FirstAttempt(w.rows[w.handlers[step.h].id])
    requires !RequeuesFinal(w, step)
    ensures var t, id := Next(w, step), w.handlers[step.h].id; id < |t.rows| && FirstAttempt(t.rows[id])
  {
  }

  lemma HandlerKeepsFirstAttempts(w: World, step: Step)
    requires Exclusive(w) && FirstAttempts(w) && Respectful(w, step)
    requires OnHandler(step) && step.h < |w.handlers| && w.handlers[step.h].Live()
    ensures FirstAttempts(Next(w, step))
  {
    var t := Next(w, step);
    assert HandlerOk(w, step.h) && ReadsFirstAttempt(w, step.h);
    HandlerStepIsLocal(w, step);
    OwnRowIsFirstAttempt(w, step);
    CopyStays(w, step);
    forall h | 0 <= h < |t.handlers| ensures ReadsFirstAttempt(t, h) {
      assert ReadsFirstAttempt(w, h);
    }
  }

  lemma TableStepKeepsRow(w: World, step: Step, i: nat)
    requires FirstAttempts(w) && Respectful(w, step) && !OnHandler(step) && i < |Next(w, step).rows|
    ensures FirstAttempt(Next(w, step).rows[i])
    ensures i < |w.rows| ==> Next(w, step).rows[i].maxAttempts == w.rows[i].maxAttempts
  {
    if i < |w.rows| {
      assert FirstAttempt(w.rows[i]);
    }
  }

  lemma TableStepKeepsCopy(w: World, step: Step, h: nat)
    requires FirstAttempts(w) && Respectful(w, step) && !OnHandler(step) && h < |Next(w, step).handlers|
    ensures ReadsFirstAttempt(Next(w, step), h)
  {
    var t := Next(w, step);
    assert |w.rows| <= |t.rows|;
    if h < |w.handlers| {
      assert ReadsFirstAttempt(w, h) && t.handlers[h] == w.handlers[h];
      if w.handlers[h].Live() {
        TableStepKeepsRow(w, step, w.handlers[h].id);
      }
    } else {
      var id := step.ids[h - |w.handlers|];
      assert t.handlers[h] == Handler(id, t.rows[id], Waiting);
      TableStepKeepsRow(w, step, id);
    }
  }

  lemma TableStepKeepsFirstAttempts(w: World, step: Step)
    requires FirstAttempts(w) && Respectful(w, step) && !OnHandler(step)
    ensures FirstAttempts(Next(w, step))
  {
    forall i | 0 <= i < |Next(w, step).rows| ensures FirstAttempt(Next(w, step).rows[i]) {
      TableStepKeepsRow(w, step, i);
    }
    forall h | 0 <= h < |Next(w, step).handlers| ensures ReadsFirstAttempt(Next(w, step), h) {
      TableStepKeepsCopy(w, step, h);
    }
  }

  lemma {:induction false} RunKeepsFirstAttempts(w: World, steps: seq<Step>)
    requires Exclusive(w) && FirstAttempts(w) && RespectfulRun(w, steps)
    ensures FirstAttempts(Run(w, steps))
  {
    if steps != [] {
      var head, step := steps[..|steps| - 1], steps[|steps| - 1];
      var v := Run(w, head);
      RunKeepsFirstAttempts(w, head);
      RespectfulRunIsSafe(w, head);
      RunKeepsExclusive(w, head);
      if !OnHandler(step) {
        TableStepKeepsFirstAttempts(v, step);
      } else if step.h >= |v.handlers| {
        UnknownHandlerDoesNothing(v, step);
      } else if !v.handlers[step.h].Live() {
        FinishedHandlerDoesNothing(v, step);
      } else {
        HandlerKeepsFirstAttempts(v, step);
      }
    }
  }

  /** While all steps are respectful, a payment is refused at most once between administrative retries: the
      first refusal makes it a dead letter when its threshold is at most one and failed for good otherwise, so
      that no larger threshold is ever reached. */
  lemma {:induction false} FirstRefusalIsFinal(before: seq<Step>, after: seq<Step>, id: nat)
    requires RespectfulRun(PaymentQueue.INITIAL, before) && id < |Run(PaymentQueue.INITIAL, before).rows|
    requires RespectfulRun(Run(PaymentQueue.INITIAL, before), after)
    ensures var w := Run(PaymentQueue.INITIAL, before);
            var row := w.rows[id];
            && row.attempts <= 1
            && (row.attempts == 1 <==> row.status == (if row.maxAttempts <= 1 then DeadLetter else Failed))
            && id < |Run(w, after).rows|
            && (row.status == Failed ==>
                  Run(w, after).rows[id].status == Failed && Run(w, after).rows[id].attempts == 1)
  {
    var w := Run(PaymentQueue.INITIAL, before);
    RespectfulRunIsSafe(PaymentQueue.INITIAL, before);
    RunKeepsExclusive(PaymentQueue.INITIAL, before);
    RunKeepsFirstAttempts(PaymentQueue.INITIAL, before);
    assert FirstAttempt(w.rows[id]);
    RunKeepsFirstAttempts(w, after);
    FinalStatesAbsorb(w, after, id);
    assert FirstAttempt(Run(w, after).rows[id]);
  }
}
