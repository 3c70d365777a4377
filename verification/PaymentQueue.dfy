/**
 * The payment queue, its workers and the balance mirror, as a system of atomic database statements.
 *
 * A row of payment_queue is identified by its serial number, so the table is a sequence; rows are
 * never deleted. A handler is one iteration of a worker's loop over the rows it claimed: it works on
 * the copy of the row that the claim returned. Statements of any number of handlers interleave
 * freely with recovery, crashes, failed statements and administrative retries.
 */
module PaymentQueue {
  import opened Wrappers

  // ----- Tables -----

  datatype Status = Queued | Processing | Committed | Failed | DeadLetter

  datatype Side = Debit | Credit

  datatype Row = Row(debitAccount: string, creditAccount: string, amount: int, status: Status,
                     attempts: int, maxAttempts: int, nextRetryAt: Option<int>, updatedAt: int,
                     preimage: Option<string>)
  {
    function AccountOn(side: Side): string {
      match side case Debit => debitAccount case Credit => creditAccount
    }

    predicate HasPreimage() {
      preimage.Some? && preimage.value != ""
    }

    /** The columns that no statement changes. */
    predicate SamePayment(other: Row) {
      debitAccount == other.debitAccount && creditAccount == other.creditAccount && amount == other.amount
    }
  }

  datatype Account = Account(id: string, debitsPosted: int, debitsPending: int,
                             creditsPosted: int, creditsPending: int)
  {
    function Posted(side: Side): int {
      match side case Debit => debitsPosted case Credit => creditsPosted
    }

    function Post(side: Side, amount: int): Account {
      match side
      case Debit => this.(debitsPosted := debitsPosted + amount,
                          debitsPending := if debitsPending - amount > 0 then debitsPending - amount else 0)
      case Credit => this.(creditsPosted := creditsPosted + amount,
                           creditsPending := if creditsPending - amount > 0 then creditsPending - amount else 0)
    }
  }

  const HEARTBEAT_TIMEOUT_MS := 60_000
  const MAX_BACKOFF_MS := 3_600_000

  function Power2(n: nat): (p: nat)
    ensures p >= 1
  {
    if n == 0 then 1 else 2 * Power2(n - 1)
  }

  /** The delay before retry number `attempt`. */
  function CalcBackoffMs(attempt: nat): int {
    if Power2(attempt) * 1_000 < MAX_BACKOFF_MS then Power2(attempt) * 1_000 else MAX_BACKOFF_MS
  }

  lemma {:induction false} PowersGrow(m: nat, n: nat)
    requires m <= n
    ensures Power2(m) <= Power2(n)
  {
    if m < n {
      PowersGrow(m, n - 1);
    }
  }

  /** The delay never falls from one attempt to the next, and reaches its cap with the twelfth attempt. */
  lemma BackoffGrowsToItsCap(m: nat, n: nat)
    requires m <= n
    ensures 0 < CalcBackoffMs(m) <= CalcBackoffMs(n) <= MAX_BACKOFF_MS
    ensures CalcBackoffMs(n) == MAX_BACKOFF_MS <==> n >= 12
  {
    PowersGrow(m, n);
    assert Power2(11) == 2_048;
    if n >= 12 {
      assert Power2(12) == 4_096;
      PowersGrow(12, n);
    } else {
      PowersGrow(n, 11);
    }
  }

  /** Below the cap the delay is one second, doubled with every attempt. */
  lemma BackoffDoublesFromOneSecond(n: nat)
    ensures CalcBackoffMs(0) == 1_000
    ensures CalcBackoffMs(n + 1) == if 2 * CalcBackoffMs(n) < 3_600_000 then 2 * CalcBackoffMs(n) else 3_600_000
  {
  }

  // ----- Statements on one table -----

  predicate Stuck(row: Row, now: int) {
    row.status == Processing && row.updatedAt <= now - HEARTBEAT_TIMEOUT_MS
  }

  /** Heartbeat recovery: one UPDATE over the whole queue. */
  function RecoverRows(rows: seq<Row>, now: int): seq<Row> {
    seq(|rows|, i requires 0 <= i < |rows| =>
      if Stuck(rows[i], now)
      then rows[i].(status := Queued, nextRetryAt := Some(now), updatedAt := now)
      else rows[i])
  }

  function ClaimRows(rows: seq<Row>, ids: seq<nat>, now: int): seq<Row> {
    seq(|rows|, i requires 0 <= i < |rows| =>
      if i in ids then rows[i].(status := Processing, updatedAt := now) else rows[i])
  }

  function RetryRows(rows: seq<Row>, ids: set<nat>, now: int): seq<Row> {
    seq(|rows|, i requires 0 <= i < |rows| =>
      if i in ids
      then rows[i].(status := Queued, attempts := 0, nextRetryAt := Some(now), updatedAt := now)
      else rows[i])
  }

  /** An UPDATE of payment_accounts by account identifier touches every row that carries it. */
  function PostTo(accounts: seq<Account>, id: string, side: Side, amount: int): seq<Account> {
    seq(|accounts|, k requires 0 <= k < |accounts| =>
      if accounts[k].id == id then accounts[k].Post(side, amount) else accounts[k])
  }

  predicate HasAccount(accounts: seq<Account>, id: string) {
    exists k :: 0 <= k < |accounts| && accounts[k].id == id
  }

  // ----- The whole system -----

  /** Where a handler is: what it will do next. */
  datatype Stage =
    | Waiting     // claimed, preimage not yet ensured
    | Calling     // waiting for the payment switch
    | Settled     // the switch confirmed; the row is to be committed
    | Refused     // the switch did not confirm; the failure is to be written
    | Debiting    // committed; the debit side of the mirror is next
    | Crediting   // the credit side of the mirror is next
    | Erring      // a statement failed; the row is to be put back in the queue
    | Finished

  datatype Handler = Handler(id: nat, snapshot: Row, stage: Stage)
  {
    predicate Live() { stage != Finished }

    /** Live and not yet past the commit. */
    predicate Holds() { stage in {Waiting, Calling, Settled, Refused, Erring} }
  }

  /** The last three components are history: how often a debit, a credit and a commit of each row
      took effect. A mirror update takes effect when the account exists. */
  datatype World = World(rows: seq<Row>, accounts: seq<Account>, handlers: seq<Handler>,
                         debited: multiset<nat>, credited: multiset<nat>, commits: multiset<nat>)
  {
    function Applied(side: Side): multiset<nat> {
      match side case Debit => debited case Credit => credited
    }
  }

  /** How a statement ends for the handler that issued it: an error may hide a statement that did take
      effect. */
  datatype Reply = Done | NoEffect | LostReply

  /** One of the two routes that queue a payment sets its retry time, the other leaves that column empty. */
  datatype Step =
    | Enqueue(debit: string, credit: string, amount: int, maxAttempts: int, timed: bool, now: int)
    | OpenAccount(account: string)
    | Recover(now: int)
    | Claim(ids: seq<nat>, now: int)
    | Prepare(h: nat, generated: string, reply: Reply, now: int)
    | Switch(h: nat, confirmed: bool)
    | Commit(h: nat, reply: Reply, now: int)
    | Mirror(h: nat, reply: Reply)
    | Refuse(h: nat, reply: Reply, now: int)
    | Requeue(h: nat, now: int)
    | Crash(h: nat)
    | RetryDead(chosen: set<nat>, now: int)

  const INITIAL := World([], [], [], multiset{}, multiset{}, multiset{})

  predicate AtStage(w: World, h: nat, stage: Stage) {
    h < |w.handlers| && w.handlers[h].stage == stage && w.handlers[h].id < |w.rows|
  }

  function Move(w: World, h: nat, stage: Stage): World
    requires h < |w.handlers|
  {
    w.(handlers := w.handlers[h := w.handlers[h].(stage := stage)])
  }

  function Write(w: World, id: nat, row: Row): World
    requires id < |w.rows|
  {
    w.(rows := w.rows[id := row])
  }

  /** The row after the handler has written a failed attempt: computed from the claimed copy. */
  function AfterRefusal(row: Row, snapshot: Row, now: int): Row {
    var attempts := snapshot.attempts + 1;
    var dead := attempts >= snapshot.maxAttempts;
    row.(status := if dead then DeadLetter else Failed,
         attempts := attempts,
         nextRetryAt := if dead then None else Some(now + CalcBackoffMs(if attempts < 0 then 0 else attempts)),
         updatedAt := now)
  }

  /** The row after an unexpected error, with the delay of the claimed copy. */
  function Requeued(row: Row, snapshot: Row, now: int): Row {
    row.(status := Queued, updatedAt := now,
         nextRetryAt := Some(now + CalcBackoffMs(if snapshot.attempts < 0 then 0 else snapshot.attempts)))
  }

  function Count(applied: multiset<nat>, id: nat, effective: bool): multiset<nat> {
    if effective then applied + multiset{id} else applied
  }

  /** One mirror update by handler `h`, on the side its stage says. */
  function MirrorStep(w: World, h: nat, side: Side, reply: Reply): World
    requires h < |w.handlers|
  {
    var handler := w.handlers[h];
    var account := handler.snapshot.AccountOn(side);
    var moved := Move(w, h, if reply == Done && side == Debit then Crediting else Finished);
    if reply == NoEffect then moved
    else
      var effective := HasAccount(w.accounts, account);
      var posted := moved.(accounts := PostTo(w.accounts, account, side, handler.snapshot.amount));
      match side
      case Debit => posted.(debited := Count(w.debited, handler.id, effective))
      case Credit => posted.(credited := Count(w.credited, handler.id, effective))
  }

  predicate Claimable(rows: seq<Row>, ids: seq<nat>) {
    && (forall k :: 0 <= k < |ids| ==> ids[k] < |rows| && rows[ids[k]].status == Queued)
    && (forall j, k :: 0 <= j < k < |ids| ==> ids[j] != ids[k])
  }

  function Claimed(rows: seq<Row>, ids: seq<nat>): seq<Handler>
    requires forall k :: 0 <= k < |ids| ==> ids[k] < |rows|
  {
    seq(|ids|, k requires 0 <= k < |ids| => Handler(ids[k], rows[ids[k]], Waiting))
  }

  /** One atomic statement. A step that is not enabled changes nothing. */
  function Next(w: World, step: Step): World {
    match step
    case Enqueue(debit, credit, amount, maxAttempts, timed, now) =>
      var due := if timed then Some(now) else None;
      w.(rows := w.rows + [Row(debit, credit, amount, Queued, 0, maxAttempts, due, now, None)])
    case OpenAccount(account) =>
      if HasAccount(w.accounts, account) then w
      else w.(accounts := w.accounts + [Account(account, 0, 0, 0, 0)])
    case Recover(now) =>
      w.(rows := RecoverRows(w.rows, now))
    case Claim(ids, now) =>
      if !Claimable(w.rows, ids) then w
      else
        var rows := ClaimRows(w.rows, ids, now);
        w.(rows := rows, handlers := w.handlers + Claimed(rows, ids))
    case Prepare(h, generated, reply, now) =>
      if !AtStage(w, h, Waiting) then w
      else
        var handler := w.handlers[h];
        if handler.snapshot.HasPreimage() then Move(w, h, Calling)
        else
          var moved := Move(w, h, if reply == Done then Calling else Erring);
          if reply == NoEffect then moved
          else Write(moved, handler.id, w.rows[handler.id].(preimage := Some(generated), updatedAt := now))
    case Switch(h, confirmed) =>
      if !AtStage(w, h, Calling) then w else Move(w, h, if confirmed then Settled else Refused)
    case Commit(h, reply, now) =>
      if !AtStage(w, h, Settled) then w
      else
        var id := w.handlers[h].id;
        var moved := Move(w, h, if reply == Done then Debiting else Erring);
        if reply == NoEffect then moved
        else
          Write(moved, id, w.rows[id].(status := Committed, updatedAt := now))
            .(commits := w.commits + multiset{id})
    case Mirror(h, reply) =>
      if AtStage(w, h, Debiting) then MirrorStep(w, h, Debit, reply)
      else if AtStage(w, h, Crediting) then MirrorStep(w, h, Credit, reply)
      else w
    case Refuse(h, reply, now) =>
      if !AtStage(w, h, Refused) then w
      else
        var handler := w.handlers[h];
        var moved := Move(w, h, if reply == Done then Finished else Erring);
        if reply == NoEffect then moved
        else Write(moved, handler.id, AfterRefusal(w.rows[handler.id], handler.snapshot, now))
    case Requeue(h, now) =>
      if !AtStage(w, h, Erring) then w
      else
        var handler := w.handlers[h];
        Write(Move(w, h, Finished), handler.id, Requeued(w.rows[handler.id], handler.snapshot, now))
    case Crash(h) =>
      if h < |w.handlers| then Move(w, h, Finished) else w
    case RetryDead(chosen, now) =>
      w.(rows := RetryRows(w.rows, chosen, now))
  }

  function Run(w: World, steps: seq<Step>): World {
    if steps == [] then w else Next(Run(w, steps[..|steps| - 1]), steps[|steps| - 1])
  }

  lemma RunSnoc(w: World, steps: seq<Step>, step: Step)
    ensures Run(w, steps + [step]) == Next(Run(w, steps), step)
  {
    assert (steps + [step])[..|steps|] == steps;
  }

  // ----- What one step does to one row -----

  /** Switch and mirror touch no row of the queue, nor do a crash and the opening of an account. */
  predicate WritesRows(step: Step) {
    !step.OpenAccount? && !step.Switch? && !step.Mirror? && !step.Crash?
  }

  lemma HandlerStampsItsRow(w: World, step: Step, i: nat)
    requires (step.Prepare? || step.Commit? || step.Refuse? || step.Requeue?) && i < |w.rows|
    ensures i < |Next(w, step).rows|
    ensures Next(w, step).rows[i] != w.rows[i] ==> Next(w, step).rows[i].updatedAt == step.now
  {
  }

  /** Whatever a step changes in a row, it sets the row's time to that of the step. */
  lemma ChangedRowsAreStamped(w: World, step: Step, i: nat)
    requires i < |w.rows|
    ensures i < |Next(w, step).rows|
    ensures Next(w, step).rows[i] != w.rows[i] ==> WritesRows(step) && Next(w, step).rows[i].updatedAt == step.now
  {
    if step.Prepare? || step.Commit? || step.Refuse? || step.Requeue? {
      HandlerStampsItsRow(w, step, i);
    }
  }

  /** So for a minute after a claim, or any other change of a row, recovery leaves the row alone. */
  lemma ChangedRowsAreLeftAlone(w: World, step: Step, i: nat, later: int)
    requires i < |w.rows| && Next(w, step).rows[i] != w.rows[i]
    requires WritesRows(step) ==> later < step.now + 60_000
    ensures i < |Next(w, step).rows| && Next(Next(w, step), Recover(later)).rows[i] == Next(w, step).rows[i]
  {
    ChangedRowsAreStamped(w, step, i);
  }

  function NonNegative(n: int): nat {
    if n < 0 then 0 else n
  }

  lemma RequeuedRowIsTimed(w: World, h: nat, now: int, i: nat)
    requires i < |w.rows| && w.rows[i].status != Queued && Next(w, Requeue(h, now)).rows[i].status == Queued
    ensures h < |w.handlers| && w.handlers[h].id == i
    ensures Next(w, Requeue(h, now)).rows[i].nextRetryAt ==
            Some(now + CalcBackoffMs(NonNegative(w.handlers[h].snapshot.attempts)))
  {
  }

  /** How a row comes to be queued, and when it is due: at once when it is recovered, retried, or new with a time;
      after the delay of the attempts so far when a handler puts it back; and never when it is new without one. */
  lemma QueuedRowsAreDue(w: World, step: Step, i: nat)
    requires i < |Next(w, step).rows| && Next(w, step).rows[i].status == Queued
    requires i < |w.rows| ==> w.rows[i].status != Queued
    ensures match step
            case Enqueue(_, _, _, _, timed, now) =>
              i == |w.rows| && Next(w, step).rows[i].nextRetryAt == if timed then Some(now) else None
            case Recover(now) => Next(w, step).rows[i].nextRetryAt == Some(now)
            case RetryDead(_, now) => Next(w, step).rows[i].nextRetryAt == Some(now)
            case Requeue(h, now) =>
              && h < |w.handlers| && w.handlers[h].id == i
              && Next(w, step).rows[i].nextRetryAt ==
                 Some(now + CalcBackoffMs(NonNegative(w.handlers[h].snapshot.attempts)))
            case _ => false
  {
    if step.Requeue? {
      RequeuedRowIsTimed(w, step.h, step.now, i);
    }
  }

  /** A new payment: its accounts and amount, no attempt so far, no preimage. */
  lemma EnqueuedRow(w: World, debit: string, credit: string, amount: int, maxAttempts: int, timed: bool, now: int)
    ensures var t, n := Next(w, Enqueue(debit, credit, amount, maxAttempts, timed, now)), |w.rows|;
            && t == w.(rows := t.rows) && |t.rows| == n + 1 && t.rows[..n] == w.rows
            && t.rows[n].AccountOn(Debit) == t.rows[n].debitAccount == debit
            && t.rows[n].AccountOn(Credit) == t.rows[n].creditAccount == credit
            && t.rows[n].amount == amount && t.rows[n].status == Queued && t.rows[n].attempts == 0
            && t.rows[n].maxAttempts == maxAttempts && t.rows[n].preimage == None
  {
  }

  /** A new account starts with nothing posted or pending; an existing one is not opened again. */
  lemma OpenedAccount(w: World, account: string)
    ensures var t, n := Next(w, OpenAccount(account)), |w.accounts|;
            && HasAccount(t.accounts, account)
            && (HasAccount(w.accounts, account) ==> t == w)
            && (!HasAccount(w.accounts, account) ==>
                  && t == w.(accounts := t.accounts) && |t.accounts| == n + 1 && t.accounts[..n] == w.accounts
                  && t.accounts[n].id == account
                  && t.accounts[n].debitsPosted == t.accounts[n].debitsPending == 0
                  && t.accounts[n].creditsPosted == t.accounts[n].creditsPending == 0)
  {
    if !HasAccount(w.accounts, account) {
      assert Next(w, OpenAccount(account)).accounts[|w.accounts|].id == account;
    }
  }

  /** A mirror update raises what is posted on its side by the amount, and lowers what is pending there by as much
      but not below zero. Nothing else changes. */
  lemma PostMovesPendingToPosted(accounts: seq<Account>, id: string, side: Side, amount: int, k: nat)
    requires k < |accounts|
    ensures |PostTo(accounts, id, side, amount)| == |accounts|
    ensures var before, after := accounts[k], PostTo(accounts, id, side, amount)[k];
            && after.id == before.id
            && (before.id != id ==> after == before)
            && (before.id == id && side == Debit ==>
                  && after.debitsPosted == before.debitsPosted + amount
                  && after.debitsPending == NonNegative(before.debitsPending - amount)
                  && after.creditsPosted == before.creditsPosted && after.creditsPending == before.creditsPending)
            && (before.id == id && side == Credit ==>
                  && after.creditsPosted == before.creditsPosted + amount
                  && after.creditsPending == NonNegative(before.creditsPending - amount)
                  && after.debitsPosted == before.debitsPosted && after.debitsPending == before.debitsPending)
  {
  }

  /** A failed row has a retry time, a dead letter has none. */
  predicate RetryTimeFits(row: Row) {
    (row.status == Failed ==> row.nextRetryAt.Some?) && (row.status == DeadLetter ==> row.nextRetryAt.None?)
  }

  lemma HandlerKeepsRetryTime(w: World, step: Step, i: nat)
    requires (step.Prepare? || step.Commit? || step.Refuse? || step.Requeue?)
    requires i < |w.rows| && RetryTimeFits(w.rows[i])
    ensures i < |Next(w, step).rows| && RetryTimeFits(Next(w, step).rows[i])
    ensures Next(w, step).rows[i].status == Queued && Next(w, step).rows[i].nextRetryAt.None? ==>
              w.rows[i].status == Queued && w.rows[i].nextRetryAt.None?
  {
  }

  /** Step number `k` has queued row `i` without a retry time. */
  ghost predicate QueuedUntimed(steps: seq<Step>, k: nat, i: nat) {
    && k < |steps| && steps[k].Enqueue? && !steps[k].timed && i == |Run(INITIAL, steps[..k]).rows|
  }

  lemma StepKeepsRetryTime(w: World, step: Step, i: nat)
    requires i < |Next(w, step).rows| && (i < |w.rows| ==> RetryTimeFits(w.rows[i]))
    ensures RetryTimeFits(Next(w, step).rows[i])
    ensures Next(w, step).rows[i].status == Queued && Next(w, step).rows[i].nextRetryAt.None? ==>
              if i < |w.rows| then w.rows[i].status == Queued && w.rows[i].nextRetryAt.None?
              else i == |w.rows| && step.Enqueue? && !step.timed
  {
    if i < |w.rows| && (step.Prepare? || step.Commit? || step.Refuse? || step.Requeue?) {
      HandlerKeepsRetryTime(w, step, i);
    }
  }

  /** In every run a failed row has a retry time and a dead letter has none, and a queued row has none only if it was
      queued without one. */
  lemma {:induction false} RunKeepsRetryTimes(steps: seq<Step>, i: nat)
    requires i < |Run(INITIAL, steps).rows|
    ensures RetryTimeFits(Run(INITIAL, steps).rows[i])
    ensures Run(INITIAL, steps).rows[i].status == Queued && Run(INITIAL, steps).rows[i].nextRetryAt.None? ==>
              exists k: nat :: QueuedUntimed(steps, k, i)
  {
    var head, last := steps[..|steps| - 1], steps[|steps| - 1];
    var w, row := Run(INITIAL, head), Run(INITIAL, steps).rows[i];
    if i < |w.rows| {
      RunKeepsRetryTimes(head, i);
    }
    StepKeepsRetryTime(w, last, i);
    if row.status == Queued && row.nextRetryAt.None? {
      if i < |w.rows| {
        var k: nat :| QueuedUntimed(head, k, i);
        assert head[..k] == steps[..k] && QueuedUntimed(steps, k, i);
      } else {
        assert QueuedUntimed(steps, |head|, i);
      }
    }
  }

  // ----- Sums over the queue -----

  /** What the mirror of account `id` received on one side. */
  function Received(side: Side, rows: seq<Row>, applied: multiset<nat>, id: string): int {
    if rows == [] then 0
    else
      var n := |rows| - 1;
      Received(side, rows[..n], applied, id)
      + (if rows[n].AccountOn(side) == id then rows[n].amount * applied[n] else 0)
  }

  /** What the committed rows say account `id` should have received on one side. */
  function CommittedTotal(side: Side, rows: seq<Row>, id: string): int {
    if rows == [] then 0
    else
      var n := |rows| - 1;
      CommittedTotal(side, rows[..n], id)
      + (if rows[n].AccountOn(side) == id && rows[n].status == Committed then rows[n].amount else 0)
  }

  function CommitCount(row: Row): int {
    if row.status == Committed then 1 else 0
  }

  /** Amount times surplus applications, over the rows of account `id`. */
  function Surplus(side: Side, rows: seq<Row>, applied: multiset<nat>, id: string): int {
    if rows == [] then 0
    else
      var n := |rows| - 1;
      Surplus(side, rows[..n], applied, id)
      + (if rows[n].AccountOn(side) == id then rows[n].amount * (applied[n] - CommitCount(rows[n])) else 0)
  }

  lemma {:induction false} SurplusIsDifference(side: Side, rows: seq<Row>, applied: multiset<nat>, id: string)
    ensures Surplus(side, rows, applied, id) == Received(side, rows, applied, id) - CommittedTotal(side, rows, id)
  {
    if rows != [] {
      SurplusIsDifference(side, rows[..|rows| - 1], applied, id);
    }
  }

  ghost predicate SamePayments(rows: seq<Row>, other: seq<Row>) {
    |rows| == |other| && forall i :: 0 <= i < |rows| ==> rows[i].SamePayment(other[i])
  }

  lemma {:induction false} ReceivedFrame(side: Side, rows: seq<Row>, other: seq<Row>, applied: multiset<nat>,
                                         id: string)
    requires SamePayments(rows, other)
    ensures Received(side, rows, applied, id) == Received(side, other, applied, id)
  {
    if rows != [] {
      ReceivedFrame(side, rows[..|rows| - 1], other[..|other| - 1], applied, id);
    }
  }

  lemma {:induction false} ReceivedBump(side: Side, rows: seq<Row>, applied: multiset<nat>, i: nat, id: string)
    ensures Received(side, rows, applied + multiset{i}, id) ==
            Received(side, rows, applied, id)
            + (if i < |rows| && rows[i].AccountOn(side) == id then rows[i].amount else 0)
  {
    if rows != [] {
      var n := |rows| - 1;
      ReceivedBump(side, rows[..n], applied, i, id);
      if i == n {
        var a, c := rows[n].amount, applied[n];
        assert a * (c + 1) == a * c + a;
      }
    }
  }

  lemma {:induction false} ReceivedNothing(side: Side, rows: seq<Row>, applied: multiset<nat>, id: string)
    requires forall i :: 0 <= i < |rows| && i in applied ==> rows[i].AccountOn(side) != id
    ensures Received(side, rows, applied, id) == 0
  {
    if rows != [] {
      var n := |rows| - 1;
      ReceivedNothing(side, rows[..n], applied, id);
      assert n !in applied ==> rows[n].amount * applied[n] == 0;
    }
  }

  // ----- The mirror in every run -----

  ghost predicate Explained(side: Side, rows: seq<Row>, accounts: seq<Account>, applied: multiset<nat>) {
    && (forall i :: i in applied ==> i < |rows| && HasAccount(accounts, rows[i].AccountOn(side)))
    && (forall k :: 0 <= k < |accounts| ==> accounts[k].Posted(side) == Received(side, rows, applied, accounts[k].id))
  }

  ghost predicate Distinct(accounts: seq<Account>) {
    forall j, k :: 0 <= j < k < |accounts| ==> accounts[j].id != accounts[k].id
  }

  /** A handler's copy describes the same payment as the row. */
  ghost predicate HandlersMatch(rows: seq<Row>, handlers: seq<Handler>) {
    forall h :: 0 <= h < |handlers| ==>
      handlers[h].id < |rows| && handlers[h].snapshot.SamePayment(rows[handlers[h].id])
  }

  ghost predicate Inv(w: World) {
    && Distinct(w.accounts)
    && HandlersMatch(w.rows, w.handlers)
    && Explained(Debit, w.rows, w.accounts, w.debited)
    && Explained(Credit, w.rows, w.accounts, w.credited)
  }

  lemma ExplainedFrame(side: Side, rows: seq<Row>, other: seq<Row>, accounts: seq<Account>, applied: multiset<nat>)
    requires Explained(side, rows, accounts, applied) && SamePayments(rows, other)
    ensures Explained(side, other, accounts, applied)
  {
    forall k | 0 <= k < |accounts|
      ensures accounts[k].Posted(side) == Received(side, other, applied, accounts[k].id)
    {
      ReceivedFrame(side, rows, other, applied, accounts[k].id);
    }
  }

  /** A step that changes no account, no history and no payment. */
  lemma FrameKeepsInv(w: World, t: World)
    requires Inv(w) && SamePayments(w.rows, t.rows) && HandlersMatch(t.rows, t.handlers)
    requires t.accounts == w.accounts && t.debited == w.debited && t.credited == w.credited
    ensures Inv(t)
  {
    ExplainedFrame(Debit, w.rows, t.rows, w.accounts, w.debited);
    ExplainedFrame(Credit, w.rows, t.rows, w.accounts, w.credited);
  }

  lemma MoveKeepsInv(w: World, h: nat, stage: Stage)
    requires Inv(w) && h < |w.handlers|
    ensures Inv(Move(w, h, stage))
  {
    FrameKeepsInv(w, Move(w, h, stage));
  }

  lemma WriteKeepsInv(w: World, id: nat, row: Row)
    requires Inv(w) && id < |w.rows| && row.SamePayment(w.rows[id])
    ensures Inv(Write(w, id, row))
  {
    FrameKeepsInv(w, Write(w, id, row));
  }

  lemma PostToKeepsAccounts(accounts: seq<Account>, id: string, side: Side, amount: int, x: string)
    ensures HasAccount(accounts, x) <==> HasAccount(PostTo(accounts, id, side, amount), x)
  {
    var posted := PostTo(accounts, id, side, amount);
    if HasAccount(accounts, x) {
      var k :| 0 <= k < |accounts| && accounts[k].id == x;
      assert posted[k].id == x;
    }
    if HasAccount(posted, x) {
      var k :| 0 <= k < |posted| && posted[k].id == x;
      assert accounts[k].id == x;
    }
  }

  lemma PostingKeepsExplained(side: Side, rows: seq<Row>, accounts: seq<Account>, applied: multiset<nat>, i: nat)
    requires Explained(side, rows, accounts, applied) && i < |rows|
    ensures var id := rows[i].AccountOn(side);
            Explained(side, rows, PostTo(accounts, id, side, rows[i].amount),
                      Count(applied, i, HasAccount(accounts, id)))
  {
    var id := rows[i].AccountOn(side);
    var posted := PostTo(accounts, id, side, rows[i].amount);
    var counted := Count(applied, i, HasAccount(accounts, id));
    forall j | j in counted ensures j < |rows| && HasAccount(posted, rows[j].AccountOn(side)) {
      assert j in applied || j == i;
      PostToKeepsAccounts(accounts, id, side, rows[i].amount, rows[j].AccountOn(side));
    }
    forall k | 0 <= k < |posted| ensures posted[k].Posted(side) == Received(side, rows, counted, posted[k].id) {
      ReceivedBump(side, rows, applied, i, accounts[k].id);
      assert accounts[k].id == id ==> HasAccount(accounts, id);
    }
  }

  lemma PostingKeepsOtherSide(side: Side, other: Side, rows: seq<Row>, accounts: seq<Account>, applied: multiset<nat>,
                              id: string, amount: int)
    requires Explained(other, rows, accounts, applied) && side != other
    ensures Explained(other, rows, PostTo(accounts, id, side, amount), applied)
  {
    forall j | j in applied ensures HasAccount(PostTo(accounts, id, side, amount), rows[j].AccountOn(other)) {
      PostToKeepsAccounts(accounts, id, side, amount, rows[j].AccountOn(other));
    }
  }

  lemma PostToKeepsDistinct(accounts: seq<Account>, id: string, side: Side, amount: int)
    requires Distinct(accounts)
    ensures Distinct(PostTo(accounts, id, side, amount))
  {
    var posted := PostTo(accounts, id, side, amount);
    assert forall k :: 0 <= k < |accounts| ==> posted[k].id == accounts[k].id;
  }

  lemma DebitStepKeepsInv(w: World, h: nat, stage: Stage)
    requires Inv(w) && h < |w.handlers|
    ensures var handler := w.handlers[h];
            var account := handler.snapshot.debitAccount;
            Inv(Move(w, h, stage).(accounts := PostTo(w.accounts, account, Debit, handler.snapshot.amount),
                                   debited := Count(w.debited, handler.id, HasAccount(w.accounts, account))))
  {
    var id, account, amount := w.handlers[h].id, w.handlers[h].snapshot.debitAccount, w.handlers[h].snapshot.amount;
    MoveKeepsInv(w, h, stage);
    assert account == w.rows[id].AccountOn(Debit) && amount == w.rows[id].amount;
    PostToKeepsDistinct(w.accounts, account, Debit, amount);
    PostingKeepsExplained(Debit, w.rows, w.accounts, w.debited, id);
    PostingKeepsOtherSide(Debit, Credit, w.rows, w.accounts, w.credited, account, amount);
  }

  lemma CreditStepKeepsInv(w: World, h: nat, stage: Stage)
    requires Inv(w) && h < |w.handlers|
    ensures var handler := w.handlers[h];
            var account := handler.snapshot.creditAccount;
            Inv(Move(w, h, stage).(accounts := PostTo(w.accounts, account, Credit, handler.snapshot.amount),
                                   credited := Count(w.credited, handler.id, HasAccount(w.accounts, account))))
  {
    var id, account, amount := w.handlers[h].id, w.handlers[h].snapshot.creditAccount, w.handlers[h].snapshot.amount;
    MoveKeepsInv(w, h, stage);
    assert account == w.rows[id].AccountOn(Credit) && amount == w.rows[id].amount;
    PostToKeepsDistinct(w.accounts, account, Credit, amount);
    PostingKeepsExplained(Credit, w.rows, w.accounts, w.credited, id);
    PostingKeepsOtherSide(Credit, Debit, w.rows, w.accounts, w.debited, account, amount);
  }

  lemma MirrorStepKeepsInv(w: World, h: nat, side: Side, reply: Reply)
    requires Inv(w) && h < |w.handlers|
    ensures Inv(MirrorStep(w, h, side, reply))
  {
    var stage := if reply == Done && side == Debit then Crediting else Finished;
    MoveKeepsInv(w, h, stage);
    DebitStepKeepsInv(w, h, stage);
    CreditStepKeepsInv(w, h, stage);
  }

  lemma EnqueueKeepsExplained(side: Side, rows: seq<Row>, row: Row, accounts: seq<Account>, applied: multiset<nat>)
    requires Explained(side, rows, accounts, applied)
    ensures Explained(side, rows + [row], accounts, applied)
  {
    var n := |rows|;
    assert (rows + [row])[..n] == rows && n !in applied;
    assert row.amount * applied[n] == 0;
  }

  lemma OpeningKeepsExplained(side: Side, rows: seq<Row>, accounts: seq<Account>, applied: multiset<nat>, id: string)
    requires Explained(side, rows, accounts, applied) && !HasAccount(accounts, id)
    ensures Explained(side, rows, accounts + [Account(id, 0, 0, 0, 0)], applied)
  {
    var longer := accounts + [Account(id, 0, 0, 0, 0)];
    ReceivedNothing(side, rows, applied, id);
    forall j | j in applied ensures HasAccount(longer, rows[j].AccountOn(side)) {
      var k :| 0 <= k < |accounts| && accounts[k].id == rows[j].AccountOn(side);
      assert longer[k].id == rows[j].AccountOn(side);
    }
  }

  lemma MoveAndWriteKeepsInv(w: World, h: nat, stage: Stage, row: Row)
    requires Inv(w) && h < |w.handlers| && row.SamePayment(w.rows[w.handlers[h].id])
    ensures Inv(Move(w, h, stage)) && Inv(Write(Move(w, h, stage), w.handlers[h].id, row))
  {
    MoveKeepsInv(w, h, stage);
    WriteKeepsInv(Move(w, h, stage), w.handlers[h].id, row);
  }

  predicate OfHandler(step: Step) {
    step.Prepare? || step.Switch? || step.Commit? || step.Refuse? || step.Requeue? || step.Crash?
  }

  /** Apart from the mirror updates, a handler's statement touches its own stage and its own row only. */
  lemma HandlerStepShape(w: World, step: Step)
    requires OfHandler(step) && step.h < |w.handlers| && w.handlers[step.h].id < |w.rows|
    ensures var t, h, id := Next(w, step), step.h, w.handlers[step.h].id;
            && |t.rows| == |w.rows| && |t.handlers| == |w.handlers|
            && t.rows == w.rows[id := t.rows[id]]
            && t.handlers == w.handlers[h := w.handlers[h].(stage := t.handlers[h].stage)]
            && t.rows[id].SamePayment(w.rows[id])
            && t.accounts == w.accounts && t.debited == w.debited && t.credited == w.credited
  {
  }

  lemma HandlerStepKeepsInv(w: World, step: Step)
    requires Inv(w) && OfHandler(step) && step.h < |w.handlers|
    ensures Inv(Next(w, step))
  {
    var t := Next(w, step);
    var id := w.handlers[step.h].id;
    HandlerStepShape(w, step);
    MoveAndWriteKeepsInv(w, step.h, t.handlers[step.h].stage, t.rows[id]);
    FrameKeepsInv(Write(Move(w, step.h, t.handlers[step.h].stage), id, t.rows[id]), t);
  }

  lemma RowsKeepInv(w: World, rows: seq<Row>)
    requires Inv(w) && SamePayments(w.rows, rows)
    ensures Inv(w.(rows := rows))
  {
    forall h | 0 <= h < |w.handlers| ensures w.handlers[h].snapshot.SamePayment(rows[w.handlers[h].id]) {
      assert w.rows[w.handlers[h].id].SamePayment(rows[w.handlers[h].id]);
    }
    FrameKeepsInv(w, w.(rows := rows));
  }

  lemma HandlersKeepInv(w: World, more: seq<Handler>)
    requires Inv(w) && HandlersMatch(w.rows, more)
    ensures Inv(w.(handlers := w.handlers + more))
  {
  }

  lemma PaymentsStay(rows: seq<Row>, ids: seq<nat>, chosen: set<nat>, now: int)
    ensures SamePayments(rows, RecoverRows(rows, now)) && SamePayments(rows, ClaimRows(rows, ids, now))
    ensures SamePayments(rows, RetryRows(rows, chosen, now))
  {
  }

  lemma ClaimedMatch(rows: seq<Row>, ids: seq<nat>)
    requires forall k :: 0 <= k < |ids| ==> ids[k] < |rows|
    ensures HandlersMatch(rows, Claimed(rows, ids))
  {
  }

  lemma ClaimKeepsInv(w: World, ids: seq<nat>, now: int)
    requires Inv(w)
    ensures Inv(Next(w, Claim(ids, now)))
  {
    if Claimable(w.rows, ids) {
      var rows := ClaimRows(w.rows, ids, now);
      PaymentsStay(w.rows, ids, {}, now);
      RowsKeepInv(w, rows);
      ClaimedMatch(rows, ids);
      HandlersKeepInv(w.(rows := rows), Claimed(rows, ids));
    }
  }

  lemma RecoverKeepsInv(w: World, now: int)
    requires Inv(w)
    ensures Inv(Next(w, Recover(now)))
  {
    PaymentsStay(w.rows, [], {}, now);
    RowsKeepInv(w, RecoverRows(w.rows, now));
  }

  lemma RetryKeepsInv(w: World, chosen: set<nat>, now: int)
    requires Inv(w)
    ensures Inv(Next(w, RetryDead(chosen, now)))
  {
    PaymentsStay(w.rows, [], chosen, now);
    RowsKeepInv(w, RetryRows(w.rows, chosen, now));
  }

  lemma GrowthKeepsInv(w: World, step: Step)
    requires Inv(w) && (step.Enqueue? || step.OpenAccount?)
    ensures Inv(Next(w, step))
  {
    match step
    case Enqueue(debit, credit, amount, maxAttempts, timed, now) =>
      var row := Row(debit, credit, amount, Queued, 0, maxAttempts, if timed then Some(now) else None, now, None);
      EnqueueKeepsExplained(Debit, w.rows, row, w.accounts, w.debited);
      EnqueueKeepsExplained(Credit, w.rows, row, w.accounts, w.credited);
    case OpenAccount(id) =>
      if !HasAccount(w.accounts, id) {
        OpeningKeepsExplained(Debit, w.rows, w.accounts, w.debited, id);
        OpeningKeepsExplained(Credit, w.rows, w.accounts, w.credited, id);
      }
  }

  predicate OnHandler(step: Step) {
    OfHandler(step) || step.Mirror?
  }

  lemma UnknownHandlerDoesNothing(w: World, step: Step)
    requires OnHandler(step) && step.h >= |w.handlers|
    ensures Next(w, step) == w
  {
  }

  lemma MirrorShape(w: World, h: nat, reply: Reply)
    requires h < |w.handlers|
    ensures Next(w, Mirror(h, reply)) in {w, MirrorStep(w, h, Debit, reply), MirrorStep(w, h, Credit, reply)}
  {
  }

  lemma MirrorKeepsInv(w: World, h: nat, reply: Reply)
    requires Inv(w) && h < |w.handlers|
    ensures Inv(Next(w, Mirror(h, reply)))
  {
    MirrorShape(w, h, reply);
    MirrorStepKeepsInv(w, h, Debit, reply);
    MirrorStepKeepsInv(w, h, Credit, reply);
  }

  lemma NextKeepsInv(w: World, step: Step)
    requires Inv(w)
    ensures Inv(Next(w, step))
  {
    if step.Enqueue? || step.OpenAccount? {
      GrowthKeepsInv(w, step);
    } else if step.Recover? {
      RecoverKeepsInv(w, step.now);
    } else if step.RetryDead? {
      RetryKeepsInv(w, step.chosen, step.now);
    } else if step.Claim? {
      ClaimKeepsInv(w, step.ids, step.now);
    } else if step.h >= |w.handlers| {
      UnknownHandlerDoesNothing(w, step);
    } else if step.Mirror? {
      MirrorKeepsInv(w, step.h, step.reply);
    } else {
      HandlerStepKeepsInv(w, step);
    }
  }

  lemma {:induction false} RunKeepsInv(steps: seq<Step>)
    ensures Inv(Run(INITIAL, steps))
  {
    if steps != [] {
      RunKeepsInv(steps[..|steps| - 1]);
      NextKeepsInv(Run(INITIAL, steps[..|steps| - 1]), steps[|steps| - 1]);
    }
  }

  /** In every run, with any number of workers, crashes, recoveries and double processing, the drift of
      an account is the sum over its rows of the amount times the number of effective mirror
      applications beyond the one that a committed row should have. */
  lemma {:induction false} DriftExplained(steps: seq<Step>, k: nat, side: Side)
    requires k < |Run(INITIAL, steps).accounts|
    ensures var w := Run(INITIAL, steps);
            var id := w.accounts[k].id;
            w.accounts[k].Posted(side) - CommittedTotal(side, w.rows, id) ==
            Surplus(side, w.rows, w.Applied(side), id)
  {
    RunKeepsInv(steps);
    var w := Run(INITIAL, steps);
    SurplusIsDifference(side, w.rows, w.Applied(side), w.accounts[k].id);
  }
}
