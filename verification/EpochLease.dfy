/**
 * The epoch-fenced lease: three atomic Redis scripts over a lease key that may expire and an epoch
 * key that never does, and the quorum nodes that call them.
 *
 * Each script is a function on the contents of the two keys (Acquire, Renew, Release); RedisServer
 * and QuorumNode are the objects of the source, tied to those functions. A run of the system is any
 * sequence of script executions by any nodes with any arguments, and of lease expiries. A request
 * that never reaches Redis is no step at all; a reply that is lost is a step nobody is told about.
 */
module EpochLease {
  import opened Wrappers
  import opened CircuitBreakers

  // ----- The scripts -----

  datatype Keys = Keys(lease: Option<string>, epoch: int)

  datatype AcquireReply = Granted(epoch: int) | Refused(holder: string, epoch: int)

  datatype RenewReply = Renewal(epoch: int) | NotHolder | StaleEpoch

  /** The script compares the stored epoch with `expected` and stores whatever `newEpoch` it is
      handed. An empty string in the lease key counts as no holder. */
  function AcquireScript(keys: Keys, node: string, expected: int, newEpoch: int): (Keys, AcquireReply) {
    if keys.epoch != expected then
      (keys, Refused(if keys.lease.Some? then keys.lease.value else "", keys.epoch))
    else if keys.lease.Some? && keys.lease.value != "" && keys.lease.value != node then
      (keys, Refused(keys.lease.value, keys.epoch))
    else
      (Keys(Some(node), newEpoch), Granted(newEpoch))
  }

  function RenewScript(keys: Keys, node: string, epoch: int): RenewReply {
    if keys.lease != Some(node) then NotHolder
    else if keys.epoch != epoch then StaleEpoch
    else Renewal(epoch)
  }

  function ReleaseScript(keys: Keys, node: string): (Keys, bool) {
    if keys.lease != Some(node) then (keys, false) else (keys.(lease := None), true)
  }

  class RedisServer {
    var lease: Option<string>
    var epoch: int

    function View(): Keys
      reads this
    {
      Keys(lease, epoch)
    }

    constructor ()
      ensures View() == Keys(None, 0)
    {
      lease, epoch := None, 0;
    }

    method EvalAcquire(node: string, expected: int, newEpoch: int) returns (reply: AcquireReply)
      modifies this
      ensures (View(), reply) == AcquireScript(old(View()), node, expected, newEpoch)
      ensures reply.Granted? <==> old(epoch) == expected && old(lease) in {None, Some(""), Some(node)}
      ensures reply.Granted? ==> lease == Some(node) && epoch == newEpoch == reply.epoch
      ensures reply.Refused? ==> lease == old(lease) && epoch == old(epoch) == reply.epoch
      ensures reply.Refused? ==> reply.holder == if lease.Some? then lease.value else ""
    {
      var currentHolder := lease;
      if epoch != expected {
        return Refused(if currentHolder.Some? then currentHolder.value else "", epoch);
      }
      if currentHolder.Some? && currentHolder.value != "" && currentHolder.value != node {
        return Refused(currentHolder.value, epoch);
      }
      lease := Some(node);
      epoch := newEpoch;
      return Granted(newEpoch);
    }

    method EvalRenew(node: string, presented: int) returns (reply: RenewReply)
      ensures reply == RenewScript(View(), node, presented)
      ensures reply == NotHolder <==> lease != Some(node)
      ensures reply == StaleEpoch <==> lease == Some(node) && epoch != presented
      ensures reply.Renewal? ==> reply.epoch == presented
    {
      if lease != Some(node) {
        return NotHolder;
      }
      if epoch != presented {
        return StaleEpoch;
      }
      return Renewal(presented);
    }

    method EvalRelease(node: string) returns (released: bool)
      modifies this`lease
      ensures (View(), released) == ReleaseScript(old(View()), node)
      ensures released <==> old(lease) == Some(node)
      ensures lease == if released then None else old(lease)
    {
      if lease != Some(node) {
        return false;
      }
      lease := None;
      return true;
    }
  }

  // ----- The nodes -----

  /** What the network does to one call. */
  datatype Link = Delivered | RequestLost | ReplyLost

  /** What a call does to the breaker: nothing when partitioned, a look when blocked, and otherwise
      the outcome of the call, whatever the script answered. */
  function AfterCall(partitioned: bool, b: Breaker, link: Link, now: real): (r: Breaker)
    requires b.Valid()
    ensures r.Valid()
  {
    if partitioned then b
    else if !b.Allows(now) then b.Observe(now)
    else if link == Delivered then b.Observe(now).OnSuccess()
    else b.Observe(now).OnFailure(now)
  }

  /** Three calls in a row that come back without a reply make a new node stop calling, for half a second from
      the third on; two do not. */
  lemma ThreeLostCallsBlockTheNode(l1: Link, l2: Link, l3: Link, t1: real, t2: real, t3: real, now: real)
    requires l1 != Delivered && l2 != Delivered && l3 != Delivered
    ensures var two := AfterCall(false, AfterCall(false, Fresh(3, 0.5), l1, t1), l2, t2);
            two.Allows(now) && (AfterCall(false, two, l3, t3).Allows(now) <==> now - t3 > 0.5)
  {
  }

  /** A call that is answered counts as a success, whether the script grants or refuses: it closes the breaker,
      or takes one failure off a closed one. A call that is not sent leaves the breaker as it is. */
  lemma AnsweredCallsHeal(b: Breaker, link: Link, now: real)
    requires b.Valid()
    ensures b.Allows(now) ==>
              var after := AfterCall(false, b, Delivered, now);
              after.mode == Closed && after.failures == if b.mode == Closed && b.failures > 0 then b.failures - 1 else 0
    ensures !b.Allows(now) ==> AfterCall(false, b, link, now) == b
    ensures AfterCall(true, b, link, now) == b
  {
  }

  class QuorumNode {
    const nodeId: string
    const server: RedisServer
    const breaker: CircuitBreaker
    var partitioned: bool

    constructor (nodeId: string, server: RedisServer)
      ensures this.nodeId == nodeId && this.server == server && !partitioned
      ensures fresh(breaker) && breaker.View() == Fresh(3, 0.5)
    {
      this.nodeId, this.server, partitioned := nodeId, server, false;
      breaker := new CircuitBreaker(3, 0.5);
    }

    method SimulatePartition(isPartitioned: bool)
      modifies this`partitioned
      ensures partitioned == isPartitioned
    {
      partitioned := isPartitioned;
    }

    /** True when a call made now is sent at all. */
    predicate Sends(now: real)
      requires breaker.View().Valid()
      reads this, breaker
    {
      !partitioned && breaker.View().Allows(now)
    }

    /** The node passes `expected + 1` as the new epoch, and reports success only on a granted reply
        that it received. */
    method Acquire(expected: int, link: Link, now: real) returns (success: bool, epoch: int)
      requires breaker.View().Valid()
      modifies server, breaker
      ensures breaker.View().Valid()
      ensures server.View() ==
              if old(Sends(now)) && link != RequestLost
              then AcquireScript(old(server.View()), nodeId, expected, expected + 1).0
              else old(server.View())
      ensures success <==> old(Sends(now)) && link == Delivered &&
                           AcquireScript(old(server.View()), nodeId, expected, expected + 1).1.Granted?
      ensures epoch == if success then expected + 1 else expected
      ensures breaker.View() == AfterCall(partitioned, old(breaker.View()), link, now)
    {
      if partitioned {
        return false, expected;
      }
      var allowed := breaker.AllowRequest(now);
      if !allowed {
        return false, expected;
      }
      var newEpoch := expected + 1;
      if link == RequestLost {
        breaker.RecordFailure(now);
        return false, expected;
      }
      var reply := server.EvalAcquire(nodeId, expected, newEpoch);
      if link == ReplyLost {
        breaker.RecordFailure(now);
        return false, expected;
      }
      breaker.RecordSuccess();
      if reply.Granted? {
        return true, reply.epoch;
      }
      return false, expected;
    }

    method Renew(epoch: int, link: Link, now: real) returns (success: bool)
      requires breaker.View().Valid()
      modifies breaker
      ensures breaker.View().Valid()
      ensures success <==> old(Sends(now)) && link == Delivered &&
                           RenewScript(server.View(), nodeId, epoch).Renewal?
      ensures breaker.View() == AfterCall(partitioned, old(breaker.View()), link, now)
    {
      if partitioned {
        return false;
      }
      var allowed := breaker.AllowRequest(now);
      if !allowed {
        return false;
      }
      if link != Delivered {
        breaker.RecordFailure(now);
        return false;
      }
      var reply := server.EvalRenew(nodeId, epoch);
      breaker.RecordSuccess();
      return reply.Renewal?;
    }

    /** Minus one when the node cannot reach Redis. */
    method GetCurrentEpoch(link: Link) returns (epoch: int)
      ensures epoch == if partitioned || link != Delivered then -1 else server.epoch
    {
      if partitioned || link != Delivered {
        return -1;
      }
      return server.epoch;
    }
  }

  // ----- Runs of the whole system -----

  datatype Event =
    | Acquired(node: string, epoch: int)
    | Renewed(node: string, epoch: int)
    | Released(node: string)
    | Expired(node: string)

  /** `told` is false when the reply is lost on its way back to the caller. */
  datatype Step =
    | Acquire(node: string, expected: int, told: bool)
    | Renew(node: string, epoch: int, told: bool)
    | Release(node: string)
    | Expire

  /** `log` lists the successful operations in the order in which Redis executed them, `told` the
      acquires and renewals whose callers received the reply. */
  datatype System = System(keys: Keys, log: seq<Event>, told: seq<Event>)

  const INITIAL := System(Keys(None, 0), [], [])

  function Record(s: System, keys: Keys, event: Event, told: bool): System {
    System(keys, s.log + [event], if told then s.told + [event] else s.told)
  }

  function Next(s: System, step: Step): System {
    match step
    case Acquire(node, expected, told) =>
      var (keys, reply) := AcquireScript(s.keys, node, expected, expected + 1);
      if reply.Granted? then Record(s, keys, Acquired(node, reply.epoch), told) else s
    case Renew(node, epoch, told) =>
      var reply := RenewScript(s.keys, node, epoch);
      if reply.Renewal? then Record(s, s.keys, Renewed(node, reply.epoch), told) else s
    case Release(node) =>
      var (keys, released) := ReleaseScript(s.keys, node);
      if released then Record(s, keys, Released(node), false) else s
    case Expire =>
      if s.keys.lease.Some?
      then Record(s, s.keys.(lease := None), Expired(s.keys.lease.value), false)
      else s
  }

  function Run(s: System, steps: seq<Step>): System {
    if steps == [] then s else Next(Run(s, steps[..|steps| - 1]), steps[|steps| - 1])
  }

  // ----- What a log says by itself -----

  function Wins(log: seq<Event>): nat {
    if log == [] then 0
    else Wins(log[..|log| - 1]) + (if log[|log| - 1].Acquired? then 1 else 0)
  }

  function Holder(log: seq<Event>): Option<string> {
    if log == [] then None
    else
      match log[|log| - 1]
      case Acquired(node, _) => Some(node)
      case Renewed(_, _) => Holder(log[..|log| - 1])
      case Released(_) => None
      case Expired(_) => None
  }

  /** Whether `event` may follow `log`. */
  predicate Follows(log: seq<Event>, event: Event) {
    match event
    case Acquired(node, epoch) => epoch == Wins(log) + 1 && Holder(log) in {None, Some(""), Some(node)}
    case Renewed(node, epoch) => epoch == Wins(log) && Holder(log) == Some(node)
    case Released(node) => Holder(log) == Some(node)
    case Expired(node) => Holder(log) == Some(node)
  }

  ghost predicate Legal(log: seq<Event>) {
    forall i :: 0 <= i < |log| ==> Follows(log[..i], log[i])
  }

  /** The inductive invariant: both keys are what the log says, and the log is legal. */
  ghost predicate Inv(s: System) {
    && s.keys == Keys(Holder(s.log), Wins(s.log))
    && Legal(s.log)
    && forall event :: event in s.told ==> event in s.log
  }

  lemma {:induction false} LegalExtends(log: seq<Event>, event: Event)
    requires Legal(log) && Follows(log, event)
    ensures Legal(log + [event])
    ensures Wins(log + [event]) == Wins(log) + (if event.Acquired? then 1 else 0)
  {
    var longer := log + [event];
    assert longer[..|log|] == log;
    forall i | 0 <= i < |longer| ensures Follows(longer[..i], longer[i]) {
      if i < |log| {
        assert longer[..i] == log[..i];
      }
    }
  }

  /** A legal event whose effect on the holder is in the keys keeps the invariant. */
  lemma RecordKeepsInv(s: System, keys: Keys, event: Event, told: bool)
    requires Inv(s) && Follows(s.log, event)
    requires keys == Keys(Holder(s.log + [event]), Wins(s.log) + (if event.Acquired? then 1 else 0))
    ensures Inv(Record(s, keys, event, told))
  {
    LegalExtends(s.log, event);
  }

  lemma HolderAfter(log: seq<Event>, event: Event)
    ensures Holder(log + [event]) ==
            match event
            case Acquired(node, _) => Some(node)
            case Renewed(_, _) => Holder(log)
            case _ => None
  {
    assert (log + [event])[..|log|] == log;
  }

  lemma AcquireKeepsInv(s: System, node: string, expected: int, told: bool)
    requires Inv(s)
    ensures Inv(Next(s, Acquire(node, expected, told)))
  {
    var (keys, reply) := AcquireScript(s.keys, node, expected, expected + 1);
    if reply.Granted? {
      HolderAfter(s.log, Acquired(node, reply.epoch));
      RecordKeepsInv(s, keys, Acquired(node, reply.epoch), told);
    }
  }

  lemma RenewKeepsInv(s: System, node: string, epoch: int, told: bool)
    requires Inv(s)
    ensures Inv(Next(s, Renew(node, epoch, told)))
  {
    var reply := RenewScript(s.keys, node, epoch);
    if reply.Renewal? {
      HolderAfter(s.log, Renewed(node, reply.epoch));
      RecordKeepsInv(s, s.keys, Renewed(node, reply.epoch), told);
    }
  }

  lemma ReleaseKeepsInv(s: System, node: string)
    requires Inv(s)
    ensures Inv(Next(s, Release(node)))
  {
    var (keys, released) := ReleaseScript(s.keys, node);
    if released {
      HolderAfter(s.log, Released(node));
      RecordKeepsInv(s, keys, Released(node), false);
    }
  }

  lemma ExpireKeepsInv(s: System)
    requires Inv(s)
    ensures Inv(Next(s, Expire))
  {
    if s.keys.lease.Some? {
      HolderAfter(s.log, Expired(s.keys.lease.value));
      RecordKeepsInv(s, s.keys.(lease := None), Expired(s.keys.lease.value), false);
    }
  }

  lemma NextKeepsInv(s: System, step: Step)
    requires Inv(s)
    ensures Inv(Next(s, step))
  {
    match step
    case Acquire(node, expected, told) => AcquireKeepsInv(s, node, expected, told);
    case Renew(node, epoch, told) => RenewKeepsInv(s, node, epoch, told);
    case Release(node) => ReleaseKeepsInv(s, node);
    case Expire => ExpireKeepsInv(s);
  }

  /** Every state of every run satisfies the invariant. */
  lemma {:induction false} RunKeepsInv(s: System, steps: seq<Step>)
    requires Inv(s)
    ensures Inv(Run(s, steps))
  {
    if steps != [] {
      RunKeepsInv(s, steps[..|steps| - 1]);
      NextKeepsInv(Run(s, steps[..|steps| - 1]), steps[|steps| - 1]);
    }
  }

  /** In every reachable state the scripts accept a request exactly when the history of successful
      operations allows it next: they neither admit more than the specification nor refuse what it allows. */
  lemma {:induction false} ScriptsDecideAsTheHistory(steps: seq<Step>, node: string, epoch: int, told: bool)
    ensures var s := Run(INITIAL, steps);
            && (Next(s, Acquire(node, epoch - 1, told)) != s <==> Follows(s.log, Acquired(node, epoch)))
            && (Next(s, Renew(node, epoch, told)) != s <==> Follows(s.log, Renewed(node, epoch)))
            && (Next(s, Release(node)) != s <==> Follows(s.log, Released(node)))
            && (Next(s, Expire) != s <==> exists holder :: Follows(s.log, Expired(holder)))
  {
    RunKeepsInv(INITIAL, steps);
    var s := Run(INITIAL, steps);
    if s.keys.lease.Some? {
      assert Follows(s.log, Expired(s.keys.lease.value));
    }
    assert forall event, t :: |Record(s, s.keys, event, t).log| == |s.log| + 1;
  }

  lemma {:induction false} WinsIsMonotone(log: seq<Event>, i: nat, j: nat)
    requires i <= j <= |log|
    ensures Wins(log[..i]) <= Wins(log[..j])
    ensures i < j && log[i].Acquired? ==> Wins(log[..i]) < Wins(log[..j])
  {
    if i < j {
      assert log[..j][..j - 1] == log[..j - 1];
      WinsIsMonotone(log, i, j - 1);
    }
  }

  predicate IsWin(log: seq<Event>, i: nat, epoch: int) {
    i < |log| && log[i].Acquired? && log[i].epoch == epoch
  }

  lemma {:induction false} EpochIsWon(log: seq<Event>, epoch: int)
    requires Legal(log) && 1 <= epoch <= Wins(log)
    ensures exists i :: IsWin(log, i, epoch)
  {
    var n := |log|;
    var head := log[..n - 1];
    assert forall i :: 0 <= i < n - 1 ==> head[..i] == log[..i];
    if epoch <= Wins(head) {
      EpochIsWon(head, epoch);
      var i :| IsWin(head, i, epoch);
      assert IsWin(log, i, epoch);
    } else {
      assert IsWin(log, n - 1, epoch);
    }
  }

  /** In every run each epoch from 1 to the current one was won exactly once on the server, and no
      other epoch was ever won. */
  lemma {:induction false} OneWinnerPerEpoch(steps: seq<Step>, epoch: int)
    ensures var s := Run(INITIAL, steps);
            && (1 <= epoch <= s.keys.epoch <==> exists i :: IsWin(s.log, i, epoch))
            && (forall i, j :: IsWin(s.log, i, epoch) && IsWin(s.log, j, epoch) ==> i == j)
  {
    RunKeepsInv(INITIAL, steps);
    var log := Run(INITIAL, steps).log;
    assert log[..|log|] == log;
    if 1 <= epoch <= Wins(log) {
      EpochIsWon(log, epoch);
    }
    forall i | IsWin(log, i, epoch) ensures 1 <= epoch <= Wins(log) {
      WinsIsMonotone(log, i, |log|);
    }
    forall i, j | IsWin(log, i, epoch) && IsWin(log, j, epoch) ensures i == j {
      if i < j {
        WinsIsMonotone(log, i, j);
      } else if j < i {
        WinsIsMonotone(log, j, i);
      }
    }
  }

  lemma {:induction false} HolderWonLast(log: seq<Event>)
    requires Legal(log) && Holder(log).Some?
    ensures Acquired(Holder(log).value, Wins(log)) in log
  {
    var n := |log|;
    var head := log[..n - 1];
    assert forall i :: 0 <= i < n - 1 ==> head[..i] == log[..i];
    if log[n - 1].Renewed? {
      HolderWonLast(head);
      assert Acquired(Holder(log).value, Wins(log)) in head;
    }
  }

  /** In every run whoever holds the lease is the winner of the current epoch, and no caller was ever
      told of a success that Redis did not execute. */
  lemma {:induction false} HolderIsCurrentWinner(steps: seq<Step>)
    ensures var s := Run(INITIAL, steps);
            && (s.keys.lease.Some? ==> Acquired(s.keys.lease.value, s.keys.epoch) in s.log)
            && (forall event :: event in s.told ==> event in s.log)
  {
    RunKeepsInv(INITIAL, steps);
    var s := Run(INITIAL, steps);
    if s.keys.lease.Some? {
      HolderWonLast(s.log);
    }
  }

  predicate Carries(event: Event) {
    event.Acquired? || event.Renewed?
  }

  /** In every run the epochs carried by successful acquires and renewals never decrease in the order
      of execution, and each acquire carries an epoch larger by exactly one than the number of
      acquires before it. */
  lemma {:induction false} EpochsNeverDecrease(steps: seq<Step>, i: nat, j: nat)
    requires i < j < |Run(INITIAL, steps).log|
    requires Carries(Run(INITIAL, steps).log[i]) && Carries(Run(INITIAL, steps).log[j])
    ensures var log := Run(INITIAL, steps).log;
            && log[i].epoch <= log[j].epoch
            && (log[j].Acquired? ==> log[i].epoch < log[j].epoch && log[j].epoch == Wins(log[..j]) + 1)
  {
    RunKeepsInv(INITIAL, steps);
    WinsIsMonotone(Run(INITIAL, steps).log, i, j);
  }

  lemma {:induction false} EpochOnlyGrows(s: System, steps: seq<Step>)
    requires Inv(s)
    ensures Run(s, steps).keys.epoch >= s.keys.epoch
  {
    if steps != [] {
      var head := steps[..|steps| - 1];
      EpochOnlyGrows(s, head);
    }
  }

  /** Fencing: once Redis has moved past an epoch, no renewal and no acquire that presents it
      succeeds in any continuation, whoever sends it and whatever happened in between. */
  lemma {:induction false} StaleEpochIsFenced(s: System, steps: seq<Step>, node: string, epoch: int, told: bool)
    requires Inv(s) && epoch < s.keys.epoch
    ensures Next(Run(s, steps), Acquire(node, epoch, told)) == Run(s, steps)
    ensures Next(Run(s, steps), Renew(node, epoch, told)) == Run(s, steps)
  {
    EpochOnlyGrows(s, steps);
  }

  lemma WonEpochsAreInThePast(s: System, winner: string, epoch: int)
    requires Inv(s) && Acquired(winner, epoch) in s.log
    ensures epoch <= s.keys.epoch
  {
    var i :| 0 <= i < |s.log| && s.log[i] == Acquired(winner, epoch);
    assert s.log[..|s.log|] == s.log;
    WinsIsMonotone(s.log, i, |s.log|);
  }

  /** Winning an epoch and then seeing anybody acquire fences the first winner for good. */
  lemma {:induction false} NextAcquireFencesTheWinner(before: seq<Step>, after: seq<Step>,
                                                     winner: string, other: string, epoch: int, told: bool)
    requires Acquired(winner, epoch) in Run(INITIAL, before).log
    requires Next(Run(INITIAL, before), Acquire(other, Run(INITIAL, before).keys.epoch, told)) != Run(INITIAL, before)
    ensures var s := Next(Run(INITIAL, before), Acquire(other, Run(INITIAL, before).keys.epoch, told));
            forall node, t ::
              && Next(Run(s, after), Acquire(node, epoch, t)) == Run(s, after)
              && Next(Run(s, after), Renew(node, epoch, t)) == Run(s, after)
  {
    var s0 := Run(INITIAL, before);
    RunKeepsInv(INITIAL, before);
    var s := Next(s0, Acquire(other, s0.keys.epoch, told));
    NextKeepsInv(s0, Acquire(other, s0.keys.epoch, told));
    WonEpochsAreInThePast(s0, winner, epoch);
    assert s.keys.epoch == s0.keys.epoch + 1;
    forall node, t
      ensures Next(Run(s, after), Acquire(node, epoch, t)) == Run(s, after)
      ensures Next(Run(s, after), Renew(node, epoch, t)) == Run(s, after)
    {
      StaleEpochIsFenced(s, after, node, epoch, t);
    }
  }

  lemma {:induction false} LeaseStaysWhileNotLost(log: seq<Event>, i: nat, j: nat)
    requires Legal(log) && i < j <= |log|
    requires log[i].Acquired? && log[i].node != ""
    requires forall k :: i < k < j ==> log[k] != Released(log[i].node) && log[k] != Expired(log[i].node)
    ensures Holder(log[..j]) == Some(log[i].node)
  {
    assert log[..j][..j - 1] == log[..j - 1];
    if i < j - 1 {
      LeaseStaysWhileNotLost(log, i, j - 1);
    }
  }

  /** Handover: between acquires by two different nodes the first node's lease expired or was
      released, provided the first node's identifier is not the empty string. */
  lemma {:induction false} HandoverNeedsExpiryOrRelease(steps: seq<Step>, i: nat, j: nat)
    requires i < j < |Run(INITIAL, steps).log|
    requires Run(INITIAL, steps).log[i].Acquired? && Run(INITIAL, steps).log[j].Acquired?
    requires Run(INITIAL, steps).log[i].node != Run(INITIAL, steps).log[j].node
    requires Run(INITIAL, steps).log[i].node != ""
    ensures var log := Run(INITIAL, steps).log;
            exists k :: i < k < j && (log[k] == Released(log[i].node) || log[k] == Expired(log[i].node))
  {
    RunKeepsInv(INITIAL, steps);
    var log := Run(INITIAL, steps).log;
    assert Follows(log[..j], log[j]);
    if forall k :: i < k < j ==> log[k] != Released(log[i].node) && log[k] != Expired(log[i].node) {
      LeaseStaysWhileNotLost(log, i, j);
    }
  }

  /** The proviso is needed: a node whose identifier is empty loses its lease to anybody. In any state
      in which a lease is held, another node that knows the epoch takes it over directly exactly when
      the holder's identifier is empty. */
  lemma DirectTakeoverExactlyFromEmptyId(s: System, node: string, told: bool)
    requires s.keys.lease.Some? && s.keys.lease.value != node
    ensures Next(s, Acquire(node, s.keys.epoch, told)) != s <==> s.keys.lease.value == ""
  {
    var (keys, reply) := AcquireScript(s.keys, node, s.keys.epoch, s.keys.epoch + 1);
    if reply.Granted? {
      assert |Next(s, Acquire(node, s.keys.epoch, told)).log| == |s.log| + 1;
    }
  }

  /** Uniqueness rests on the caller as well as on the script: handed a new epoch that is not larger
      than the one expected, the script lets a second node win an epoch again after an expiry. */
  lemma ScriptAloneReusesEpochs(epoch: int)
    ensures var (k1, r1) := AcquireScript(Keys(None, epoch), "a", epoch, epoch);
            var (k2, r2) := AcquireScript(k1.(lease := None), "b", epoch, epoch);
            r1 == Granted(epoch) && r2 == Granted(epoch)
  {
  }
}
