/**
 * The circuit breaker that each quorum node puts in front of Redis.
 *
 * Breaker is the specification: a value with one function per operation.
 * CircuitBreaker is the object of the source, with its fields updated in place;
 * every method is tied to the specification function of the same name.
 */
module CircuitBreakers {
  import opened Wrappers

  datatype Mode = Closed | Open | HalfOpen

  datatype Breaker = Breaker(mode: Mode, failures: int, threshold: int, timeout: real,
                             openedAt: Option<real>, opens: nat, closes: nat)
  {
    /** What every operation keeps: an opened breaker knows when it opened, and the two counters
        differ by one exactly while the breaker is not closed. */
    ghost predicate Valid() {
      && (mode == Open ==> openedAt.Some?)
      && 0 <= failures
      && opens == closes + (if mode == Closed then 0 else 1)
      && (mode == Closed ==> failures < Limit())
    }

    /** The net failure count that trips a closed breaker; even a threshold below one needs a failure. */
    function Limit(): int {
      if threshold < 1 then 1 else threshold
    }

    /** Reading the state: an OPEN breaker whose timeout has elapsed becomes HALF_OPEN. */
    function Observe(now: real): Breaker
      requires mode == Open ==> openedAt.Some?
    {
      if mode == Open && now - openedAt.value > timeout then this.(mode := HalfOpen) else this
    }

    function OnSuccess(): Breaker {
      var b := if mode == Closed then this else this.(mode := Closed, failures := 0, closes := closes + 1);
      b.(failures := if b.failures - 1 > 0 then b.failures - 1 else 0)
    }

    function OnFailure(now: real): Breaker {
      var b := this.(failures := failures + 1);
      if b.failures >= threshold && mode == Closed
      then b.(mode := Open, openedAt := Some(now), opens := opens + 1)
      else b
    }

    predicate Allows(now: real)
      requires mode == Open ==> openedAt.Some?
    {
      Observe(now).mode != Open
    }
  }

  function Fresh(threshold: int, timeout: real): Breaker {
    Breaker(Closed, 0, threshold, timeout, None, 0, 0)
  }

  class CircuitBreaker {
    var mode: Mode
    var failures: int
    const threshold: int
    const timeout: real
    var openedAt: Option<real>
    var openCount: nat
    var closeCount: nat

    function View(): Breaker
      reads this
    {
      Breaker(mode, failures, threshold, timeout, openedAt, openCount, closeCount)
    }

    constructor (threshold: int, timeout: real)
      ensures View() == Fresh(threshold, timeout) && View().Valid()
    {
      mode, failures, openedAt, openCount, closeCount := Closed, 0, None, 0, 0;
      this.threshold, this.timeout := threshold, timeout;
    }

    method State(now: real) returns (m: Mode)
      requires View().Valid()
      modifies this`mode
      ensures View() == old(View()).Observe(now) && View().Valid()
      ensures m == mode
      ensures mode == if old(mode) == Open && now - openedAt.value > timeout then HalfOpen else old(mode)
    {
      if mode == Open {
        if now - openedAt.value > timeout {
          mode := HalfOpen;
        }
      }
      m := mode;
    }

    method RecordSuccess()
      requires View().Valid()
      modifies this
      ensures View() == old(View()).OnSuccess() && View().Valid()
      ensures mode == Closed && (old(mode) != Closed || old(failures) <= 1 ==> failures == 0)
      ensures old(mode) == Closed && old(failures) > 1 ==> failures == old(failures) - 1
    {
      if mode in {HalfOpen, Open} {
        mode := Closed;
        failures := 0;
        closeCount := closeCount + 1;
      }
      failures := if failures - 1 > 0 then failures - 1 else 0;
    }

    method RecordFailure(now: real)
      requires View().Valid()
      modifies this
      ensures View() == old(View()).OnFailure(now) && View().Valid()
      ensures failures == old(failures) + 1
      ensures old(mode) == Closed && failures >= threshold ==> mode == Open && openedAt == Some(now)
      ensures !(old(mode) == Closed && failures >= threshold) ==> mode == old(mode) && openedAt == old(openedAt)
    {
      failures := failures + 1;
      if failures >= threshold && mode == Closed {
        mode := Open;
        openedAt := Some(now);
        openCount := openCount + 1;
      }
    }

    method AllowRequest(now: real) returns (allowed: bool)
      requires View().Valid()
      modifies this`mode
      ensures View() == old(View()).Observe(now) && View().Valid()
      ensures allowed == old(View()).Allows(now)
      ensures allowed <==> old(mode) != Open || now - openedAt.value > timeout
    {
      var s := State(now);
      if s == Closed {
        return true;
      }
      if s == HalfOpen {
        return true;
      }
      return false;
    }
  }

  // ----- What a history of outcomes does to a breaker -----

  datatype Signal = Success | Failure(now: real) | Look(now: real)

  function On(b: Breaker, signal: Signal): (r: Breaker)
    requires b.Valid()
    ensures r.Valid() && r.threshold == b.threshold && r.timeout == b.timeout && r.opens >= b.opens
  {
    match signal
    case Success => b.OnSuccess()
    case Failure(now) => b.OnFailure(now)
    case Look(now) => b.Observe(now)
  }

  function Feed(b: Breaker, signals: seq<Signal>): (r: Breaker)
    requires b.Valid()
    ensures r.Valid() && r.threshold == b.threshold && r.timeout == b.timeout && r.opens >= b.opens
  {
    if signals == [] then b
    else
      On(Feed(b, signals[..|signals| - 1]), signals[|signals| - 1])
  }

  /** Failures minus successes in a stretch of history. */
  function Net(signals: seq<Signal>): int {
    if signals == [] then 0
    else Net(signals[..|signals| - 1]) + Weight(signals[|signals| - 1])
  }

  function Weight(signal: Signal): int {
    match signal
    case Success => -1
    case Failure(_) => 1
    case Look(_) => 0
  }

  lemma {:induction false} NetOfSuffix(signals: seq<Signal>, i: nat)
    requires i < |signals|
    ensures Net(signals[i..]) == Net(signals[i..|signals| - 1]) + Weight(signals[|signals| - 1])
  {
    assert signals[i..][..|signals| - i - 1] == signals[i..|signals| - 1];
  }

  lemma ClosedCounts(b: Breaker, signal: Signal)
    requires b.Valid() && b.mode == Closed && On(b, signal).opens == b.opens
    ensures On(b, signal).mode == Closed
    ensures On(b, signal).failures == if b.failures + Weight(signal) > 0 then b.failures + Weight(signal) else 0
  {
  }

  /** While it has not tripped, the failure counter is the largest net failure count of any
      stretch of history that ends now. */
  lemma {:induction false} CounterIsWorstSuffix(b: Breaker, signals: seq<Signal>)
    requires b.Valid() && b.mode == Closed && b.failures == 0
    requires Feed(b, signals).opens == b.opens
    ensures Feed(b, signals).mode == Closed
    ensures forall i :: 0 <= i <= |signals| ==> Net(signals[i..]) <= Feed(b, signals).failures
    ensures exists i :: 0 <= i <= |signals| && Net(signals[i..]) == Feed(b, signals).failures
  {
    var n := |signals|;
    if n == 0 {
      assert Net(signals[0..]) == 0;
    } else {
      var head, last := signals[..n - 1], signals[n - 1];
      CounterIsWorstSuffix(b, head);
      ClosedCounts(Feed(b, head), last);
      forall i | 0 <= i < n
        ensures Net(signals[i..]) == Net(head[i..]) + Weight(last)
      {
        NetOfSuffix(signals, i);
        assert head[i..] == signals[i..n - 1];
      }
      assert Net(signals[n..]) == 0;
      var i :| 0 <= i <= n - 1 && Net(head[i..]) == Feed(b, head).failures;
      assert Net(signals[i..]) == Net(head[i..]) + Weight(last);
    }
  }

  /** Some stretch of the history has at least `limit` more failures than successes. */
  ghost predicate Overloaded(signals: seq<Signal>, limit: int) {
    exists i, j :: 0 <= i <= j <= |signals| && Net(signals[i..j]) >= limit
  }

  lemma OverloadGrows(signals: seq<Signal>, limit: nat)
    requires signals != [] && limit > 0
    ensures Overloaded(signals, limit) <==>
              Overloaded(signals[..|signals| - 1], limit) ||
              exists i :: 0 <= i <= |signals| && Net(signals[i..]) >= limit
  {
    var n := |signals|;
    var head := signals[..n - 1];
    assert forall i, j :: 0 <= i <= j <= n - 1 ==> head[i..j] == signals[i..j];
    assert forall i :: 0 <= i <= n ==> signals[i..n] == signals[i..];
    if Overloaded(signals, limit) {
      var i, j :| 0 <= i <= j <= n && Net(signals[i..j]) >= limit;
      assert if j == n then Net(signals[i..]) >= limit else Net(head[i..j]) >= limit;
    }
    if Overloaded(head, limit) {
      var i, j :| 0 <= i <= j <= |head| && Net(head[i..j]) >= limit;
      assert Net(signals[i..j]) >= limit;
    }
    if i :| 0 <= i <= n && Net(signals[i..]) >= limit {
      assert Net(signals[i..n]) >= limit;
    }
  }

  /** A breaker that is new, or closed with no failures counted, has tripped at some point of a history exactly
      when some stretch of that history has at least the limit of more failures than successes. */
  lemma {:induction false} TripsExactlyWhenOverloaded(b: Breaker, signals: seq<Signal>)
    requires b.Valid() && b.mode == Closed && b.failures == 0
    ensures Feed(b, signals).opens > b.opens <==> Overloaded(signals, b.Limit())
  {
    var n := |signals|;
    if n == 0 {
      forall i, j | 0 <= i <= j <= n ensures Net(signals[i..j]) == 0 { }
    } else {
      var head := signals[..n - 1];
      TripsExactlyWhenOverloaded(b, head);
      OverloadGrows(signals, b.Limit());
      if Feed(b, head).opens == b.opens {
        CounterIsWorstSuffix(b, head);
        if Feed(b, signals).opens > b.opens {
          var i :| 0 <= i <= n - 1 && Net(head[i..]) == Feed(b, head).failures;
          NetOfSuffix(signals, i);
          assert head[i..] == signals[i..n - 1];
        } else {
          CounterIsWorstSuffix(b, signals);
        }
      }
    }
  }

  /** A failed probe does not reopen the breaker: without a success the opening time and the number
      of openings never change, HALF_OPEN is never left, and so requests are blocked at most until
      the first timeout has elapsed. */
  lemma {:induction false} FailuresNeverReopen(b: Breaker, signals: seq<Signal>)
    requires b.Valid() && b.mode != Closed
    requires Success !in signals
    ensures Feed(b, signals).mode != Closed
    ensures Feed(b, signals).openedAt == b.openedAt && Feed(b, signals).opens == b.opens
    ensures Feed(b, signals).failures == b.failures + Net(signals)
    ensures b.mode == HalfOpen ==> Feed(b, signals).mode == HalfOpen
    ensures forall now :: b.openedAt.Some? && now - b.openedAt.value > b.timeout ==> Feed(b, signals).Allows(now)
  {
    if signals != [] {
      FailuresNeverReopen(b, signals[..|signals| - 1]);
      assert signals[|signals| - 1] in signals;
    }
  }

  predicate LookedAfter(signals: seq<Signal>, deadline: real) {
    exists k :: 0 <= k < |signals| && signals[k].Look? && signals[k].now > deadline
  }

  lemma {:induction false} StaysOpenUntilLookedAt(b: Breaker, signals: seq<Signal>)
    requires b.Valid() && b.mode == Open && Success !in signals
    ensures Feed(b, signals).openedAt == b.openedAt
    ensures Feed(b, signals).mode == if LookedAfter(signals, b.openedAt.value + b.timeout) then HalfOpen else Open
  {
    if signals != [] {
      var n := |signals| - 1;
      StaysOpenUntilLookedAt(b, signals[..n]);
      if LookedAfter(signals[..n], b.openedAt.value + b.timeout) {
        var k :| 0 <= k < n && signals[..n][k].Look? && signals[..n][k].now > b.openedAt.value + b.timeout;
        assert signals[k] == signals[..n][k];
      } else {
        assert forall k :: 0 <= k < n ==> signals[k] == signals[..n][k];
      }
    }
  }

  /** Tripped by a failure at time `t`, and until a success, the breaker blocks exactly while the timeout has not
      elapsed and nobody has looked at it since. */
  lemma {:induction false} BlocksExactlyUntilTheTimeout(b: Breaker, t: real, signals: seq<Signal>, now: real)
    requires b.Valid() && b.mode == Closed && b.OnFailure(t).mode == Open && Success !in signals
    ensures b.OnFailure(t).Valid()
    ensures Feed(b.OnFailure(t), signals).Allows(now) <==>
            now - t > b.timeout ||
            exists k :: 0 <= k < |signals| && signals[k].Look? && signals[k].now - t > b.timeout
  {
    StaysOpenUntilLookedAt(b.OnFailure(t), signals);
    assert LookedAfter(signals, t + b.timeout) <==>
           exists k :: 0 <= k < |signals| && signals[k].Look? && signals[k].now - t > b.timeout;
  }

  /** One success closes a tripped breaker for good: it opens again exactly when some stretch of the history since
      then has at least the limit of more failures than successes. */
  lemma TripsAgainExactlyWhenOverloaded(b: Breaker, signals: seq<Signal>)
    requires b.Valid() && b.mode != Closed
    ensures b.OnSuccess().Valid() && b.OnSuccess().mode == Closed
    ensures Feed(b.OnSuccess(), signals).opens > b.opens <==> Overloaded(signals, b.Limit())
  {
    TripsExactlyWhenOverloaded(b.OnSuccess(), signals);
  }
}
