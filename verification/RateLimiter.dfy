/**
 * The sliding-window rate limiter: per key a list of the times of allowed calls, from whose front the
 * entries older than sixty seconds are popped before each decision.
 */
module RateLimiters {
  const WINDOW_SECONDS: real := 60.0

  type Windows = map<string, seq<real>>

  function Lookup(windows: Windows, key: string): seq<real> {
    if key in windows then windows[key] else []
  }

  /** Drops from the front while the first entry is older than `cutoff`. */
  function Pop(times: seq<real>, cutoff: real): seq<real> {
    if times != [] && times[0] < cutoff then Pop(times[1..], cutoff) else times
  }

  datatype Call = Call(key: string, limit: int, now: real)

  /** One call: the new windows and the decision. */
  function Check(windows: Windows, c: Call): (Windows, bool) {
    var kept := Pop(Lookup(windows, c.key), c.now - WINDOW_SECONDS);
    var allowed := |kept| < c.limit;
    (windows[c.key := if allowed then kept + [c.now] else kept], allowed)
  }

  class RateLimiter {
    var windows: Windows

    constructor ()
      ensures windows == map[]
    {
      windows := map[];
    }

    method CheckRateLimit(ip: string, limit: int, windowKey: string, now: real) returns (allowed: bool)
      modifies this
      ensures (windows, allowed) == Check(old(windows), Call(windowKey + ":" + ip, limit, now))
    {
      var key := windowKey + ":" + ip;
      var cutoff := now - WINDOW_SECONDS;
      var timestamps := Lookup(windows, key);
      while timestamps != [] && timestamps[0] < cutoff
        invariant Pop(timestamps, cutoff) == Pop(Lookup(windows, key), cutoff)
        decreases |timestamps|
      {
        timestamps := timestamps[1..];
      }
      if |timestamps| >= limit {
        windows := windows[key := timestamps];
        return false;
      }
      windows := windows[key := timestamps + [now]];
      return true;
    }
  }

  // ----- The history of calls -----

  function After(calls: seq<Call>): Windows {
    if calls == [] then map[] else Check(After(calls[..|calls| - 1]), calls[|calls| - 1]).0
  }

  /** What the limiter answers to the last call. */
  predicate Allows(calls: seq<Call>)
    requires calls != []
  {
    Check(After(calls[..|calls| - 1]), calls[|calls| - 1]).1
  }

  /** The specification, on the history alone: fewer than `limit` earlier allowed calls of the same key lie
      in the closed window that ends now. */
  predicate ShouldAllow(calls: seq<Call>)
    requires calls != []
    decreases |calls|, 0
  {
    var c := calls[|calls| - 1];
    AllowedWithin(calls[..|calls| - 1], c.key, c.now - 60.0, c.now) < c.limit
  }

  /** How many calls of `key` that should be allowed lie in the closed interval. */
  function AllowedWithin(calls: seq<Call>, key: string, from: real, to: real): nat
    decreases |calls|, 1
  {
    if calls == [] then 0
    else
      var c := calls[|calls| - 1];
      AllowedWithin(calls[..|calls| - 1], key, from, to)
      + (if c.key == key && from <= c.now <= to && ShouldAllow(calls) then 1 else 0)
  }

  /** How many calls of `key` that the limiter has allowed lie in the closed interval. */
  function AdmittedWithin(calls: seq<Call>, key: string, from: real, to: real): nat {
    if calls == [] then 0
    else
      var c := calls[|calls| - 1];
      AdmittedWithin(calls[..|calls| - 1], key, from, to)
      + (if c.key == key && from <= c.now <= to && Allows(calls) then 1 else 0)
  }

  /** The clock is read outside the lock; this says that the readings of the calls of one key do not
      decrease in lock order. */
  predicate InClockOrder(calls: seq<Call>, key: string) {
    forall i, j :: 0 <= i < j < |calls| && calls[i].key == key == calls[j].key ==> calls[i].now <= calls[j].now
  }

  predicate NoneAfter(calls: seq<Call>, key: string, latest: real) {
    forall i :: 0 <= i < |calls| && calls[i].key == key ==> calls[i].now <= latest
  }

  predicate Ascending(times: seq<real>) {
    forall i, j :: 0 <= i < j < |times| ==> times[i] <= times[j]
  }

  predicate SortedUpTo(times: seq<real>, latest: real) {
    Ascending(times) && forall i :: 0 <= i < |times| ==> times[i] <= latest
  }

  lemma {:induction false} PopKeepsOrder(times: seq<real>, cutoff: real, latest: real)
    requires SortedUpTo(times, latest)
    ensures SortedUpTo(Pop(times, cutoff), latest)
  {
    if times != [] && times[0] < cutoff {
      PopKeepsOrder(times[1..], cutoff, latest);
    }
  }

  lemma {:induction false} PopTwice(times: seq<real>, first: real, second: real)
    requires first <= second
    ensures Pop(Pop(times, first), second) == Pop(times, second)
  {
    if times != [] && times[0] < first {
      PopTwice(times[1..], first, second);
    }
  }

  lemma {:induction false} PopAppended(times: seq<real>, latest: real, cutoff: real)
    requires SortedUpTo(times, latest)
    ensures |Pop(times + [latest], cutoff)| == |Pop(times, cutoff)| + (if latest >= cutoff then 1 else 0)
  {
    if times != [] && times[0] < cutoff {
      assert (times + [latest])[1..] == times[1..] + [latest];
      PopAppended(times[1..], latest, cutoff);
    }
  }

  lemma {:induction false} WindowsStaySorted(calls: seq<Call>, key: string, latest: real)
    requires InClockOrder(calls, key) && NoneAfter(calls, key, latest)
    ensures SortedUpTo(Lookup(After(calls), key), latest)
  {
    if calls != [] {
      var head, c := calls[..|calls| - 1], calls[|calls| - 1];
      if c.key == key {
        WindowsStaySorted(head, key, c.now);
        PopKeepsOrder(Lookup(After(head), key), c.now - WINDOW_SECONDS, c.now);
      } else {
        WindowsStaySorted(head, key, latest);
      }
    }
  }

  /** The list of a key holds exactly the calls that still matter: popping it up to any later cutoff leaves
      as many entries as the history has allowed calls from there on. */
  lemma {:induction false} ListMatchesHistory(calls: seq<Call>, key: string, from: real, to: real)
    requires InClockOrder(calls, key) && NoneAfter(calls, key, to) && NoneAfter(calls, key, from + WINDOW_SECONDS)
    ensures AllowedWithin(calls, key, from, to) == |Pop(Lookup(After(calls), key), from)|
    decreases |calls|
  {
    if calls != [] {
      var head, c := calls[..|calls| - 1], calls[|calls| - 1];
      ListMatchesHistory(head, key, from, to);
      if c.key == key {
        ListMatchesHistory(head, key, c.now - WINDOW_SECONDS, c.now);
        WindowsStaySorted(head, key, c.now);
        var times := Lookup(After(head), key);
        var kept := Pop(times, c.now - WINDOW_SECONDS);
        PopTwice(times, c.now - WINDOW_SECONDS, from);
        PopKeepsOrder(times, c.now - WINDOW_SECONDS, c.now);
        PopAppended(kept, c.now, from);
      }
    }
  }

  /** With clock readings that do not decrease, the popping limiter decides every call as the history
      demands. */
  lemma {:induction false} LimiterFollowsHistory(calls: seq<Call>)
    requires calls != [] && InClockOrder(calls, calls[|calls| - 1].key)
    ensures Allows(calls) == ShouldAllow(calls)
  {
    var head, c := calls[..|calls| - 1], calls[|calls| - 1];
    ListMatchesHistory(head, c.key, c.now - WINDOW_SECONDS, c.now);
  }

  lemma {:induction false} AdmittedAsHistoryDemands(calls: seq<Call>, key: string, from: real, to: real)
    requires InClockOrder(calls, key)
    ensures AdmittedWithin(calls, key, from, to) == AllowedWithin(calls, key, from, to)
  {
    if calls != [] {
      AdmittedAsHistoryDemands(calls[..|calls| - 1], key, from, to);
      if calls[|calls| - 1].key == key {
        LimiterFollowsHistory(calls);
      }
    }
  }

  lemma {:induction false} EarlierCallsFitTheWindow(calls: seq<Call>, key: string, from: real, now: real)
    requires NoneAfter(calls, key, now) && now <= from + WINDOW_SECONDS
    ensures AllowedWithin(calls, key, from, from + WINDOW_SECONDS)
            <= AllowedWithin(calls, key, now - WINDOW_SECONDS, now)
    decreases |calls|
  {
    if calls != [] {
      EarlierCallsFitTheWindow(calls[..|calls| - 1], key, from, now);
    }
  }

  predicate Constant(calls: seq<Call>, key: string, limit: nat) {
    forall i :: 0 <= i < |calls| && calls[i].key == key ==> calls[i].limit == limit
  }

  predicate Carry(calls: seq<Call>, key: string, limit: nat) {
    forall i :: 0 <= i < |calls| && calls[i].key == key ==> calls[i].limit <= limit
  }

  lemma {:induction false} HistoryHoldsAtMostLimit(calls: seq<Call>, key: string, limit: nat, from: real)
    requires InClockOrder(calls, key) && Carry(calls, key, limit)
    ensures AllowedWithin(calls, key, from, from + WINDOW_SECONDS) <= limit
  {
    if calls != [] {
      var head, c := calls[..|calls| - 1], calls[|calls| - 1];
      HistoryHoldsAtMostLimit(head, key, limit, from);
      if c.key == key && from <= c.now <= from + WINDOW_SECONDS && ShouldAllow(calls) {
        EarlierCallsFitTheWindow(head, key, from, c.now);
      }
    }
  }

  /** Hence in every closed window of sixty seconds, wherever it starts, the limiter has allowed at most
      `limit` calls of a key whose calls all carry at most that limit. */
  lemma EveryWindowHoldsAtMostLimit(calls: seq<Call>, key: string, limit: nat, from: real)
    requires InClockOrder(calls, key) && Carry(calls, key, limit)
    ensures AdmittedWithin(calls, key, from, from + 60.0) <= limit
  {
    AdmittedAsHistoryDemands(calls, key, from, from + WINDOW_SECONDS);
    HistoryHoldsAtMostLimit(calls, key, limit, from);
  }

  // ----- Stale calls -----

  lemma LastCall(calls: seq<Call>, c: Call)
    ensures After(calls + [c]) == Check(After(calls), c).0
    ensures Allows(calls + [c]) == Check(After(calls), c).1
  {
    assert (calls + [c])[..|calls + [c]| - 1] == calls;
  }

  /** The latest of `now` and the readings of `key` so far. */
  function Latest(calls: seq<Call>, key: string, now: real): real {
    if calls == [] then now
    else
      var before, c := Latest(calls[..|calls| - 1], key, now), calls[|calls| - 1];
      if c.key == key && c.now > before then c.now else before
  }

  lemma {:induction false} LatestIsReached(calls: seq<Call>, key: string, now: real)
    ensures Latest(calls, key, now) == now ||
            exists i :: 0 <= i < |calls| && calls[i].key == key && calls[i].now == Latest(calls, key, now)
  {
    if calls != [] {
      LatestIsReached(calls[..|calls| - 1], key, now);
    }
  }

  lemma {:induction false} LatestIsLatest(calls: seq<Call>, key: string, now: real)
    ensures now <= Latest(calls, key, now) && NoneAfter(calls, key, Latest(calls, key, now))
    ensures InClockOrder(calls, key) && calls != [] && calls[|calls| - 1].key == key ==>
              Latest(calls, key, now) == (if calls[|calls| - 1].now > now then calls[|calls| - 1].now else now)
  {
    if calls != [] {
      var head, c := calls[..|calls| - 1], calls[|calls| - 1];
      LatestIsLatest(head, key, now);
      LatestIsReached(head, key, now);
    }
  }

  predicate Popped(times: seq<real>, cutoff: real) {
    times != [] ==> times[0] >= cutoff
  }

  lemma {:induction false} PopIsPopped(times: seq<real>, cutoff: real)
    ensures Popped(Pop(times, cutoff), cutoff)
  {
    if times != [] && times[0] < cutoff {
      PopIsPopped(times[1..], cutoff);
    }
  }

  /** While the readings are in order, the list has been popped at least to the window of the latest. */
  lemma {:induction false} ListIsPopped(calls: seq<Call>, key: string, now: real)
    requires InClockOrder(calls, key) && now < Latest(calls, key, now)
    ensures Popped(Lookup(After(calls), key), Latest(calls, key, now) - WINDOW_SECONDS)
  {
    var head, c := calls[..|calls| - 1], calls[|calls| - 1];
    LatestIsLatest(calls, key, now);
    if c.key == key {
      PopIsPopped(Lookup(After(head), key), c.now - WINDOW_SECONDS);
    } else {
      ListIsPopped(head, key, now);
    }
  }

  /** After readings in order any call, stale or not, is decided by the window that ends at the latest
      reading: what a stale call would not see is not hidden from it, and what has been popped is gone. */
  lemma EveryCallSeesTheLatestWindow(calls: seq<Call>, c: Call)
    requires InClockOrder(calls, c.key)
    ensures var at := Latest(calls, c.key, c.now);
            Allows(calls + [c]) <==> AllowedWithin(calls, c.key, at - WINDOW_SECONDS, at) < c.limit
  {
    var at, times := Latest(calls, c.key, c.now), Lookup(After(calls), c.key);
    LastCall(calls, c);
    LatestIsLatest(calls, c.key, c.now);
    ListMatchesHistory(calls, c.key, at - WINDOW_SECONDS, at);
    if c.now < at {
      ListIsPopped(calls, c.key, c.now);
      assert Pop(times, c.now - WINDOW_SECONDS) == times;
    }
  }

  /** So such a call is decided as the history demands exactly when the window that ends at the latest reading
      and the one that ends at its own have the limit on the same side. */
  lemma FollowsHistoryExactlyWhen(calls: seq<Call>, c: Call)
    requires InClockOrder(calls, c.key)
    ensures var at := Latest(calls, c.key, c.now);
            (Allows(calls + [c]) <==> ShouldAllow(calls + [c])) <==>
            (AllowedWithin(calls, c.key, at - WINDOW_SECONDS, at) < c.limit <==>
             AllowedWithin(calls, c.key, c.now - WINDOW_SECONDS, c.now) < c.limit)
  {
    EveryCallSeesTheLatestWindow(calls, c);
    assert (calls + [c])[..|calls + [c]| - 1] == calls;
  }

  // ----- Which lists can be trusted -----

  /** How many entries are not older than `cutoff`. */
  function Since(times: seq<real>, cutoff: real): nat {
    if times == [] then 0 else (if times[0] >= cutoff then 1 else 0) + Since(times[1..], cutoff)
  }

  /** Whatever call comes next, popping leaves just the entries that are not older than its cutoff. Entries
      later than the call itself, if it is stale, are among them. */
  ghost predicate Exact(times: seq<real>) {
    forall cutoff :: |Pop(times, cutoff)| == Since(times, cutoff)
  }

  lemma {:induction false} SinceIsBounded(times: seq<real>, cutoff: real)
    ensures Since(times, cutoff) <= |Pop(times, cutoff)| <= |times|
    ensures Since(times, cutoff) == |times| <==> forall i :: 0 <= i < |times| ==> times[i] >= cutoff
  {
    if times != [] {
      SinceIsBounded(times[1..], cutoff);
      assert forall i :: 0 <= i < |times[1..]| ==> times[1..][i] == times[i + 1];
    }
  }

  lemma {:induction false} AscendingIsExact(times: seq<real>, cutoff: real)
    requires Ascending(times)
    ensures |Pop(times, cutoff)| == Since(times, cutoff)
  {
    if times != [] {
      AscendingIsExact(times[1..], cutoff);
      if times[0] >= cutoff {
        SinceIsBounded(times, cutoff);
      }
    }
  }

  lemma {:induction false} ExactIsAscending(times: seq<real>)
    requires Exact(times)
    ensures Ascending(times)
  {
    if times != [] {
      var rest := times[1..];
      SinceIsBounded(times, times[0]);
      assert |Pop(times, times[0])| == Since(times, times[0]);
      forall cutoff ensures |Pop(rest, cutoff)| == Since(rest, cutoff) {
        SinceIsBounded(rest, cutoff);
        assert |Pop(times, cutoff)| == Since(times, cutoff);
      }
      ExactIsAscending(rest);
      assert forall i :: 1 <= i < |times| ==> times[i] == rest[i - 1];
    }
  }

  /** Popping leaves no older entry, whatever the cutoff, exactly when the list is ascending. */
  lemma ExactExactlyWhenAscending(times: seq<real>)
    ensures Exact(times) <==> Ascending(times)
  {
    if Ascending(times) {
      forall cutoff ensures |Pop(times, cutoff)| == Since(times, cutoff) {
        AscendingIsExact(times, cutoff);
      }
    } else if Exact(times) {
      ExactIsAscending(times);
    }
  }

  /** So an allowed call leaves a trustworthy list exactly when its reading is not older than the last entry. */
  lemma AppendKeepsExactExactlyWhen(times: seq<real>, now: real)
    requires Exact(times)
    ensures Exact(times + [now]) <==> times == [] || times[|times| - 1] <= now
  {
    ExactExactlyWhenAscending(times);
    ExactExactlyWhenAscending(times + [now]);
    if times != [] {
      assert (times + [now])[|times| - 1] == times[|times| - 1] && (times + [now])[|times|] == now;
    }
  }

  /** A call at `now` is refused although the entries in its window are fewer than its limit. */
  predicate RefusesTooEarly(times: seq<real>, now: real, limit: nat) {
    Since(times, now - WINDOW_SECONDS) < limit <= |Pop(times, now - WINDOW_SECONDS)|
  }

  /** With a list that is not ascending, some later call is refused too early. */
  lemma DisorderRefusesSomeCall(times: seq<real>)
    requires !Ascending(times)
    ensures exists now, limit :: RefusesTooEarly(times, now, limit)
  {
    ExactExactlyWhenAscending(times);
    var cutoff :| |Pop(times, cutoff)| != Since(times, cutoff);
    SinceIsBounded(times, cutoff);
    var now := cutoff + WINDOW_SECONDS;
    assert now - WINDOW_SECONDS == cutoff;
    assert RefusesTooEarly(times, now, |Pop(times, cutoff)|);
  }

  // ----- What a stale reading does -----

  lemma CountLast(calls: seq<Call>, c: Call, from: real, to: real)
    ensures AdmittedWithin(calls + [c], c.key, from, to)
            == AdmittedWithin(calls, c.key, from, to)
               + (if from <= c.now <= to && Check(After(calls), c).1 then 1 else 0)
  {
    LastCall(calls, c);
    assert (calls + [c])[..|calls + [c]| - 1] == calls;
  }

  /** A reading `early` that is older than its predecessor `late`, by however little, makes the limiter refuse
      a later call that the history allows: behind `late` the older entry is not popped. */
  lemma StaleReadingBreaksTheWindow(early: real, late: real, now: real)
    requires early < now - WINDOW_SECONDS <= late
    ensures var calls := [Call("k", 2, late), Call("k", 2, early), Call("k", 2, now)];
            !Allows(calls) && ShouldAllow(calls)
  {
    var c1, c2, c3 := Call("k", 2, late), Call("k", 2, early), Call("k", 2, now);
    assert [] + [c1] == [c1] && [c1] + [c2] == [c1, c2] && [c1, c2] + [c3] == [c1, c2, c3];
    LastCall([], c1);
    LastCall([c1], c2);
    LastCall([c1, c2], c3);
    assert Lookup(After([c1]), "k") == [] + [late] == [late];
    assert Lookup(After([c1, c2]), "k") == [late] + [early] == [late, early];
    assert [c1, c2, c3][..|[c1, c2, c3]| - 1] == [c1, c2];
    assert [c1, c2][..1] == [c1] && [c1][..0] == [];
    assert AllowedWithin([c1], "k", now - WINDOW_SECONDS, now) <= 1;
    assert AllowedWithin([c1, c2], "k", now - WINDOW_SECONDS, now) <= 1;
  }

  /** `n` calls at time zero. */
  function Burst(n: nat, limit: nat): seq<Call> {
    if n == 0 then [] else Burst(n - 1, limit) + [Call("k", limit, 0.0)]
  }

  function Zeros(n: nat): seq<real> {
    if n == 0 then [] else Zeros(n - 1) + [0.0]
  }

  lemma {:induction false} ZerosPop(n: nat, cutoff: real)
    ensures |Zeros(n)| == n && forall i :: 0 <= i < n ==> Zeros(n)[i] == 0.0
    ensures Pop(Zeros(n), cutoff) == if 0.0 < cutoff then [] else Zeros(n)
  {
    if n > 0 {
      ZerosPop(n - 1, cutoff);
      if 0.0 < cutoff {
        assert Zeros(n)[1..] == Zeros(n - 1);
      }
    }
  }

  lemma BurstCallIsAllowed(windows: Windows, n: nat, limit: nat)
    requires Lookup(windows, "k") == Zeros(n) && n < limit
    ensures var (after, allowed) := Check(windows, Call("k", limit, 0.0));
            allowed && Lookup(after, "k") == Zeros(n + 1)
  {
    ZerosPop(n, 0.0 - WINDOW_SECONDS);
  }

  lemma {:induction false} BurstIsConstant(n: nat, limit: nat)
    ensures Constant(Burst(n, limit), "k", limit)
  {
    if n > 0 {
      BurstIsConstant(n - 1, limit);
    }
  }

  lemma {:induction false} BurstIsAdmitted(n: nat, limit: nat)
    requires n <= limit
    ensures Lookup(After(Burst(n, limit)), "k") == Zeros(n)
    ensures AdmittedWithin(Burst(n, limit), "k", 0.0, WINDOW_SECONDS) == n
  {
    if n > 0 {
      var head, c := Burst(n - 1, limit), Call("k", limit, 0.0);
      BurstIsAdmitted(n - 1, limit);
      BurstCallIsAllowed(After(head), n - 1, limit);
      LastCall(head, c);
      CountLast(head, c, 0.0, WINDOW_SECONDS);
      assert Burst(n, limit) == head + [c];
    } else {
      assert Burst(n, limit) == [] && After([]) == map[];
    }
  }

  lemma EmptiedListAllowsAStaleCall(windows: Windows, limit: nat, early: real, late: real)
    requires limit >= 2 && 0.0 <= early <= WINDOW_SECONDS < late && Lookup(windows, "k") == Zeros(limit)
    ensures var (after, allowed) := Check(windows, Call("k", limit, late));
            allowed && Check(after, Call("k", limit, early)).1
  {
    ZerosPop(limit, late - WINDOW_SECONDS);
    var after := Check(windows, Call("k", limit, late)).0;
    assert Lookup(after, "k") == [] + [late] == [late];
  }

  /** Worse, it lets too many calls through: after a full burst at time zero, a reading just beyond the
      window empties the list, and a stale one just within the window is then allowed as well. */
  lemma StaleReadingAdmitsTooMany(limit: nat, early: real, late: real)
    requires limit >= 2 && 0.0 <= early <= WINDOW_SECONDS < late
    ensures var calls := Burst(limit, limit) + [Call("k", limit, late)] + [Call("k", limit, early)];
            Constant(calls, "k", limit) && AdmittedWithin(calls, "k", 0.0, WINDOW_SECONDS) == limit + 1
  {
    var burst, c1, c2 := Burst(limit, limit), Call("k", limit, late), Call("k", limit, early);
    BurstIsConstant(limit, limit);
    BurstIsAdmitted(limit, limit);
    EmptiedListAllowsAStaleCall(After(burst), limit, early, late);
    LastCall(burst, c1);
    CountLast(burst, c1, 0.0, WINDOW_SECONDS);
    CountLast(burst + [c1], c2, 0.0, WINDOW_SECONDS);
  }

  lemma {:induction false} LimitZeroAdmitsNothing(calls: seq<Call>, key: string, from: real, to: real)
    requires Constant(calls, key, 0)
    ensures AdmittedWithin(calls, key, from, to) == 0
  {
    if calls != [] {
      LimitZeroAdmitsNothing(calls[..|calls| - 1], key, from, to);
    }
  }

  lemma PopSingle(times: seq<real>, cutoff: real)
    requires |times| <= 1
    ensures Pop(times, cutoff) == if times != [] && times[0] < cutoff then [] else times
  {
    if times != [] && times[0] < cutoff {
      assert Pop(times, cutoff) == Pop(times[1..], cutoff) && times[1..] == [];
    }
  }

  /** With limit one the list holds the last admitted call only, and the next one is admitted more than a
      window later, whatever the clock does. */
  lemma {:induction false} LimitOneAdmitsOneByOne(calls: seq<Call>, key: string, from: real, to: real)
    requires Constant(calls, key, 1) && to <= from + WINDOW_SECONDS
    ensures var times := Lookup(After(calls), key);
            && |times| <= 1
            && (times == [] || times[0] < from ==> AdmittedWithin(calls, key, from, to) == 0)
            && AdmittedWithin(calls, key, from, to) <= 1
  {
    if calls != [] {
      var head, c := calls[..|calls| - 1], calls[|calls| - 1];
      LimitOneAdmitsOneByOne(head, key, from, to);
      if c.key == key {
        var times := Lookup(After(head), key);
        var kept := Pop(times, c.now - WINDOW_SECONDS);
        PopSingle(times, c.now - WINDOW_SECONDS);
        assert calls[|calls| - 1].limit == 1 && [] + [c.now] == [c.now];
        assert Lookup(After(calls), key) == if kept == [] then [c.now] else times;
      }
    }
  }

  ghost predicate WindowHolds(calls: seq<Call>, key: string, limit: nat, from: real) {
    AdmittedWithin(calls, key, from, from + WINDOW_SECONDS) <= limit
  }

  /** For a key with a fixed limit, the bound on every window does not depend on the clock exactly when the
      limit is at most one: the default limits of ten and a hundred do need readings in order. */
  lemma BoundHoldsUnderAnyClockExactlyWhen(limit: nat)
    ensures (forall calls, key, from :: Constant(calls, key, limit) ==> WindowHolds(calls, key, limit, from))
            <==> limit <= 1
  {
    if limit <= 1 {
      forall calls, key, from | Constant(calls, key, limit) ensures WindowHolds(calls, key, limit, from) {
        if limit == 0 {
          LimitZeroAdmitsNothing(calls, key, from, from + WINDOW_SECONDS);
        } else {
          LimitOneAdmitsOneByOne(calls, key, from, from + WINDOW_SECONDS);
        }
      }
    } else {
      StaleReadingAdmitsTooMany(limit, WINDOW_SECONDS, WINDOW_SECONDS + 1.0);
      var calls := Burst(limit, limit) + [Call("k", limit, WINDOW_SECONDS + 1.0)] + [Call("k", limit, WINDOW_SECONDS)];
      assert !WindowHolds(calls, "k", limit, 0.0);
    }
  }
}
