/**
 The token bucket (scheduler/rate_limiter.py) over real numbers. Every call reads the clock; the reading
 is a parameter here.
 */
module RateLimiter {
  import opened Reals

  /** What is fixed for a bucket's lifetime. */
  datatype Limits = Limits(rate: real, capacity: real)

  datatype Bucket = Bucket(tokens: real, lastRefill: real)

  /** Tokens added over an elapsed time. */
  function Supply(l: Limits, elapsed: real): real {
    elapsed * l.rate
  }

  function Refill(l: Limits, b: Bucket, now: real): Bucket {
    Bucket(Min(l.capacity, b.tokens + Supply(l, now - b.lastRefill)), now)
  }

  predicate Allows(l: Limits, b: Bucket, cost: real, now: real) {
    Refill(l, b, now).tokens >= cost
  }

  function Acquire(l: Limits, b: Bucket, cost: real, now: real): Bucket {
    var r := Refill(l, b, now);
    if r.tokens >= cost then r.(tokens := r.tokens - cost) else r
  }

  /** A call at some time: acquire of a cost, or stats(), which only refills. */
  datatype Call = TryAcquire(cost: real, at: real) | Stats(at: real)

  /** A full bucket, refilled at creation. */
  function Created(l: Limits, at: real): Bucket {
    Bucket(l.capacity, at)
  }

  function After(l: Limits, start: real, calls: seq<Call>): Bucket {
    if calls == [] then Created(l, start)
    else
      var b := After(l, start, calls[..|calls| - 1]);
      match calls[|calls| - 1]
      case TryAcquire(cost, at) => Acquire(l, b, cost, at)
      case Stats(at) => Refill(l, b, at)
  }

  /** Whether call i, an acquire, is let through. */
  predicate Admitted(l: Limits, start: real, calls: seq<Call>, i: nat)
    requires i < |calls|
  {
    calls[i].TryAcquire? && Allows(l, After(l, start, calls[..i]), calls[i].cost, calls[i].at)
  }

  // ----- The sliding-window law -----

  /** Cost admitted by calls i, i + 1, ..., j - 1. */
  function Spent(l: Limits, start: real, calls: seq<Call>, i: nat, j: nat): real
    requires i <= j <= |calls|
  {
    if i == j then 0.0
    else Spent(l, start, calls, i, j - 1) + if Admitted(l, start, calls, j - 1) then calls[j - 1].cost else 0.0
  }

  /** The time of call i; time 0 of the count is the creation. */
  function TimeOf(start: real, calls: seq<Call>, i: nat): real
    requires i <= |calls|
  {
    if i == 0 then start else calls[i - 1].at
  }

  /** First call counted from operation i: the creation opens with call 0, call i - 1 with itself. */
  function From(i: nat): nat {
    if i == 0 then 0 else i - 1
  }

  /** What the window from operation i (0 the creation, i the call i - 1) leaves at time now. */
  function Room(l: Limits, start: real, calls: seq<Call>, i: nat, now: real): real
    requires i <= |calls|
  {
    l.capacity + Supply(l, now - TimeOf(start, calls, i)) - Spent(l, start, calls, From(i), |calls|)
  }

  lemma {:induction false} PrefixSpent(l: Limits, start: real, calls: seq<Call>, n: nat, i: nat, j: nat)
    requires i <= j <= n <= |calls|
    ensures Spent(l, start, calls[..n], i, j) == Spent(l, start, calls, i, j)
  {
    if i < j {
      PrefixSpent(l, start, calls, n, i, j - 1);
      assert calls[..n][..j - 1] == calls[..j - 1];
    }
  }

  lemma SupplyAdds(l: Limits, t: real, u: real, v: real)
    ensures Supply(l, v - t) == Supply(l, u - t) + Supply(l, v - u)
    ensures Supply(l, t - t) == 0.0
  {}

  /** What a call does to the room of an earlier window: the refill widens it, an admitted cost narrows it. */
  lemma RoomAfterCall(l: Limits, start: real, calls: seq<Call>, i: nat)
    requires i < |calls|
    ensures var n := |calls| - 1;
            var u, v := TimeOf(start, calls, n), TimeOf(start, calls, n + 1);
            Room(l, start, calls, i, v)
            == Room(l, start, calls[..n], i, u) + Supply(l, v - u) - if Admitted(l, start, calls, n) then calls[n].cost
                else 0.0
  {
    hide Supply;
    var n := |calls| - 1;
    PrefixSpent(l, start, calls, n, From(i), n);
    assert TimeOf(start, calls[..n], i) == TimeOf(start, calls, i);
    SupplyAdds(l, TimeOf(start, calls, i), TimeOf(start, calls, n), TimeOf(start, calls, n + 1));
  }

  /** The window that opens with the last call itself. */
  lemma RoomOfLast(l: Limits, start: real, calls: seq<Call>)
    requires calls != []
    ensures var n := |calls|;
            Room(l, start, calls, n, TimeOf(start, calls, n))
            == l.capacity - if Admitted(l, start, calls, n - 1) then calls[n - 1].cost else 0.0
  {
    hide Supply;
    var n := |calls|;
    assert Spent(l, start, calls, n - 1, n - 1) == 0.0;
    SupplyAdds(l, TimeOf(start, calls, n), 0.0, 0.0);
  }

  lemma LevelAfterCall(l: Limits, start: real, calls: seq<Call>)
    requires calls != []
    ensures var n := |calls| - 1;
            var a, b := After(l, start, calls[..n]), After(l, start, calls);
            && b.lastRefill == TimeOf(start, calls, n + 1)
            && b.tokens == Min(l.capacity, a.tokens + Supply(l, b.lastRefill - a.lastRefill))
                           - if Admitted(l, start, calls, n) then calls[n].cost else 0.0
  {
    hide Supply;
  }

  lemma SupplyIs(l: Limits, elapsed: real)
    ensures Supply(l, elapsed) == l.rate * elapsed
  {}

  lemma RoomIs(l: Limits, start: real, calls: seq<Call>, i: nat, now: real)
    requires i <= |calls|
    ensures Room(l, start, calls, i, now)
            == l.capacity + l.rate * (now - TimeOf(start, calls, i)) - Spent(l, start, calls, From(i), |calls|)
  {
    SupplyIs(l, now - TimeOf(start, calls, i));
    hide Supply, Spent, TimeOf;
  }

  /**
   The level of the bucket is the least that any window leaves of capacity + rate * elapsed: every window bounds it
   and window k attains it.
   */
  lemma {:induction false} LevelIsLeastRoom(l: Limits, start: real, calls: seq<Call>) returns (k: nat)
    ensures var b := After(l, start, calls);
            && b.lastRefill == TimeOf(start, calls, |calls|)
            && (forall i: nat | i <= |calls| ::
                  b.tokens <= l.capacity + l.rate * (b.lastRefill - TimeOf(start, calls, i))
                              - Spent(l, start, calls, From(i), |calls|))
            && k <= |calls|
            && b.tokens == l.capacity + l.rate * (b.lastRefill - TimeOf(start, calls, k))
                           - Spent(l, start, calls, From(k), |calls|)
  {
    hide After, Supply, Spent, TimeOf, Room;
    k := LeastRoom(l, start, calls);
    var b := After(l, start, calls);
    forall i: nat | i <= |calls|
      ensures b.tokens <= l.capacity + l.rate * (b.lastRefill - TimeOf(start, calls, i))
                          - Spent(l, start, calls, From(i), |calls|)
    {
      RoomIs(l, start, calls, i, b.lastRefill);
    }
    RoomIs(l, start, calls, k, b.lastRefill);
  }

  lemma {:induction false} LeastRoom(l: Limits, start: real, calls: seq<Call>) returns (k: nat)
    ensures var b := After(l, start, calls);
            && b.lastRefill == TimeOf(start, calls, |calls|)
            && (forall i: nat | i <= |calls| :: b.tokens <= Room(l, start, calls, i, b.lastRefill))
            && k <= |calls| && b.tokens == Room(l, start, calls, k, b.lastRefill)
  {
    hide Supply;
    if calls == [] {
      SupplyAdds(l, start, 0.0, 0.0);
      return 0;
    }
    var n := |calls| - 1;
    var a, b := After(l, start, calls[..n]), After(l, start, calls);
    k := LeastRoom(l, start, calls[..n]);
    LevelAfterCall(l, start, calls);
    RoomOfLast(l, start, calls);
    assert a.lastRefill == TimeOf(start, calls, n);
    forall i: nat | i <= n + 1 ensures b.tokens <= Room(l, start, calls, i, b.lastRefill) {
      if i <= n { RoomAfterCall(l, start, calls, i); }
    }
    RoomAfterCall(l, start, calls, k);
    if l.capacity <= a.tokens + Supply(l, b.lastRefill - a.lastRefill) { k := n + 1; }
  }

  /** The window from operation i has room for the cost. */
  ghost predicate Fits(l: Limits, start: real, calls: seq<Call>, i: nat, cost: real, now: real)
    requires i <= |calls|
  {
    Spent(l, start, calls, From(i), |calls|) + cost <= l.capacity + Supply(l, now - TimeOf(start, calls, i))
  }

  lemma FitsIs(l: Limits, start: real, calls: seq<Call>, i: nat, cost: real, now: real)
    requires i <= |calls|
    ensures Fits(l, start, calls, i, cost, now)
            <==> Spent(l, start, calls, From(i), |calls|) + cost
                 <= l.capacity + l.rate * (now - TimeOf(start, calls, i))
  {
    SupplyIs(l, now - TimeOf(start, calls, i));
    hide Supply, Spent, TimeOf;
  }

  lemma {:induction false} AllWindowsFit(l: Limits, start: real, calls: seq<Call>, cost: real, now: real)
    ensures Allows(l, After(l, start, calls), cost, now)
            <==> cost <= l.capacity && forall i: nat | i <= |calls| :: Fits(l, start, calls, i, cost, now)
  {
    hide Supply;
    var b := After(l, start, calls);
    var k := LeastRoom(l, start, calls);
    var gained := Supply(l, now - b.lastRefill);
    forall i: nat | i <= |calls|
      ensures Fits(l, start, calls, i, cost, now) <==> cost <= Room(l, start, calls, i, b.lastRefill) + gained
    {
      SupplyAdds(l, TimeOf(start, calls, i), b.lastRefill, now);
    }
    assert Fits(l, start, calls, k, cost, now) <==> cost <= b.tokens + gained;
  }

  /**
   An acquire at time `now` is let through if and only if, for every earlier operation (the creation
   included) and for `now` itself, what was admitted from there on plus this cost is at most
   capacity + rate * elapsed. Nothing else is ever refused.
   */
  lemma {:induction false} SlidingWindow(l: Limits, start: real, calls: seq<Call>, cost: real, now: real)
    ensures Allows(l, After(l, start, calls), cost, now)
            <==> && cost <= l.capacity
                 && forall i: nat | i <= |calls| ::
                      Spent(l, start, calls, From(i), |calls|) + cost
                      <= l.capacity + l.rate * (now - TimeOf(start, calls, i))
  {
    hide After, Allows, Supply, Spent, TimeOf, Fits;
    AllWindowsFit(l, start, calls, cost, now);
    forall i: nat | i <= |calls|
      ensures Fits(l, start, calls, i, cost, now)
              <==> Spent(l, start, calls, From(i), |calls|) + cost
                   <= l.capacity + l.rate * (now - TimeOf(start, calls, i))
    {
      FitsIs(l, start, calls, i, cost, now);
    }
  }

  /** No stretch of calls is ever granted more than one burst plus what the rate supplies meanwhile. */
  lemma {:induction false} BurstBound(l: Limits, start: real, calls: seq<Call>, i: nat, j: nat)
    requires i < j <= |calls| && Admitted(l, start, calls, j - 1)
    ensures Spent(l, start, calls, i, j) <= l.capacity + l.rate * (calls[j - 1].at - calls[i].at)
  {
    hide Admitted, Spent, Supply;
    SupplyIs(l, calls[j - 1].at - calls[i].at);
    BurstFits(l, start, calls, i, j);
  }

  lemma BurstFits(l: Limits, start: real, calls: seq<Call>, i: nat, j: nat)
    requires i < j <= |calls| && Admitted(l, start, calls, j - 1)
    ensures Spent(l, start, calls, i, j) <= l.capacity + Supply(l, calls[j - 1].at - calls[i].at)
  {
    hide Supply;
    var front := calls[..j - 1];
    AllWindowsFit(l, start, front, calls[j - 1].cost, calls[j - 1].at);
    PrefixSpent(l, start, calls, j - 1, i, j - 1);
    if i < j - 1 {
      assert Fits(l, start, front, i + 1, calls[j - 1].cost, calls[j - 1].at);
    } else {
      SupplyAdds(l, calls[i].at, 0.0, 0.0);
    }
  }

  // ----- Looking does not matter -----

  ghost predicate Ordered(start: real, calls: seq<Call>) {
    forall i, j | 0 <= i <= j <= |calls| :: TimeOf(start, calls, i) <= TimeOf(start, calls, j)
  }

  function WithoutStats(calls: seq<Call>): seq<Call> {
    if calls == [] then []
    else WithoutStats(calls[..|calls| - 1]) + if calls[|calls| - 1].Stats? then [] else [calls[|calls| - 1]]
  }

  /** Two buckets no later call can tell apart. */
  ghost predicate SameFrom(l: Limits, a: Bucket, b: Bucket, now: real) {
    forall t | t >= now :: Refill(l, a, t) == Refill(l, b, t)
  }

  lemma SupplyNonNegative(l: Limits, elapsed: real)
    requires l.rate >= 0.0 && elapsed >= 0.0
    ensures Supply(l, elapsed) >= 0.0
  {}

  lemma RefillTwice(l: Limits, b: Bucket, t: real, u: real)
    requires l.rate >= 0.0 && t <= u
    ensures Refill(l, Refill(l, b, t), u) == Refill(l, b, u)
  {
    SupplyNonNegative(l, u - t);
    SupplyAdds(l, b.lastRefill, t, u);
    hide Supply;
  }

  lemma {:induction false} StatsInvisible(l: Limits, start: real, calls: seq<Call>)
    requires l.rate >= 0.0 && Ordered(start, calls)
    ensures SameFrom(l, After(l, start, calls), After(l, start, WithoutStats(calls)), TimeOf(start, calls, |calls|))
  {
    if calls != [] {
      var n := |calls| - 1;
      var front, call := calls[..n], calls[n];
      assert forall i | 0 <= i <= n :: TimeOf(start, front, i) == TimeOf(start, calls, i);
      StatsInvisible(l, start, front);
      var a, b := After(l, start, front), After(l, start, WithoutStats(front));
      assert TimeOf(start, calls, n) <= TimeOf(start, calls, n + 1) == call.at;
      assert Refill(l, a, call.at) == Refill(l, b, call.at);
      if call.Stats? {
        forall t | t >= call.at ensures Refill(l, After(l, start, calls), t) == Refill(l, b, t) {
          RefillTwice(l, a, call.at, t);
        }
        assert WithoutStats(calls) == WithoutStats(front);
      } else {
        assert WithoutStats(calls)[..|WithoutStats(front)|] == WithoutStats(front);
      }
    }
  }

  /** Interleaved stats() calls never change a decision. */
  lemma {:induction false} StatsNeverDecide(l: Limits, start: real, calls: seq<Call>, cost: real, now: real)
    requires l.rate >= 0.0 && Ordered(start, calls) && TimeOf(start, calls, |calls|) <= now
    ensures Allows(l, After(l, start, calls), cost, now) == Allows(l, After(l, start, WithoutStats(calls)), cost, now)
  {
    StatsInvisible(l, start, calls);
  }

  // ----- Greedy is optimal for unit cost -----

  /** A policy's bucket: refill, and take one token where it says so. */
  function PolicyAfter(l: Limits, start: real, times: seq<real>, grants: seq<bool>): Bucket
    requires |grants| == |times|
  {
    if times == [] then Created(l, start)
    else
      var n := |times| - 1;
      var b := Refill(l, PolicyAfter(l, start, times[..n], grants[..n]), times[n]);
      if grants[n] then b.(tokens := b.tokens - 1.0) else b
  }

  /** A policy that never grants what its bucket does not hold. */
  ghost predicate NeverOverdraws(l: Limits, start: real, times: seq<real>, grants: seq<bool>)
    requires |grants| == |times|
  {
    forall i | 0 <= i < |times| && grants[i] ::
      Refill(l, PolicyAfter(l, start, times[..i], grants[..i]), times[i]).tokens >= 1.0
  }

  function Granted(grants: seq<bool>): nat {
    if grants == [] then 0 else Granted(grants[..|grants| - 1]) + if grants[|grants| - 1] then 1 else 0
  }

  /** The bucket's own decisions on unit requests at these times. */
  function Greedy(l: Limits, start: real, times: seq<real>): (grants: seq<bool>)
    ensures |grants| == |times|
  {
    if times == [] then []
    else
      var front := times[..|times| - 1];
      var grants := Greedy(l, start, front);
      grants + [Allows(l, PolicyAfter(l, start, front, grants), 1.0, times[|times| - 1])]
  }

  /** One more unit request. */
  lemma GreedySnoc(l: Limits, start: real, times: seq<real>, now: real)
    ensures var g := Greedy(l, start, times);
            var b := PolicyAfter(l, start, times, g);
            var allowed := Allows(l, b, 1.0, now);
            && Greedy(l, start, times + [now]) == g + [allowed]
            && PolicyAfter(l, start, times + [now], g + [allowed]) == Acquire(l, b, 1.0, now)
            && Granted(g + [allowed]) == Granted(g) + if allowed then 1 else 0
  {
    var g := Greedy(l, start, times);
    var allowed := Allows(l, PolicyAfter(l, start, times, g), 1.0, now);
    assert (times + [now])[..|times|] == times && (g + [allowed])[..|times|] == g;
    hide Supply;
  }

  function UnitCalls(times: seq<real>): (calls: seq<Call>)
    ensures |calls| == |times|
  {
    seq(|times|, i requires 0 <= i < |times| => TryAcquire(1.0, times[i]))
  }

  /** One more acquire: what the earlier calls did is unchanged. */
  lemma CallSnoc(l: Limits, start: real, calls: seq<Call>, cost: real, now: real)
    ensures var b, more := After(l, start, calls), calls + [TryAcquire(cost, now)];
            && After(l, start, more) == Acquire(l, b, cost, now)
            && Admitted(l, start, more, |calls|) == Allows(l, b, cost, now)
            && forall i: nat | i < |calls| :: Admitted(l, start, more, i) == Admitted(l, start, calls, i)
  {
    hide Acquire, Allows, Refill;
    var more := calls + [TryAcquire(cost, now)];
    assert more[..|calls|] == calls;
    forall i: nat | i < |calls| ensures Admitted(l, start, more, i) == Admitted(l, start, calls, i) {
      assert more[..i] == calls[..i];
    }
  }

  lemma UnitSnoc(times: seq<real>, now: real)
    ensures UnitCalls(times + [now]) == UnitCalls(times) + [TryAcquire(1.0, now)]
  {}

  lemma NoCalls(l: Limits, start: real)
    ensures After(l, start, UnitCalls([])) == PolicyAfter(l, start, [], Greedy(l, start, []))
  {}

  /** One more unit request, seen by acquire() and by the greedy policy. */
  lemma UnitStep(l: Limits, start: real, times: seq<real>, now: real)
    requires After(l, start, UnitCalls(times)) == PolicyAfter(l, start, times, Greedy(l, start, times))
    ensures var more, g, allowed := times + [now], Greedy(l, start, times),
            Allows(l, After(l, start, UnitCalls(times)), 1.0, now);
            && After(l, start, UnitCalls(more)) == PolicyAfter(l, start, more, Greedy(l, start, more))
            && Greedy(l, start, more) == g + [allowed]
            && Admitted(l, start, UnitCalls(more), |times|) == allowed
            && forall i: nat | i < |times| ::
                Admitted(l, start, UnitCalls(more), i) == Admitted(l, start, UnitCalls(times), i)
  {
    hide *;
    GreedySnoc(l, start, times, now);
    CallSnoc(l, start, UnitCalls(times), 1.0, now);
    UnitSnoc(times, now);
  }

  /** Greedy is what acquire() does, call after call. */
  lemma {:induction false} GreedyIsAcquire(l: Limits, start: real, times: seq<real>)
    ensures After(l, start, UnitCalls(times)) == PolicyAfter(l, start, times, Greedy(l, start, times))
    ensures forall i: nat | i < |times| :: Admitted(l, start, UnitCalls(times), i) == Greedy(l, start, times)[i]
  {
    hide *;
    if times == [] {
      NoCalls(l, start);
    } else {
      var front, now := times[..|times| - 1], times[|times| - 1];
      assert front + [now] == times;
      GreedyIsAcquire(l, start, front);
      UnitStep(l, start, front, now);
    }
  }

  /** What greedy has spent beyond the policy covers whatever the policy still has over it. */
  lemma {:induction false} GreedyAhead(l: Limits, start: real, times: seq<real>, grants: seq<bool>)
    requires |grants| == |times| && NeverOverdraws(l, start, times, grants)
    ensures var g := Greedy(l, start, times);
            && Granted(g) >= Granted(grants)
            && PolicyAfter(l, start, times, grants).lastRefill == PolicyAfter(l, start, times, g).lastRefill
            && PolicyAfter(l, start, times, grants).tokens
               <= PolicyAfter(l, start, times, g).tokens + (Granted(g) - Granted(grants)) as real
  {
    hide Supply, Refill;
    if times != [] {
      var n := |times| - 1;
      forall i | 0 <= i < n && grants[..n][i]
        ensures Refill(l, PolicyAfter(l, start, times[..n][..i], grants[..n][..i]), times[..n][i]).tokens >= 1.0
      {
        assert times[..n][..i] == times[..i] && grants[..n][..i] == grants[..i];
      }
      var g := Greedy(l, start, times);
      GreedyAhead(l, start, times[..n], grants[..n]);
      assert g[..n] == Greedy(l, start, times[..n]);
      var p, q := PolicyAfter(l, start, times[..n], grants[..n]), PolicyAfter(l, start, times[..n], g[..n]);
      var lead := Granted(g[..n]) - Granted(grants[..n]);
      RefillKeepsLead(l, p, q, lead as real, times[n]);
      assert grants[n] ==> Refill(l, p, times[n]).tokens >= 1.0;
      assert g[n] == (Refill(l, q, times[n]).tokens >= 1.0);
    }
  }

  lemma RefillKeepsLead(l: Limits, p: Bucket, q: Bucket, lead: real, now: real)
    requires p.lastRefill == q.lastRefill && lead >= 0.0 && p.tokens <= q.tokens + lead
    ensures Refill(l, p, now).tokens <= Refill(l, q, now).tokens + lead
    ensures Refill(l, p, now).lastRefill == Refill(l, q, now).lastRefill
  {}

  /**
   With unit costs the bucket has at every moment admitted at least as many requests as any policy that
   never overdraws a bucket of the same rate and capacity.
   */
  lemma GreedyOptimal(l: Limits, start: real, times: seq<real>, grants: seq<bool>, n: nat)
    requires |grants| == |times| && NeverOverdraws(l, start, times, grants) && n <= |times|
    ensures Granted(grants[..n]) <= Granted(Greedy(l, start, times[..n]))
    ensures NeverOverdraws(l, start, times, Greedy(l, start, times))
  {
    forall i | 0 <= i < n && grants[..n][i]
      ensures Refill(l, PolicyAfter(l, start, times[..n][..i], grants[..n][..i]), times[..n][i]).tokens >= 1.0
    {
      assert times[..n][..i] == times[..i] && grants[..n][..i] == grants[..i];
    }
    GreedyAhead(l, start, times[..n], grants[..n]);
    GreedyHonest(l, start, times);
  }

  lemma {:induction false} GreedyHonest(l: Limits, start: real, times: seq<real>)
    ensures NeverOverdraws(l, start, times, Greedy(l, start, times))
  {
    var g := Greedy(l, start, times);
    if times != [] {
      var n := |times| - 1;
      GreedyHonest(l, start, times[..n]);
      forall i | 0 <= i < |times| && g[i]
        ensures Refill(l, PolicyAfter(l, start, times[..i], g[..i]), times[i]).tokens >= 1.0
      {
        if i < n {
          assert times[..n][..i] == times[..i] && Greedy(l, start, times[..n])[..i] == g[..i];
          assert Greedy(l, start, times[..n])[i];
          assert times[..n][i] == times[i];
        } else {
          assert g[..n] == Greedy(l, start, times[..n]);
        }
      }
    }
  }
}

/** The bucket object, updated in place. */
module TokenBuckets {
  import opened Reals
  import opened RateLimiter

  class TokenBucket {
    const rate: real
    const capacity: real
    var tokens: real
    var lastRefill: real
    var totalAllowed: nat
    var totalRejected: nat

    function Limit(): Limits {
      Limits(rate, capacity)
    }

    function View(): Bucket
      reads this
    {
      Bucket(tokens, lastRefill)
    }

    constructor (rate: real, capacity: real, now: real)
      ensures Limit() == Limits(rate, capacity) && View() == Created(Limit(), now)
      ensures totalAllowed == totalRejected == 0
    {
      this.rate, this.capacity := rate, capacity;
      tokens, lastRefill := capacity, now;
      totalAllowed, totalRejected := 0, 0;
    }

    method Refill(now: real)
      modifies this`tokens, this`lastRefill
      ensures View() == RateLimiter.Refill(Limit(), old(View()), now)
      ensures var level := old(tokens) + rate * (now - old(lastRefill));
              tokens == (if level <= capacity then level else capacity) && lastRefill == now
    {
      var elapsed := now - lastRefill;
      tokens := Min(capacity, tokens + elapsed * rate);
      lastRefill := now;
    }

    method Acquire(cost: real, now: real) returns (allowed: bool)
      modifies this
      ensures allowed == Allows(Limit(), old(View()), cost, now)
      ensures View() == RateLimiter.Acquire(Limit(), old(View()), cost, now)
      ensures var level := old(tokens) + rate * (now - old(lastRefill));
              var refilled := if level <= capacity then level else capacity;
              && allowed == (refilled >= cost) && lastRefill == now
              && tokens == refilled - if allowed then cost else 0.0
      ensures totalAllowed == old(totalAllowed) + if allowed then 1 else 0
      ensures totalRejected == old(totalRejected) + if allowed then 0 else 1
    {
      Refill(now);
      if tokens >= cost {
        tokens := tokens - cost;
        totalAllowed := totalAllowed + 1;
        return true;
      }
      totalRejected := totalRejected + 1;
      return false;
    }

    /** stats() refills before it reports. */
    method ReadStats(now: real) returns (available: real)
      modifies this`tokens, this`lastRefill
      ensures View() == RateLimiter.Refill(Limit(), old(View()), now)
      ensures available == View().tokens
      ensures var level := old(tokens) + rate * (now - old(lastRefill));
              available == if level <= capacity then level else capacity
    {
      Refill(now);
      available := tokens;
    }
  }
}
