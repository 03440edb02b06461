/**
 The heartbeat monitor's per-node state machine (router/heartbeat.py): a signed streak with hysteresis
 between the statuses, raising an Up or a Down callback on a transition.
 */
module Heartbeat {
  import opened Wrappers

  datatype Status = HEALTHY | UNHEALTHY | UNKNOWN

  datatype NodeState = NodeState(status: Status, streak: int)

  /** What is fixed for a monitor's lifetime; a threshold is a count of checks, at least one. */
  datatype Thresholds = Thresholds(failure: nat, recovery: nat) {
    ghost predicate Valid() { 1 <= failure && 1 <= recovery }
  }

  datatype Event = Up | Down

  datatype Checked = Checked(state: NodeState, event: Option<Event>)

  const REGISTERED := NodeState(UNKNOWN, 0)

  /** The state update of one check, given whether the probe succeeded. */
  function Check(th: Thresholds, n: NodeState, success: bool): Checked {
    if success then
      if n.status == HEALTHY then Checked(n.(streak := n.streak + 1), None)
      else
        var streak := if n.streak <= 0 then 1 else n.streak + 1;
        if streak >= th.recovery then Checked(NodeState(HEALTHY, streak), Some(Up))
        else Checked(n.(streak := streak), None)
    else
      if n.status != HEALTHY then Checked(n.(streak := n.streak - 1), None)
      else
        var streak := if n.streak >= 0 then -1 else n.streak - 1;
        if Abs(streak) >= th.failure then Checked(NodeState(UNHEALTHY, streak), Some(Down))
        else Checked(n.(streak := streak), None)
  }

  function Abs(x: int): nat {
    if x < 0 then -x else x
  }

  /** The state after a list of results. */
  function After(th: Thresholds, n: NodeState, results: seq<bool>): NodeState {
    if results == [] then n
    else Check(th, After(th, n, results[..|results| - 1]), results[|results| - 1]).state
  }

  // ----- A node that has just changed status -----

  /** The streak sign a status is entered with. */
  ghost predicate Settled(n: NodeState) {
    if n.status == HEALTHY then n.streak >= 0 else n.streak <= 0
  }

  /** A transition leaves a settled state, as registration does. */
  lemma TransitionSettles(th: Thresholds, n: NodeState, success: bool)
    requires th.Valid()
    ensures Settled(REGISTERED)
    ensures Check(th, n, success).event.Some? ==> Settled(Check(th, n, success).state)
    ensures Check(th, n, success).event == Some(Up)
            <==> n.status != HEALTHY && Check(th, n, success).state.status == HEALTHY
    ensures Check(th, n, success).event == Some(Down)
            <==> n.status == HEALTHY && Check(th, n, success).state.status != HEALTHY
    ensures Check(th, n, success).event == Some(Down) ==> Check(th, n, success).state.status == UNHEALTHY
    ensures Check(th, n, success).event.None? <==> Check(th, n, success).state.status == n.status
  {}

  // ----- The exact law: net counts over a window -----

  /** How many of results[i..j] are `want`, less how many are not. */
  function Net(results: seq<bool>, want: bool, i: nat, j: nat): int
    requires i <= j <= |results|
  {
    if i == j then 0 else Net(results, want, i, j - 1) + if results[j - 1] == want then 1 else -1
  }

  /** Some window ending at the end of the results has net count at least t. */
  ghost predicate NetReached(results: seq<bool>, want: bool, t: int) {
    exists i: nat :: i <= |results| && Net(results, want, i, |results|) >= t
  }

  /** The count against the current status: a walk that steps up on contrary results and never goes below zero. */
  function Contrary(n: NodeState): nat {
    if n.status == HEALTHY then (if n.streak < 0 then -n.streak else 0)
    else (if n.streak > 0 then n.streak else 0)
  }

  /** The result that counts against a status: failure while HEALTHY, success otherwise. */
  function Against(status: Status): bool {
    status != HEALTHY
  }

  function ThresholdOf(th: Thresholds, status: Status): nat {
    if status == HEALTHY then th.failure else th.recovery
  }

  lemma {:induction false} NetPrefix(results: seq<bool>, n: nat, want: bool, i: nat, j: nat)
    requires i <= j <= n <= |results|
    ensures Net(results[..n], want, i, j) == Net(results, want, i, j)
  {
    if i < j { NetPrefix(results, n, want, i, j - 1); }
  }

  /** One result more: the walk moves by one, and stops at zero. */
  lemma ContraryStep(th: Thresholds, n: NodeState, success: bool)
    requires th.Valid()
    ensures var r, d := Check(th, n, success), if success == Against(n.status) then Contrary(n) + 1
            else Contrary(n) - 1;
            && (r.event.Some? <==> success == Against(n.status) && d >= ThresholdOf(th, n.status))
            && (r.event.None? ==> Contrary(r.state) == if d < 0 then 0 else d)
  {}

  /**
   The walk is the greatest net count of contrary results over the windows that end now, since the status
   was entered; i is a window attaining it.
   */
  lemma {:induction false} ContraryIsMaxNet(th: Thresholds, n: NodeState, results: seq<bool>) returns (i: nat)
    requires th.Valid() && Settled(n)
    requires forall j: nat | j <= |results| :: After(th, n, results[..j]).status == n.status
    ensures i <= |results|
    ensures var want, c := Against(n.status), Contrary(After(th, n, results));
            && c < ThresholdOf(th, n.status)
            && c == Net(results, want, i, |results|)
            && forall k: nat | k <= |results| :: Net(results, want, k, |results|) <= c
  {
    var want := Against(n.status);
    assert results[..|results|] == results;
    if results == [] { return 0; }
    var m := |results| - 1;
    var front, last := results[..m], results[m];
    forall j: nat | j <= m ensures After(th, n, front[..j]).status == n.status { assert front[..j] == results[..j]; }
    i := ContraryIsMaxNet(th, n, front);
    var before := After(th, n, front);
    ContraryStep(th, before, last);
    TransitionSettles(th, before, last);
    forall k: nat | k <= m
      ensures Net(results, want, k, m + 1) == Net(front, want, k, m) + if last == want then 1 else -1
    {
      NetPrefix(results, m, want, k, m);
    }
    assert Check(th, before, last).event.None?;
    if last != want && Contrary(before) == 0 { i := m + 1; }
    forall k: nat | k <= |results| ensures Net(results, want, k, |results|) <= Contrary(After(th, n, results)) {
      if k <= m { assert Net(front, want, k, m) <= Contrary(before); }
    }
  }

  /** Whether the last of these results raises a transition. */
  ghost predicate Fires(th: Thresholds, n: NodeState, results: seq<bool>) {
    results != [] && Check(th, After(th, n, results[..|results| - 1]), results[|results| - 1]).event.Some?
  }

  /**
   DOWN (and UP) law: while a status lasts, the next result ends it exactly when some window of results since
   the status was entered, ending with this one, holds at least threshold more contrary results than others.
   */
  lemma {:induction false} TransitionLaw(th: Thresholds, n: NodeState, results: seq<bool>)
    requires th.Valid() && Settled(n) && results != []
    requires forall j: nat | j < |results| :: After(th, n, results[..j]).status == n.status
    ensures n.status == HEALTHY ==>
              (Fires(th, n, results)
               <==> exists i: nat :: i <= |results| && Net(results, false, i, |results|) >= th.failure)
    ensures n.status != HEALTHY ==>
              (Fires(th, n, results)
               <==> exists i: nat :: i <= |results| && Net(results, true, i, |results|) >= th.recovery)
  {
    var want, t, m := Against(n.status), ThresholdOf(th, n.status), |results| - 1;
    var front, last := results[..m], results[m];
    forall j: nat | j <= m ensures After(th, n, front[..j]).status == n.status { assert front[..j] == results[..j]; }
    var i := ContraryIsMaxNet(th, n, front);
    var c := Contrary(After(th, n, front));
    ContraryStep(th, After(th, n, front), last);
    forall k: nat | k <= m
      ensures Net(results, want, k, m + 1) == Net(front, want, k, m) + if last == want then 1 else -1
    {
      NetPrefix(results, m, want, k, m);
    }
    assert Net(results, want, m + 1, m + 1) == 0;
    if NetReached(results, want, t) {
      var k: nat :| k <= |results| && Net(results, want, k, |results|) >= t;
      assert k <= m;
      assert Net(front, want, k, m) <= c;
    }
    if Fires(th, n, results) { assert Net(results, want, i, |results|) >= t; }
  }

  // ----- Consecutive results -----

  function Repeat(x: bool, k: nat): (s: seq<bool>)
    ensures |s| == k && forall i | 0 <= i < k :: s[i] == x
  {
    seq(k, i => x)
  }

  lemma {:induction false} AfterConcat(th: Thresholds, n: NodeState, a: seq<bool>, b: seq<bool>)
    ensures After(th, n, a + b) == After(th, After(th, n, a), b)
  {
    if b == [] {
      assert a + b == a;
    } else {
      assert (a + b)[..|a| + |b| - 1] == a + b[..|b| - 1];
      AfterConcat(th, n, a, b[..|b| - 1]);
    }
  }

  lemma {:induction false} FailureRun(th: Thresholds, n: NodeState, k: nat)
    requires th.Valid()
    ensures var r := After(th, n, Repeat(false, k));
            r.status == HEALTHY && k > 0 ==> r.streak <= -(k as int) && k < th.failure
  {
    if k > 0 {
      FailureRun(th, n, k - 1);
      assert Repeat(false, k)[..k - 1] == Repeat(false, k - 1);
    }
  }

  lemma {:induction false} SuccessRun(th: Thresholds, n: NodeState, k: nat)
    requires th.Valid()
    ensures var r := After(th, n, Repeat(true, k));
            r.status != HEALTHY && k > 0 ==> r.streak >= k && k < th.recovery
  {
    if k > 0 {
      SuccessRun(th, n, k - 1);
      assert Repeat(true, k)[..k - 1] == Repeat(true, k - 1);
    }
  }

  /**
   After any history, failure_threshold consecutive failures leave a node not HEALTHY and
   recovery_threshold consecutive successes leave it HEALTHY.
   */
  lemma {:induction false} ConsecutiveSuffices(th: Thresholds, n: NodeState, history: seq<bool>)
    requires th.Valid()
    ensures After(th, n, history + Repeat(false, th.failure)).status != HEALTHY
    ensures After(th, n, history + Repeat(true, th.recovery)).status == HEALTHY
  {
    AfterConcat(th, n, history, Repeat(false, th.failure));
    AfterConcat(th, n, history, Repeat(true, th.recovery));
    FailureRun(th, After(th, n, history), th.failure);
    SuccessRun(th, After(th, n, history), th.recovery);
  }

  /** The last t results all are `want`. */
  ghost predicate EndsWith(results: seq<bool>, want: bool, t: nat) {
    t <= |results| && forall i | |results| - t <= i < |results| :: results[i] == want
  }

  /** The whole status period: no transition before the last result. */
  ghost predicate Steady(th: Thresholds, n: NodeState, results: seq<bool>) {
    forall j: nat | j < |results| :: After(th, n, results[..j]).status == n.status
  }

  /** Every transition out of n's status comes at the end of threshold results in a row. */
  ghost predicate NeedsConsecutive(th: Thresholds, n: NodeState) {
    forall results | Steady(th, n, results) && Fires(th, n, results) ::
      EndsWith(results, Against(n.status), ThresholdOf(th, n.status))
  }

  /**
   The documented rule, transitions only after threshold consecutive results, holds exactly for thresholds
   of at most two; above that a net count is enough.
   */
  lemma {:induction false} ConsecutiveExactly(th: Thresholds, n: NodeState)
    requires th.Valid() && Settled(n)
    ensures NeedsConsecutive(th, n) <==> (if n.status == HEALTHY then th.failure else th.recovery) <= 2
  {
    if ThresholdOf(th, n.status) <= 2 {
      forall results | Steady(th, n, results) && Fires(th, n, results)
        ensures EndsWith(results, Against(n.status), ThresholdOf(th, n.status))
      {
        TwoInARow(th, n, results);
      }
    } else {
      Dipped(th, n);
    }
  }

  lemma SteadyPrefix(th: Thresholds, n: NodeState, results: seq<bool>, m: nat)
    requires Steady(th, n, results) && m < |results|
    ensures forall j: nat | j <= m :: After(th, n, results[..m][..j]).status == n.status
  {
    forall j: nat | j <= m ensures After(th, n, results[..m][..j]).status == n.status {
      assert results[..m][..j] == results[..j];
    }
  }

  /** One result before a transition with threshold two, the count stands at one and the result was contrary. */
  lemma OneBelow(th: Thresholds, n: NodeState, front: seq<bool>)
    requires th.Valid() && Settled(n) && Contrary(After(th, n, front)) == 1 && ThresholdOf(th, n.status) == 2
    requires forall j: nat | j <= |front| :: After(th, n, front[..j]).status == n.status
    ensures front != [] && front[|front| - 1] == Against(n.status)
  {
    assert front != [];
    var m := |front| - 1;
    assert front[..m + 1] == front;
    var first := front[..m];
    forall j: nat | j <= m ensures After(th, n, first[..j]).status == n.status { assert first[..j] == front[..j]; }
    var i := ContraryIsMaxNet(th, n, first);
    ContraryStep(th, After(th, n, first), front[m]);
    TransitionSettles(th, After(th, n, first), front[m]);
  }

  lemma TwoInARow(th: Thresholds, n: NodeState, results: seq<bool>)
    requires th.Valid() && Settled(n) && ThresholdOf(th, n.status) <= 2
    requires Steady(th, n, results) && Fires(th, n, results)
    ensures EndsWith(results, Against(n.status), ThresholdOf(th, n.status))
  {
    var m := |results| - 1;
    var front := results[..m];
    SteadyPrefix(th, n, results, m);
    assert After(th, n, front[..m]).status == n.status && front[..m] == front;
    ContraryStep(th, After(th, n, front), results[m]);
    var i := ContraryIsMaxNet(th, n, front);
    if ThresholdOf(th, n.status) == 2 { OneBelow(th, n, front); }
  }

  /** threshold - 1 contrary results, one the other way, two contrary: net count threshold, not in a row. */
  function Dip(want: bool, t: nat): seq<bool>
    requires t >= 1
  {
    Repeat(want, t - 1) + [!want] + [want] + [want]
  }

  lemma {:induction false} Climb(th: Thresholds, n: NodeState, k: nat)
    requires th.Valid() && Settled(n) && k < ThresholdOf(th, n.status)
    ensures var r := After(th, n, Repeat(Against(n.status), k));
            r.status == n.status && Contrary(r) == k
  {
    if k > 0 {
      var s := Repeat(Against(n.status), k);
      Climb(th, n, k - 1);
      assert s[..k - 1] == Repeat(Against(n.status), k - 1);
      ContraryStep(th, After(th, n, s[..k - 1]), Against(n.status));
      TransitionSettles(th, After(th, n, s[..k - 1]), Against(n.status));
    }
  }

  lemma {:induction false} Dipped(th: Thresholds, n: NodeState)
    requires th.Valid() && Settled(n) && ThresholdOf(th, n.status) >= 3
    ensures var t, want := ThresholdOf(th, n.status), Against(n.status);
            && Steady(th, n, Dip(want, t)) && Fires(th, n, Dip(want, t)) && !EndsWith(Dip(want, t), want, t)
  {
    var t, want := ThresholdOf(th, n.status), Against(n.status);
    var s0, all := Repeat(want, t - 1), Dip(want, t);
    var s1 := s0 + [!want];
    var s2 := s1 + [want];
    Climb(th, n, t - 1);
    assert s1[..t - 1] == s0 && s2[..t] == s1 && all[..t + 1] == s2;
    ContraryStep(th, After(th, n, s0), !want);
    TransitionSettles(th, After(th, n, s0), !want);
    ContraryStep(th, After(th, n, s1), want);
    TransitionSettles(th, After(th, n, s1), want);
    ContraryStep(th, After(th, n, s2), want);
    forall j: nat | j < |all| ensures After(th, n, all[..j]).status == n.status {
      if j <= t - 1 {
        Climb(th, n, j);
        assert all[..j] == Repeat(want, j);
      } else if j == t {
        assert all[..j] == s1;
      }
    }
    assert all[t - 1] == !want;
  }

  // ----- Callbacks -----

  /** The callbacks raised by a list of results, in order. */
  function Events(th: Thresholds, n: NodeState, results: seq<bool>): seq<Event> {
    if results == [] then []
    else
      var r := Check(th, After(th, n, results[..|results| - 1]), results[|results| - 1]);
      Events(th, n, results[..|results| - 1]) + if r.event.Some? then [r.event.value] else []
  }

  /** Up, Down, Up, and so on. */
  ghost predicate Alternating(events: seq<Event>) {
    forall k | 0 <= k < |events| :: events[k] == if k % 2 == 0 then Up else Down
  }

  /** Per registration the callbacks strictly alternate, starting with up; the last tells the status. */
  lemma {:induction false} EventsAlternate(th: Thresholds, results: seq<bool>)
    requires th.Valid()
    ensures var events, s := Events(th, REGISTERED, results), After(th, REGISTERED, results).status;
            && Alternating(events)
            && (s == UNKNOWN <==> events == [])
            && (s == HEALTHY <==> |events| % 2 == 1)
  {
    if results != [] {
      var m := |results| - 1;
      EventsAlternate(th, results[..m]);
      TransitionSettles(th, After(th, REGISTERED, results[..m]), results[m]);
    }
  }
}

/** The monitor object, updated in place. */
module HeartbeatMonitors {
  import opened Wrappers
  import opened Heartbeat

  datatype Record = Record(address: string, state: NodeState, lastCheck: Option<real>, totalChecks: nat,
      totalFailures: nat)

  class HeartbeatMonitor {
    const thresholds: Thresholds
    var nodes: map<string, Record>

    constructor (thresholds: Thresholds)
      ensures this.thresholds == thresholds && nodes == map[]
    {
      this.thresholds, nodes := thresholds, map[];
    }

    method Register(nodeId: string, address: string)
      modifies this
      ensures nodes == old(nodes)[nodeId := Record(address, REGISTERED, None, 0, 0)]
    {
      nodes := nodes[nodeId := Record(address, REGISTERED, None, 0, 0)];
    }

    predicate IsHealthy(nodeId: string)
      reads this
    {
      nodeId in nodes && nodes[nodeId].state.status == HEALTHY
    }

    /** One check of a node, given what its probe answered; the callback it raises, if any. */
    method Check(nodeId: string, success: bool, now: real) returns (event: Option<Event>)
      modifies this
      ensures nodeId !in old(nodes) ==> event == None && nodes == old(nodes)
      ensures nodeId in old(nodes) ==>
                var before := old(nodes)[nodeId];
                var r := Heartbeat.Check(thresholds, before.state, success);
                && event == r.event
                && nodes == old(nodes)[nodeId := Record(before.address, r.state, Some(now), before.totalChecks + 1,
                                                        before.totalFailures + if success then 0 else 1)]
    {
      event := None;
      if nodeId !in nodes { return; }
      var n := nodes[nodeId];
      n := n.(totalChecks := n.totalChecks + 1, lastCheck := Some(now));
      if !success { n := n.(totalFailures := n.totalFailures + 1); }

      var streak := n.state.streak;
      var status := n.state.status;
      if success {
        if status == HEALTHY {
          streak := streak + 1;
        } else {
          streak := if streak <= 0 then 1 else streak + 1;
          if streak >= thresholds.recovery {
            status := HEALTHY;
            event := Some(Up);
          }
        }
      } else {
        if status != HEALTHY {
          streak := streak - 1;
        } else {
          streak := if streak >= 0 then -1 else streak - 1;
          if Abs(streak) >= thresholds.failure {
            status := UNHEALTHY;
            event := Some(Down);
          }
        }
      }
      nodes := nodes[nodeId := n.(state := NodeState(status, streak))];
    }
  }
}
