/**
 What can go wrong between ring and monitor (router/router.py) when callbacks pass each other, exactly when the two
 agree, and what the autoscaler's own workers do to them.
 */
module ClusterRuns {
  import opened Wrappers
  import opened Seqs
  import opened HashRing
  import opened Cluster
  import H = Heartbeat

  // ----- The autoscaler's workers -----

  /**
   An added worker is on the ring and watched, its status UNKNOWN; taking it off again leaves the ring as it was.
   Nothing else on the ring and no other record is touched.
   */
  lemma {:induction false} JoinThenLeave(c: Setup, s: State, node: Node)
    requires RingInv(c.params, s.ring) && node.nodeId !in s.ring.nodes
    ensures var q := Next(c, Next(c, s, Join(node)), Watch(node.nodeId));
            && q.ring.nodes == s.ring.nodes[node.nodeId := node]
            && q.states == s.states[node.nodeId := H.NodeState(H.UNKNOWN, 0)]
            && Next(c, q, Leave(node.nodeId)) == q.(ring := s.ring)
  {
    AddThenRemove(c.params, s.ring, node);
    hide RingInv, AddVnodes, RemoveNode;
  }

  // ----- Callbacks that pass each other -----

  const ROUTER_THRESHOLDS := H.Thresholds(3, 2)

  /** Up, Down and Up are raised; the second Up acts before the Down. */
  function Passing(id: string): seq<Step> {
    var yes, no := Probe(id, true), Probe(id, false);
    [yes] + [yes] + [Deliver(0)] + [no] + [no] + [no] + [yes] + [yes] + [Deliver(1)] + [Deliver(0)]
  }

  /** Where a run has brought one node: its record, and the callbacks pending. */
  ghost predicate At(c: Setup, steps: seq<Step>, id: string, n: H.NodeState, pending: seq<Callback>) {
    var s := Reach(c, steps);
    id in s.states && s.states[id] == n && s.pending == pending
  }

  lemma AtProbe(c: Setup, steps: seq<Step>, id: string, n: H.NodeState, pending: seq<Callback>, success: bool)
    requires At(c, steps, id, n, pending)
    ensures var r := H.Check(c.thresholds, n, success);
            At(c, steps + [Probe(id, success)], id, r.state, pending + RaisedBy(id, r.event))
  {
    hide Reach, H.Check;
    ReachSnoc(c, steps, Probe(id, success), id);
  }

  /** The seven checks, by themselves. */
  lemma PassingChecks(th: H.Thresholds)
    requires th == ROUTER_THRESHOLDS
    ensures H.Check(th, H.REGISTERED, true) == H.Checked(H.NodeState(H.UNKNOWN, 1), None)
    ensures H.Check(th, H.NodeState(H.UNKNOWN, 1), true) == H.Checked(H.NodeState(H.HEALTHY, 2), Some(H.Up))
    ensures H.Check(th, H.NodeState(H.HEALTHY, 2), false) == H.Checked(H.NodeState(H.HEALTHY, -1), None)
    ensures H.Check(th, H.NodeState(H.HEALTHY, -1), false) == H.Checked(H.NodeState(H.HEALTHY, -2), None)
    ensures H.Check(th, H.NodeState(H.HEALTHY, -2), false) == H.Checked(H.NodeState(H.UNHEALTHY, -3), Some(H.Down))
    ensures H.Check(th, H.NodeState(H.UNHEALTHY, -3), true) == H.Checked(H.NodeState(H.UNHEALTHY, 1), None)
    ensures H.Check(th, H.NodeState(H.UNHEALTHY, 1), true) == H.Checked(H.NodeState(H.HEALTHY, 2), Some(H.Up))
  {}

  lemma PassingRaises(c: Setup, id: string)
    requires c.thresholds == ROUTER_THRESHOLDS && Configured(c.workers, id).Some?
    ensures var yes, no := Probe(id, true), Probe(id, false);
            At(c, [yes] + [yes] + [Deliver(0)] + [no] + [no] + [no] + [yes] + [yes], id,
               H.NodeState(H.HEALTHY, 2), [Callback(id, H.Down), Callback(id, H.Up)])
  {
    var yes, no := Probe(id, true), Probe(id, false);
    StartLaw(c.params, c.workers, id);
    assert At(c, [], id, H.REGISTERED, []);
    PassingChecks(c.thresholds);
    hide Reach, Next, Configured, StartRing, StartStates, H.Check;
    assert [] + [yes] == [yes];
    AtProbe(c, [], id, H.REGISTERED, [], true);
    AtProbe(c, [yes], id, H.NodeState(H.UNKNOWN, 1), [], true);
    AtDelivered(c, [yes] + [yes], id, H.NodeState(H.HEALTHY, 2), Callback(id, H.Up));
    var three := [yes] + [yes] + [Deliver(0)];
    AtProbe(c, three, id, H.NodeState(H.HEALTHY, 2), [], false);
    AtProbe(c, three + [no], id, H.NodeState(H.HEALTHY, -1), [], false);
    AtProbe(c, three + [no] + [no], id, H.NodeState(H.HEALTHY, -2), [], false);
    AtProbe(c, three + [no] + [no] + [no], id, H.NodeState(H.UNHEALTHY, -3), [Callback(id, H.Down)], true);
    AtProbe(c, three + [no] + [no] + [no] + [yes], id, H.NodeState(H.UNHEALTHY, 1), [Callback(id, H.Down)], true);
  }

  /** The only callback pending acts. */
  lemma AtDelivered(c: Setup, steps: seq<Step>, id: string, n: H.NodeState, cb: Callback)
    requires At(c, steps, id, n, [cb])
    ensures At(c, steps + [Deliver(0)], id, n, [])
  {
    hide Reach, Handle;
    ReachSnoc(c, steps, Deliver(0), id);
  }

  /** The status a node has throughout a continuation of a run. */
  ghost predicate KeepsStatus(c: Setup, steps: seq<Step>, more: seq<Step>, id: string, status: H.Status) {
    forall k: nat | k <= |more| :: HasStatusAt(c, steps, more, k, id, status)
  }

  ghost predicate HasStatusAt(c: Setup, steps: seq<Step>, more: seq<Step>, k: nat, id: string, status: H.Status)
    requires k <= |more|
  {
    HasStatus(Reach(c, steps + more[..k]), id, status)
  }

  lemma KeepsSnoc(c: Setup, steps: seq<Step>, front: seq<Step>, e: Step, id: string, status: H.Status)
    requires KeepsStatus(c, steps, front + [e], id, status)
    ensures KeepsStatus(c, steps, front, id, status)
    ensures HasStatus(Reach(c, steps + front), id, status) && HasStatus(Reach(c, steps + front + [e]), id, status)
  {
    hide Reach, HasStatus;
    var more := front + [e];
    forall k: nat | k <= |front| ensures HasStatusAt(c, steps, front, k, id, status) {
      assert HasStatusAt(c, steps, more, k, id, status) && more[..k] == front[..k];
    }
    assert HasStatusAt(c, steps, more, |front|, id, status) && more[..|front|] == front;
    assert HasStatusAt(c, steps, more, |more|, id, status) && more[..|more|] == more;
    assert steps + front + [e] == steps + more;
  }

  lemma NotAmong(callbacks: seq<Callback>, id: string, i: nat)
    requires EventsOf(callbacks, id) == [] && i < |callbacks|
    ensures callbacks[i].nodeId != id && EventsOf(Without(callbacks, i), id) == []
  {
    var a, b := callbacks[..i], callbacks[i + 1..];
    assert callbacks == a + [callbacks[i]] + b;
    EventsConcat(a + [callbacks[i]], b, id);
    EventsConcat(a, [callbacks[i]], id);
    EventsConcat(a, b, id);
    EventsSnoc(a, callbacks[i], id);
  }

  /**
   A step that leaves a worker's status alone, while no callback of its own is pending, leaves its membership alone.
   */
  lemma FrozenStep(c: Setup, s: State, e: Step, id: string, status: H.Status)
    requires c.thresholds.Valid() && Allowed(c, e) && Configured(c.workers, id).Some?
    requires EventsOf(s.pending, id) == [] && HasStatus(s, id, status) && HasStatus(Next(c, s, e), id, status)
    ensures EventsOf(Next(c, s, e).pending, id) == []
    ensures id in Next(c, s, e).ring.nodes <==> id in s.ring.nodes
  {
    hide EventsOf, AddVnodes, VnodeSet, Filter, H.Check;
    match e
    case Probe(nodeId, success) =>
      if nodeId in s.states {
        var event := H.Check(c.thresholds, s.states[nodeId], success).event;
        H.TransitionSettles(c.thresholds, s.states[nodeId], success);
        EventsConcat(s.pending, RaisedBy(nodeId, event), id);
        if event.Some? {
          EventsSnoc([], Callback(nodeId, event.value), id);
          assert [] + [Callback(nodeId, event.value)] == RaisedBy(nodeId, event);
        }
        NoEvents([], id);
      }
    case Deliver(i) =>
      if i < |s.pending| {
        NotAmong(s.pending, id, i);
        var cb := s.pending[i];
        if Configured(c.workers, cb.nodeId).Some? { ConfiguredHasId(c.workers, cb.nodeId); }
      }
    case _ =>
  }

  /** As long as a worker's status stays what it is and none of its callbacks is pending, its membership stays too. */
  lemma {:induction false} Frozen(c: Setup, steps: seq<Step>, more: seq<Step>, id: string, status: H.Status)
    requires c.thresholds.Valid() && AllAllowed(c, more) && Configured(c.workers, id).Some?
    requires EventsOf(Reach(c, steps).pending, id) == [] && KeepsStatus(c, steps, more, id, status)
    ensures EventsOf(Reach(c, steps + more).pending, id) == []
    ensures id in Reach(c, steps + more).ring.nodes <==> id in Reach(c, steps).ring.nodes
  {
    if more == [] {
      assert steps + more == steps;
    } else {
      var front, e := more[..|more| - 1], more[|more| - 1];
      assert more == front + [e] && steps + more == steps + front + [e] && Allowed(c, e) && AllAllowed(c, front);
      hide *;
      KeepsSnoc(c, steps, front, e, id, status);
      Frozen(c, steps, front, id, status);
      ReachSnoc(c, steps + front, e, id);
      FrozenStep(c, Reach(c, steps + front), e, id, status);
    }
  }

  /**
   Membership and status agree exactly when the last callback delivered and the last one raised are of the
   same kind (none counting as Up).
   */
  lemma {:induction false} AgreeExactly(c: Setup, steps: seq<Step>, id: string)
    requires c.thresholds.Valid() && AllAllowed(c, steps) && Configured(c.workers, id).Some?
    ensures var s := Reach(c, steps);
            && id in s.states
            && ((id in s.ring.nodes <==> s.states[id].status != H.UNHEALTHY)
                <==> (LeavesIn(EventsOf(s.delivered, id)) <==> LeavesIn(EventsOf(s.raised, id))))
  {
    hide *;
    MembershipLaw(c, steps, id);
  }

  lemma PassingEnds(c: Setup, id: string)
    requires c.thresholds == ROUTER_THRESHOLDS && Configured(c.workers, id).Some?
    ensures var s := Reach(c, Passing(id));
            AllAllowed(c, Passing(id)) && s.pending == [] && HasStatus(s, id, H.HEALTHY) && id !in s.ring.nodes
  {
    hide StartRing, StartStates, Configured, EventsOf, Results, AddNode, VnodeSet, Filter, Reach, H.Check;
    var yes, no := Probe(id, true), Probe(id, false);
    var eight := [yes] + [yes] + [Deliver(0)] + [no] + [no] + [no] + [yes] + [yes];
    PassingRaises(c, id);
    assert At(c, eight, id, H.NodeState(H.HEALTHY, 2), [Callback(id, H.Down), Callback(id, H.Up)]);
    ReachSnoc(c, eight, Deliver(1), id);
    ReachSnoc(c, eight + [Deliver(1)], Deliver(0), id);
  }

  /**
   The order matters: with the router's own thresholds, callbacks that pass each other leave a worker HEALTHY
   and off the ring with nothing pending; and whatever happens next, it stays off as long as it stays HEALTHY.
   */
  lemma {:induction false} PassingLosesWorker(c: Setup, id: string, more: seq<Step>)
    requires c.thresholds == ROUTER_THRESHOLDS && Configured(c.workers, id).Some?
    ensures var s := Reach(c, Passing(id));
            && AllAllowed(c, Passing(id)) && s.pending == []
            && HasStatus(s, id, H.HEALTHY) && id !in s.ring.nodes
    ensures AllAllowed(c, more) && KeepsStatus(c, Passing(id), more, id, H.HEALTHY)
            ==> id !in Reach(c, Passing(id) + more).ring.nodes
  {
    PassingEnds(c, id);
    assert c.thresholds.Valid();
    NoEvents([], id);
    hide *;
    if AllAllowed(c, more) && KeepsStatus(c, Passing(id), more, id, H.HEALTHY) {
      Frozen(c, Passing(id), more, id, H.HEALTHY);
    }
  }
}
