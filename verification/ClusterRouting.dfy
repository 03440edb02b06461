/**
 What the cluster's ring holds, and where route sends a request (router/router.py), once the callbacks raised
 so far have acted.
 */
module ClusterRouting {
  import opened Wrappers
  import opened Seqs
  import opened HashRing
  import opened Cluster
  import H = Heartbeat
  import R = Router

  /** The workers with these ids, in order. */
  function Among(workers: seq<Node>, ids: set<string>): seq<Node> {
    Filter(workers, (w: Node) => w.nodeId in ids)
  }

  lemma {:induction false} ConfiguredAmong(workers: seq<Node>, ids: set<string>, id: string)
    ensures Configured(Among(workers, ids), id) == if id in ids then Configured(workers, id) else None
  {
    if workers != [] {
      var front, w := workers[..|workers| - 1], workers[|workers| - 1];
      ConfiguredAmong(front, ids, id);
      SplitLast(workers);
      ConfiguredSnoc(front, w, id);
      FilterSnoc(front, w, (x: Node) => x.nodeId in ids);
      ConfiguredSnoc(Among(front, ids), w, id);
    }
  }

  lemma {:induction false} ConfiguredConcat(a: seq<Node>, b: seq<Node>, id: string)
    ensures Configured(a + b, id) == if Configured(a, id).Some? then Configured(a, id) else Configured(b, id)
  {
    if a == [] {
      assert a + b == b;
    } else {
      assert (a + b)[1..] == a[1..] + b;
      ConfiguredConcat(a[1..], b, id);
    }
  }

  /** A ring is the start-up ring of any list that names its nodes. */
  lemma RingOf(p: Params, workers: seq<Node>, r: Ring)
    requires RingInv(p, r)
    requires forall id :: id in r.nodes <==> Configured(workers, id).Some?
    requires forall id | id in r.nodes :: Configured(workers, id) == Some(r.nodes[id])
    ensures r == StartRing(p, workers)
  {
    hide RingInv, StartRing, Configured;
    var q := StartRing(p, workers);
    StartLaw(p, workers, "");
    forall id ensures (id in r.nodes <==> id in q.nodes) && (id in r.nodes ==> r.nodes[id] == q.nodes[id]) {
      StartLaw(p, workers, id);
    }
    assert r.nodes == q.nodes;
    SameNodesSameRing(p, q, r);
  }

  /** Nothing the callbacks have yet to do concerns a configured worker. */
  ghost predicate Quiet(c: Setup, s: State) {
    forall id | Configured(c.workers, id).Some? :: EventsOf(s.pending, id) == []
  }

  /** A run whose callbacks have all acted, each worker's in the order raised. */
  ghost predicate Settled(c: Setup, steps: seq<Step>) {
    c.thresholds.Valid() && AllAllowed(c, steps) && Ordered(c, steps) && Quiet(c, Reach(c, steps))
  }

  lemma {:induction false} RingAlways(c: Setup, steps: seq<Step>)
    ensures RingInv(c.params, Reach(c, steps).ring)
  {
    if steps == [] {
      StartLaw(c.params, c.workers, "");
    } else {
      hide RingInv, Next;
      RingAlways(c, steps[..|steps| - 1]);
      RingKept(c, Reach(c, steps[..|steps| - 1]), steps[|steps| - 1]);
    }
  }

  /** Of the configured workers a settled ring holds exactly those not UNHEALTHY, with their configured records. */
  lemma SettledMember(c: Setup, steps: seq<Step>, id: string)
    requires Settled(c, steps) && Configured(c.workers, id).Some?
    ensures var s := Reach(c, steps);
            && (id in s.ring.nodes <==> id in NotUnhealthy(s))
            && (id in s.ring.nodes ==> Configured(c.workers, id) == Some(s.ring.nodes[id]))
  {
    hide Reach, EventsOf, Configured, AllAllowed, Ordered, RingInv, LeavesIn;
    MemberAlways(c, steps, id);
    InOrderLaw(c, steps, id);
  }

  // ----- The autoscaler's nodes -----

  /** `extras` lists the nodes on a ring that are not configured: those the autoscaler added. */
  ghost predicate Extras(c: Setup, r: Ring, extras: seq<Node>) {
    forall id :: ExtraAt(c, r, extras, id)
  }

  ghost predicate ExtraAt(c: Setup, r: Ring, extras: seq<Node>, id: string) {
    Configured(extras, id) == if id in r.nodes && Configured(c.workers, id).None? then Some(r.nodes[id]) else None
  }

  /** Such a list exists for every ring of a run. */
  lemma ExtrasExist(c: Setup, steps: seq<Step>) returns (extras: seq<Node>)
    ensures Extras(c, Reach(c, steps).ring, extras)
  {
    var r := Reach(c, steps).ring;
    RingAlways(c, steps);
    extras := Listed(c, r.nodes);
    forall id ensures ExtraAt(c, r, extras, id) {}
  }

  lemma {:induction false} Listed(c: Setup, nodes: map<string, Node>) returns (extras: seq<Node>)
    requires forall id | id in nodes :: nodes[id].nodeId == id
    ensures forall id :: Configured(extras, id)
                         == if id in nodes && Configured(c.workers, id).None? then Some(nodes[id]) else None
    decreases |nodes|
  {
    if nodes == map[] { return []; }
    var x :| x in nodes;
    var rest := Listed(c, nodes - {x});
    if Configured(c.workers, x).Some? { return rest; }
    extras := rest + [nodes[x]];
    forall id
      ensures Configured(extras, id) == if id in nodes && Configured(c.workers, id).None? then Some(nodes[id]) else None
    {
      ConfiguredSnoc(rest, nodes[x], id);
    }
  }

  ghost predicate NoJoins(steps: seq<Step>) {
    forall e | e in steps :: !e.Join?
  }

  lemma {:induction false} OnlyWorkers(c: Setup, steps: seq<Step>, id: string)
    requires NoJoins(steps) && id in Reach(c, steps).ring.nodes
    ensures Configured(c.workers, id).Some?
  {
    hide AddVnodes, VnodeSet, Filter;
    if steps == [] {
      StartLaw(c.params, c.workers, id);
    } else {
      var front, e := steps[..|steps| - 1], steps[|steps| - 1];
      assert NoJoins(front) && e in steps;
      if id in Reach(c, front).ring.nodes {
        OnlyWorkers(c, front, id);
      } else {
        assert e.Deliver?;
        var cb := Reach(c, front).pending[e.i];
        ConfiguredHasId(c.workers, cb.nodeId);
      }
    }
  }

  /** Without autoscaled workers there is nothing to list. */
  lemma NoExtras(c: Setup, steps: seq<Step>)
    requires NoJoins(steps)
    ensures Extras(c, Reach(c, steps).ring, [])
  {
    forall id ensures ExtraAt(c, Reach(c, steps).ring, [], id) {
      if id in Reach(c, steps).ring.nodes { OnlyWorkers(c, steps, id); }
    }
  }

  /**
   Whatever failures and recoveries came before: the settled ring is exactly the start-up ring of the workers
   that are not UNHEALTHY and the nodes the autoscaler added.
   */
  lemma {:induction false} RingRecovers(c: Setup, steps: seq<Step>, extras: seq<Node>)
    requires Settled(c, steps) && Extras(c, Reach(c, steps).ring, extras)
    ensures var s := Reach(c, steps);
            var up := set id | id in s.states && s.states[id].status != H.UNHEALTHY;
            s.ring == StartRing(c.params, Among(c.workers, up) + extras)
  {
    assert forall id :: id in NotUnhealthy(Reach(c, steps)) <==>
        id in Reach(c, steps).states && Reach(c, steps).states[id].status != H.UNHEALTHY;
    hide Settled, Reach, Configured, RingInv, StartRing, Among, NotUnhealthy;
    var s := Reach(c, steps);
    var up := Among(c.workers, NotUnhealthy(s));
    RingAlways(c, steps);
    forall id ensures id in s.ring.nodes <==> Configured(up + extras, id).Some?
              ensures id in s.ring.nodes ==> Configured(up + extras, id) == Some(s.ring.nodes[id])
    {
      ConfiguredConcat(up, extras, id);
      ConfiguredAmong(c.workers, NotUnhealthy(s), id);
      assert ExtraAt(c, s.ring, extras, id);
      if Configured(c.workers, id).Some? { SettledMember(c, steps, id); }
    }
    RingOf(c.params, up + extras, s.ring);
  }

  // ----- route -----

  function Ids(workers: seq<Node>): (ids: seq<string>)
    ensures |ids| == |workers|
  {
    seq(|workers|, i requires 0 <= i < |workers| => workers[i].nodeId)
  }

  lemma IdIn(workers: seq<Node>, id: string)
    requires Configured(workers, id).Some?
    ensures id in Ids(workers)
  {
    ConfiguredHasId(workers, id);
    var i :| 0 <= i < |workers| && workers[i] == Configured(workers, id).value;
    assert Ids(workers)[i] == id;
  }

  lemma {:induction false} DistinctShorter(s: seq<string>, t: seq<string>)
    requires Distinct(s) && forall x | x in s :: x in t
    ensures |s| <= |t|
  {
    if s != [] {
      var x, rest := s[|s| - 1], s[..|s| - 1];
      SplitLast(s);
      assert x in s;
      var keep := (y: string) => y != x;
      FilterDrops(t, x);
      forall y | y in rest ensures y in Filter(t, keep) {
        assert y in s;
        FilterIn(t, keep, y);
      }
      DistinctShorter(rest, Filter(t, keep));
    }
  }

  lemma {:induction false} FilterDrops(t: seq<string>, x: string)
    ensures |Filter(t, (y: string) => y != x)| <= |t|
    ensures x in t ==> |Filter(t, (y: string) => y != x)| < |t|
  {
    if t != [] {
      FilterDrops(t[..|t| - 1], x);
      SplitLast(t);
    }
  }

  /** Without autoscaled workers the ring has at most as many nodes as WORKER_NODES, so route sees them all. */
  lemma {:induction false} OrderFits(c: Setup, steps: seq<Step>, key: string)
    requires NoJoins(steps)
    ensures |Order(c.params, Reach(c, steps).ring, key)| <= |c.workers|
  {
    var s := Reach(c, steps);
    RingAlways(c, steps);
    OrderElements(c.params, s.ring, key, "");
    forall x | x in Order(c.params, s.ring, key) ensures x in Ids(c.workers) {
      OrderElements(c.params, s.ring, key, x);
      OnlyWorkers(c, steps, x);
      IdIn(c.workers, x);
    }
    DistinctShorter(Order(c.params, s.ring, key), Ids(c.workers));
  }

  /** The ids, configured or added, that are not HEALTHY. */
  function Sick(all: seq<Node>, s: State): seq<string> {
    Filter(Ids(all), (x: string) => x !in Healthy(s))
  }

  lemma SickLaw(all: seq<Node>, s: State, id: string)
    requires Configured(all, id).Some?
    ensures id in Sick(all, s) <==> id !in Healthy(s)
  {
    hide Configured, Healthy;
    FilterIn(Ids(all), (x: string) => x !in Healthy(s), id);
    IdIn(all, id);
  }

  /** The nodes of a settled ring, configured or added. */
  lemma KnownNode(c: Setup, steps: seq<Step>, extras: seq<Node>, id: string)
    requires Settled(c, steps) && Extras(c, Reach(c, steps).ring, extras)
    ensures var s, all := Reach(c, steps), c.workers + extras;
            && (id in s.ring.nodes ==> Configured(all, id) == Some(s.ring.nodes[id]))
            && (id in Healthy(s) && Configured(all, id).Some? ==> id in s.ring.nodes)
  {
    hide Settled, Reach, Configured;
    ConfiguredConcat(c.workers, extras, id);
    assert ExtraAt(c, Reach(c, steps).ring, extras, id);
    if Configured(c.workers, id).Some? { SettledMember(c, steps, id); }
  }

  /** Without the sick, a settled ring is the start-up ring of the HEALTHY nodes. */
  lemma HealthyPart(c: Setup, steps: seq<Step>, extras: seq<Node>)
    requires Settled(c, steps) && Extras(c, Reach(c, steps).ring, extras)
    ensures var s, all := Reach(c, steps), c.workers + extras;
            R.RemoveAll(c.params, s.ring, Sick(all, s)) == StartRing(c.params, Among(all, Healthy(s)))
  {
    hide *;
    var s, all := Reach(c, steps), c.workers + extras;
    var q := R.RemoveAll(c.params, s.ring, Sick(all, s));
    RingAlways(c, steps);
    R.RemoveAllOrder(c.params, s.ring, Sick(all, s), "");
    forall id ensures id in q.nodes <==> Configured(Among(all, Healthy(s)), id).Some?
              ensures id in q.nodes ==> Configured(Among(all, Healthy(s)), id) == Some(q.nodes[id])
    {
      KnownNode(c, steps, extras, id);
      ConfiguredAmong(all, Healthy(s), id);
      if Configured(all, id).Some? { SickLaw(all, s, id); }
    }
    RingOf(c.params, Among(all, Healthy(s)), q);
  }

  lemma HealthyIs(s: State)
    ensures Healthy(s) == set id | id in s.states && s.states[id].status == H.HEALTHY
  {}

  /** Before any probe has succeeded nobody is HEALTHY: right after start-up every request fails. */
  lemma {:induction false} ColdStart(c: Setup, n: int, key: string)
    ensures R.Route(c.params, Start(c).ring, Healthy(Start(c)), n, key).None?
  {
    forall id ensures id !in Healthy(Start(c)) { StartLaw(c.params, c.workers, id); }
    hide Healthy, Start;
    R.FirstInIsHead(Limit(Order(c.params, Start(c).ring, key), n), Healthy(Start(c)));
  }

  /**
   Routing in a settled run: whenever a candidate is HEALTHY, a request goes where its key would belong if the
   ring had been made of the HEALTHY nodes alone, configured or added by the autoscaler; otherwise it fails.
   */
  lemma {:induction false} RouteLaw(c: Setup, steps: seq<Step>, extras: seq<Node>, key: string)
    requires Settled(c, steps) && Extras(c, Reach(c, steps).ring, extras)
    ensures var s, n := Reach(c, steps), |c.workers|;
            var up := set id | id in s.states && s.states[id].status == H.HEALTHY;
            R.Route(c.params, s.ring, Healthy(s), n, key)
            == if exists id :: id in Limit(Order(c.params, s.ring, key), n) && id in up
               then GetNode(c.params, StartRing(c.params, Among(c.workers + extras, up)), key)
               else None
  {
    HealthyIs(Reach(c, steps));
    hide *;
    var s, all := Reach(c, steps), c.workers + extras;
    RingAlways(c, steps);
    forall id | id in s.ring.nodes ensures id in Healthy(s) <==> id !in Sick(all, s) {
      KnownNode(c, steps, extras, id);
      SickLaw(all, s, id);
    }
    R.RouteIsHealthyOwner(c.params, s.ring, Healthy(s), |c.workers|, key, Sick(all, s));
    HealthyPart(c, steps, extras);
  }

  /** No node met clockwise is healthy: the ring of the HEALTHY nodes has no owner for the key. */
  lemma NoneHealthy(c: Setup, steps: seq<Step>, extras: seq<Node>, key: string)
    requires Settled(c, steps) && Extras(c, Reach(c, steps).ring, extras)
    requires forall id | id in Order(c.params, Reach(c, steps).ring, key) :: id !in Healthy(Reach(c, steps))
    ensures GetNode(c.params, StartRing(c.params, Among(c.workers + extras, Healthy(Reach(c, steps)))), key).None?
  {
    hide *;
    var s, p, all := Reach(c, steps), c.params, c.workers + extras;
    var sick := Sick(all, s);
    var order, q := Order(p, s.ring, key), R.RemoveAll(p, s.ring, sick);
    RingAlways(c, steps);
    R.RemoveAllOrder(p, s.ring, sick, key);
    OwnerIsFirst(p, q, key);
    HealthyPart(c, steps, extras);
    if Order(p, q, key) != [] {
      var id := Order(p, q, key)[0];
      FilterIn(order, (x: string) => x !in sick, id);
      OwnerIsFirst(p, s.ring, key);
      KnownNode(c, steps, extras, id);
      SickLaw(all, s, id);
    }
  }

  /**
   As long as the ring holds at most as many nodes as WORKER_NODES, and so in every run without autoscaled
   workers, no proviso is needed: the request goes to the owner among the HEALTHY nodes.
   */
  lemma {:induction false} RouteWhole(c: Setup, steps: seq<Step>, extras: seq<Node>, key: string)
    requires Settled(c, steps) && Extras(c, Reach(c, steps).ring, extras)
    requires |Order(c.params, Reach(c, steps).ring, key)| <= |c.workers|
    ensures var s := Reach(c, steps);
            var up := set id | id in s.states && s.states[id].status == H.HEALTHY;
            R.Route(c.params, s.ring, Healthy(s), |c.workers|, key)
            == GetNode(c.params, StartRing(c.params, Among(c.workers + extras, up)), key)
  {
    var s := Reach(c, steps);
    HealthyIs(s);
    var order := Order(c.params, s.ring, key);
    assert Limit(order, |c.workers|) == order;
    hide *;
    RouteLaw(c, steps, extras, key);
    if !exists id :: id in order && id in Healthy(s) { NoneHealthy(c, steps, extras, key); }
  }

  /**
   With at least one virtual node per node, the request then fails exactly when no node, configured or added, is
   HEALTHY.
   */
  lemma {:induction false} RouteServes(c: Setup, steps: seq<Step>, extras: seq<Node>, key: string)
    requires Settled(c, steps) && Extras(c, Reach(c, steps).ring, extras)
    requires |Order(c.params, Reach(c, steps).ring, key)| <= |c.workers|
    requires forall w | w in c.workers + extras :: TotalVnodes(c.params, w) >= 1
    ensures var s := Reach(c, steps);
            R.Route(c.params, s.ring, Healthy(s), |c.workers|, key).None?
            <==> forall w | w in c.workers + extras ::
                   !(w.nodeId in s.states && s.states[w.nodeId].status == H.HEALTHY)
  {
    HealthyIs(Reach(c, steps));
    hide Healthy, Settled, Extras, Reach, StartRing, RingInv, Order, GetNode, R.Route, AddNode, TotalVnodes;
    var s, all := Reach(c, steps), c.workers + extras;
    RouteWhole(c, steps, extras, key);
    OwnedAmong(c.params, all, Healthy(s), key);
  }

  /** A ring of the nodes with these ids has an owner for a key exactly when there is such a node. */
  lemma OwnedAmong(p: Params, all: seq<Node>, ids: set<string>, key: string)
    requires forall w | w in all :: TotalVnodes(p, w) >= 1
    ensures GetNode(p, StartRing(p, Among(all, ids)), key).None? <==> forall w | w in all :: w.nodeId !in ids
  {
    hide StartRing, RingInv, Order, GetNode, AddNode, TotalVnodes;
    var some := Among(all, ids);
    var q := StartRing(p, some);
    StartLaw(p, some, "");
    forall id | id in q.nodes ensures TotalVnodes(p, q.nodes[id]) >= 1 {
      StartLaw(p, some, id);
      ConfiguredHasId(some, id);
      FilterIn(all, (w: Node) => w.nodeId in ids, q.nodes[id]);
    }
    OrderIsAllNodes(p, q, key);
    OwnerIsFirst(p, q, key);
    forall id ensures id in q.nodes <==> id in ids && exists w :: w in all && w.nodeId == id {
      StartLaw(p, some, id);
      ConfiguredAmong(all, ids, id);
      if Configured(all, id).Some? { ConfiguredHasId(all, id); }
      if w :| w in all && w.nodeId == id { ConfiguredFinds(all, w); }
    }
  }

  lemma {:induction false} ConfiguredFinds(workers: seq<Node>, w: Node)
    requires w in workers
    ensures Configured(workers, w.nodeId).Some?
  {
    if workers[0].nodeId != w.nodeId { ConfiguredFinds(workers[1..], w); }
  }

  /**
   Session affinity over two moments of any two runs without autoscaled workers: if w serves a key in the one and
   is HEALTHY in the other, and every configured worker HEALTHY in the other was HEALTHY in the one, then w
   serves the key again.
   */
  lemma {:induction false} SessionAffinity(c: Setup, steps1: seq<Step>, steps2: seq<Step>, key: string, w: Node)
    requires Settled(c, steps1) && NoJoins(steps1) && Settled(c, steps2) && NoJoins(steps2)
    requires R.Route(c.params, Reach(c, steps1).ring, Healthy(Reach(c, steps1)), |c.workers|, key) == Some(w)
    requires HasStatus(Reach(c, steps2), w.nodeId, H.HEALTHY)
    requires forall x | x in c.workers && HasStatus(Reach(c, steps2), x.nodeId, H.HEALTHY) ::
               HasStatus(Reach(c, steps1), x.nodeId, H.HEALTHY)
    ensures R.Route(c.params, Reach(c, steps2).ring, Healthy(Reach(c, steps2)), |c.workers|, key) == Some(w)
  {
    var s1, s2 := Reach(c, steps1), Reach(c, steps2);
    var p, n := c.params, |c.workers|;
    ServedIs(c, steps1, key, w);
    hide *;
    RingAlways(c, steps1);
    RingAlways(c, steps2);
    OrderFits(c, steps2, key);
    NoExtras(c, steps1);
    NoExtras(c, steps2);
    forall id | id in s2.ring.nodes && id in Healthy(s2)
      ensures id in s1.ring.nodes && id in Healthy(s1) && s1.ring.nodes[id] == s2.ring.nodes[id]
    {
      OnlyWorkers(c, steps2, id);
      ConfiguredHasId(c.workers, id);
      WorkerOn(c, steps1, id);
      WorkerOn(c, steps2, id);
    }
    WorkerOn(c, steps2, w.nodeId);
    R.Affinity(p, s1.ring, Healthy(s1), n, s2.ring, Healthy(s2), n, key, w);
  }

  /** A HEALTHY configured worker is on the settled ring with its configured record. */
  lemma WorkerOn(c: Setup, steps: seq<Step>, id: string)
    requires Settled(c, steps) && Configured(c.workers, id).Some? && id in Healthy(Reach(c, steps))
    ensures id in Reach(c, steps).ring.nodes && Some(Reach(c, steps).ring.nodes[id]) == Configured(c.workers, id)
  {
    hide Settled, Reach, Configured;
    SettledMember(c, steps, id);
  }

  /** What route answers in a run without autoscaled workers is a configured worker. */
  lemma ServedIs(c: Setup, steps: seq<Step>, key: string, w: Node)
    requires NoJoins(steps)
    requires R.Route(c.params, Reach(c, steps).ring, Healthy(Reach(c, steps)), |c.workers|, key) == Some(w)
    ensures Configured(c.workers, w.nodeId).Some?
  {
    hide Reach, RingInv, Order, Configured;
    var r := Reach(c, steps).ring;
    RingAlways(c, steps);
    RingNames(c.params, r);
    OnlyWorkers(c, steps, w.nodeId);
  }

  lemma RingNames(p: Params, r: Ring)
    requires RingInv(p, r)
    ensures forall id | id in r.nodes :: r.nodes[id].nodeId == id
  {}
}
