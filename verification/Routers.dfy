/** The router's objects, updated in place. */
module Routers {
  import opened Wrappers
  import opened HashRing
  import opened Cluster
  import Autoscaler
  import Decimal
  import H = Heartbeat
  import R = Router
  import opened Autoscalers
  import opened ConsistentHashing
  import opened HeartbeatMonitors
  import opened PidControllers

  /** Node.address. */
  function Address(node: Node): string
    requires node.port >= 0
  {
    "http://" + node.host + ":" + Decimal.Render(node.port)
  }

  function StatesOf(nodes: map<string, HeartbeatMonitors.Record>): map<string, H.NodeState> {
    map id | id in nodes :: nodes[id].state
  }

  function ExistingOf(workers: seq<Node>): (existing: seq<Autoscaler.Existing>)
    requires forall w | w in workers :: w.port >= 0
    ensures |existing| == |workers|
  {
    seq(|workers|, i requires 0 <= i < |workers| => Autoscaler.Existing(workers[i].nodeId, workers[i].port))
  }

  lemma StartSnoc(p: Params, workers: seq<Node>, i: nat)
    requires i < |workers| && forall w | w in workers :: w.port >= 0
    ensures StartRing(p, workers[..i + 1]) == HashRing.AddNode(p, StartRing(p, workers[..i]), workers[i])
    ensures StartStates(workers[..i + 1]) == StartStates(workers[..i])[workers[i].nodeId := H.REGISTERED]
    ensures Autoscaler.Start(ExistingOf(workers[..i + 1]))
            == Autoscaler.RegisterExisting(Autoscaler.Start(ExistingOf(workers[..i])), workers[i].nodeId,
                workers[i].port)
  {
    assert workers[..i + 1][..i] == workers[..i];
    assert ExistingOf(workers[..i + 1])[..i] == ExistingOf(workers[..i]);
  }

  lemma AllCounted(workers: seq<Node>)
    requires forall w | w in workers :: w.port >= 0
    ensures var s := Autoscaler.Start(ExistingOf(workers));
            forall w | w in workers :: w.nodeId in Autoscaler.Names(s.workers) && w.port < s.nextPort
  {
    var existing := ExistingOf(workers);
    var s := Autoscaler.Start(existing);
    Autoscaler.StartCounts(existing);
    forall w | w in workers ensures w.nodeId in Autoscaler.Names(s.workers) && w.port < s.nextPort {
      var i :| 0 <= i < |workers| && workers[i] == w;
      assert existing[i] == Autoscaler.Existing(w.nodeId, w.port);
    }
  }

  class Router {
    const workerNodes: seq<Node>
    const ring: ConsistentHashRing
    const monitor: HeartbeatMonitor
    const autoscaler: AutoscalerLoop
    var pending: seq<Callback>
    ghost var raised: seq<Callback>
    ghost var delivered: seq<Callback>

    ghost predicate Valid()
      reads ring
    {
      ring.Valid() && forall w | w in workerNodes :: w.port >= 0
    }

    ghost function Settings(): Setup {
      Setup(ring.params, monitor.thresholds, workerNodes)
    }

    ghost function View(): State
      reads this, ring, monitor
    {
      State(ring.View(), StatesOf(monitor.nodes), pending, raised, delivered)
    }

    /** A ring, a monitor and an autoscaler are made, and every worker is registered with all three. */
    constructor (workerNodes: seq<Node>, params: Params, thresholds: H.Thresholds, limits: Autoscaler.Limits,
        pid: PIDController)
      requires forall w | w in workerNodes :: w.port >= 0
      ensures Valid() && fresh(ring) && fresh(monitor) && fresh(autoscaler)
      ensures Settings() == Setup(params, thresholds, workerNodes)
      ensures View() == Start(Settings())
      ensures autoscaler.View() == Autoscaler.Start(ExistingOf(workerNodes))
      ensures forall w | w in workerNodes ::
                w.nodeId in Autoscaler.Names(autoscaler.workers) && w.port < autoscaler.nextPort
    {
      this.workerNodes := workerNodes;
      ring := new ConsistentHashRing(params);
      monitor := new HeartbeatMonitor(thresholds);
      autoscaler := new AutoscalerLoop(limits, pid);
      pending, raised, delivered := [], [], [];
      new;
      RegisterAll();
      AllCounted(workerNodes);
    }

    /** The start-up loop. */
    method RegisterAll()
      requires Valid() && ring.View() == EMPTY_RING && monitor.nodes == map[] && autoscaler.View() == Autoscaler.FRESH
      modifies ring, monitor, autoscaler
      ensures Valid() && ring.View() == StartRing(ring.params, workerNodes)
      ensures StatesOf(monitor.nodes) == StartStates(workerNodes)
      ensures autoscaler.View() == Autoscaler.Start(ExistingOf(workerNodes))
    {
      hide HashRing.AddNode, Autoscaler.RegisterExisting, RingInv;
      for i := 0 to |workerNodes|
        invariant Valid() && ring.View() == StartRing(ring.params, workerNodes[..i])
        invariant StatesOf(monitor.nodes) == StartStates(workerNodes[..i])
        invariant autoscaler.View() == Autoscaler.Start(ExistingOf(workerNodes[..i]))
      {
        var node := workerNodes[i];
        StartSnoc(ring.params, workerNodes, i);
        ring.AddNode(node);
        monitor.Register(node.nodeId, Address(node));
        autoscaler.RegisterExisting(node.nodeId, node.port);
      }
      assert workerNodes[..|workerNodes|] == workerNodes;
    }

    /** One health check; a callback it raises gets a thread. */
    method CheckNode(nodeId: string, success: bool, now: real)
      requires Valid()
      modifies this, monitor
      ensures Valid() && View() == Next(Settings(), old(View()), Probe(nodeId, success))
    {
      var event := monitor.Check(nodeId, success, now);
      if event.Some? {
        pending := pending + [Callback(nodeId, event.value)];
        raised := raised + [Callback(nodeId, event.value)];
      }
    }

    method OnNodeDown(nodeId: string)
      requires Valid()
      modifies ring
      ensures Valid() && ring.View() == Handle(Settings(), old(ring.View()), Callback(nodeId, H.Down))
    {
      ring.RemoveNode(nodeId);
    }

    method OnNodeUp(nodeId: string)
      requires Valid()
      modifies ring
      ensures Valid() && ring.View() == Handle(Settings(), old(ring.View()), Callback(nodeId, H.Up))
    {
      var node := Configured(workerNodes, nodeId);
      if node.Some? { ring.AddNode(node.value); }
    }

    /** The i-th callback thread runs. */
    method RunCallback(i: nat)
      requires Valid() && i < |pending|
      modifies this, ring
      ensures Valid() && View() == Next(Settings(), old(View()), Deliver(i))
    {
      var cb := pending[i];
      if cb.event == H.Up { OnNodeUp(cb.nodeId); } else { OnNodeDown(cb.nodeId); }
      pending := pending[..i] + pending[i + 1..];
      delivered := delivered + [cb];
    }

    /** The autoscaler's _add_to_ring, for a worker it started. */
    method AddToRing(node: Node)
      requires Valid() && node.port >= 0
      modifies ring, monitor
      ensures Valid() && View() == Next(Settings(), Next(Settings(), old(View()), Join(node)), Watch(node.nodeId))
      ensures ring.nodes == if node.nodeId in old(ring.nodes) then old(ring.nodes)
                            else old(ring.nodes)[node.nodeId := node]
      ensures var address := "http://" + node.host + ":" + Decimal.Render(node.port);
              monitor.nodes
              == old(monitor.nodes)[node.nodeId :=
                   HeartbeatMonitors.Record(address, H.NodeState(H.UNKNOWN, 0), None, 0, 0)]
    {
      ring.AddNode(node);
      monitor.Register(node.nodeId, Address(node));
    }

    /** A healthy node for a session, or None for the 503 error. */
    method Route(sessionId: string) returns (r: Option<Node>)
      requires Valid()
      ensures r == R.Route(ring.params, ring.View(), Healthy(View()), |workerNodes|, sessionId)
      ensures var ids := Limit(Order(ring.params, ring.View(), sessionId), |workerNodes|);
              var nodes := monitor.nodes;
              if r.Some? then
                exists i | 0 <= i < |ids| && ids[i] == r.value.nodeId ::
                  && ids[i] in nodes && nodes[ids[i]].state.status == H.HEALTHY
                  && forall j | 0 <= j < i && ids[j] in nodes :: nodes[ids[j]].state.status != H.HEALTHY
              else forall j | 0 <= j < |ids| && ids[j] in nodes :: nodes[ids[j]].state.status != H.HEALTHY
    {
      ghost var ids := Limit(Order(ring.params, ring.View(), sessionId), |workerNodes|);
      var candidates := ring.GetNodesForKey(sessionId, |workerNodes|);
      hide Order, Limit, RingInv;
      for i := 0 to |candidates|
        invariant R.FirstIn(ids, Healthy(View())) == R.FirstIn(ids[i..], Healthy(View()))
        invariant forall j | 0 <= j < i && ids[j] in monitor.nodes :: monitor.nodes[ids[j]].state.status != H.HEALTHY
      {
        var node := candidates[i];
        assert node == ring.nodes[ids[i]];
        assert node.nodeId == ids[i];
        assert ids[i..][1..] == ids[i + 1..];
        if monitor.IsHealthy(node.nodeId) { return Some(node); }
      }
      return None;
    }
  }
}
