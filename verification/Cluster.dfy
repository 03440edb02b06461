/**
 The router's ring and monitor together (router/router.py): start-up registration, health checks that raise
 callbacks, and callbacks that add and remove ring members. A callback runs in a thread of its own, so it is a
 step that comes some time after the check that raised it; the order of those steps is left open.
 */
module Cluster {
  import opened Wrappers
  import opened Seqs
  import opened HashRing
  import H = Heartbeat

  /** WORKER_NODES and what the ring and the monitor are made with. */
  datatype Setup = Setup(params: Params, thresholds: H.Thresholds, workers: seq<Node>)

  datatype Callback = Callback(nodeId: string, event: H.Event)

  /** `pending` are the callback threads yet to act; `raised` and `delivered` are history. */
  datatype State = State(ring: Ring, states: map<string, H.NodeState>, pending: seq<Callback>,
                         raised: seq<Callback>, delivered: seq<Callback>)

  /** Join, Watch and Leave are what the autoscaler does to ring and monitor for workers of its own. */
  datatype Step = Probe(nodeId: string, success: bool) | Deliver(i: nat)
                | Join(node: Node) | Watch(nodeId: string) | Leave(nodeId: string)

  /** The first of WORKER_NODES with this id. */
  function Configured(workers: seq<Node>, id: string): Option<Node> {
    if workers == [] then None
    else if workers[0].nodeId == id then Some(workers[0])
    else Configured(workers[1..], id)
  }

  function StartRing(p: Params, workers: seq<Node>): Ring {
    if workers == [] then EMPTY_RING else AddNode(p, StartRing(p, workers[..|workers| - 1]), workers[|workers| - 1])
  }

  function StartStates(workers: seq<Node>): map<string, H.NodeState> {
    if workers == [] then map[]
        else StartStates(workers[..|workers| - 1])[workers[|workers| - 1].nodeId := H.REGISTERED]
  }

  function Start(c: Setup): State {
    State(StartRing(c.params, c.workers), StartStates(c.workers), [], [], [])
  }

  /** on_node_down and on_node_up; an id that is not configured makes the latter raise and change nothing. */
  function Handle(c: Setup, r: Ring, cb: Callback): Ring {
    match cb.event
    case Down => RemoveNode(c.params, r, cb.nodeId)
    case Up =>
      match Configured(c.workers, cb.nodeId)
      case None => r
      case Some(node) => AddNode(c.params, r, node)
  }

  function Without(s: seq<Callback>, i: nat): seq<Callback>
    requires i < |s|
  {
    s[..i] + s[i + 1..]
  }

  function RaisedBy(nodeId: string, event: Option<H.Event>): seq<Callback> {
    if event.Some? then [Callback(nodeId, event.value)] else []
  }

  function Next(c: Setup, s: State, e: Step): State {
    match e
    case Probe(id, success) =>
      if id !in s.states then s
      else
        var r := H.Check(c.thresholds, s.states[id], success);
        s.(states := s.states[id := r.state], pending := s.pending + RaisedBy(id, r.event),
            raised := s.raised + RaisedBy(id, r.event))
    case Deliver(i) =>
      if i >= |s.pending| then s
      else s.(ring := Handle(c, s.ring, s.pending[i]), pending := Without(s.pending, i),
          delivered := s.delivered + [s.pending[i]])
    case Join(node) => s.(ring := AddNode(c.params, s.ring, node))
    case Watch(id) => s.(states := s.states[id := H.REGISTERED])
    case Leave(id) => s.(ring := RemoveNode(c.params, s.ring, id))
  }

  function Reach(c: Setup, steps: seq<Step>): State {
    if steps == [] then Start(c) else Next(c, Reach(c, steps[..|steps| - 1]), steps[|steps| - 1])
  }

  /** The autoscaler's own workers have other ids than the configured ones. */
  predicate Allowed(c: Setup, e: Step) {
    match e
    case Join(node) => Configured(c.workers, node.nodeId).None?
    case Watch(id) => Configured(c.workers, id).None?
    case Leave(id) => Configured(c.workers, id).None?
    case _ => true
  }

  ghost predicate AllAllowed(c: Setup, steps: seq<Step>) {
    forall e | e in steps :: Allowed(c, e)
  }

  // ----- Start-up -----

  lemma {:induction false} ConfiguredSnoc(workers: seq<Node>, w: Node, id: string)
    ensures var before := Configured(workers, id);
            Configured(workers + [w], id) == if before.Some? then before else if w.nodeId == id then Some(w) else None
  {
    if workers != [] {
      assert (workers + [w])[1..] == workers[1..] + [w];
      ConfiguredSnoc(workers[1..], w, id);
    }
  }

  /** Start-up puts every configured worker on the ring and registers it, the first of several with one id. */
  lemma {:induction false} StartLaw(p: Params, workers: seq<Node>, id: string)
    ensures RingInv(p, StartRing(p, workers))
    ensures id in StartRing(p, workers).nodes <==> Configured(workers, id).Some?
    ensures id in StartRing(p, workers).nodes ==> Configured(workers, id) == Some(StartRing(p, workers).nodes[id])
    ensures id in StartStates(workers) <==> Configured(workers, id).Some?
    ensures id in StartStates(workers) ==> StartStates(workers)[id] == H.REGISTERED
  {
    if workers == [] {
      RunInv(p, []);
    } else {
      hide RingInv;
      var front, w := workers[..|workers| - 1], workers[|workers| - 1];
      StartLaw(p, front, id);
      AddNodeInv(p, StartRing(p, front), w);
      ConfiguredSnoc(front, w, id);
      assert front + [w] == workers;
    }
  }

  lemma {:induction false} ConfiguredHasId(workers: seq<Node>, id: string)
    requires Configured(workers, id).Some?
    ensures Configured(workers, id).value in workers && Configured(workers, id).value.nodeId == id
  {
    if workers[0].nodeId != id { ConfiguredHasId(workers[1..], id); }
  }

  // ----- Every run, whatever the order of the callbacks -----

  /** The events of one node among a list of callbacks. */
  function EventsOf(callbacks: seq<Callback>, id: string): seq<H.Event> {
    if callbacks == [] then []
    else
      var last := callbacks[|callbacks| - 1];
      EventsOf(callbacks[..|callbacks| - 1], id) + if last.nodeId == id then [last.event] else []
  }

  /** What a list of callbacks leaves a configured worker: on the ring unless the last one is Down. */
  predicate LeavesIn(events: seq<H.Event>) {
    events == [] || events[|events| - 1] == H.Up
  }

  /** The probe results of one node in a run. */
  function Results(steps: seq<Step>, id: string): seq<bool> {
    if steps == [] then []
    else
      var last := steps[|steps| - 1];
      Results(steps[..|steps| - 1], id) + if last.Probe? && last.nodeId == id then [last.success] else []
  }

  lemma {:induction false} EventsConcat(a: seq<Callback>, b: seq<Callback>, id: string)
    ensures EventsOf(a + b, id) == EventsOf(a, id) + EventsOf(b, id)
  {
    if b == [] {
      assert a + b == a;
    } else {
      assert (a + b)[..|a| + |b| - 1] == a + b[..|b| - 1];
      EventsConcat(a, b[..|b| - 1], id);
    }
  }

  lemma EventsSnoc(callbacks: seq<Callback>, cb: Callback, id: string)
    ensures EventsOf(callbacks + [cb], id) == EventsOf(callbacks, id) + if cb.nodeId == id then [cb.event] else []
  {
    assert (callbacks + [cb])[..|callbacks|] == callbacks;
  }

  /** A configured worker is on the ring, with its configured record, exactly when its callbacks leave it there. */
  ghost predicate Member(c: Setup, s: State, id: string) {
    && (id in s.ring.nodes <==> LeavesIn(EventsOf(s.delivered, id)))
    && (id in s.ring.nodes ==> Configured(c.workers, id) == Some(s.ring.nodes[id]))
  }

  lemma HandleKeeps(c: Setup, r: Ring, cb: Callback)
    requires RingInv(c.params, r)
    ensures RingInv(c.params, Handle(c, r, cb))
  {
    match cb.event
    case Down => RemoveNodeInv(c.params, r, cb.nodeId);
    case Up =>
      if Configured(c.workers, cb.nodeId).Some? { AddNodeInv(c.params, r, Configured(c.workers, cb.nodeId).value); }
  }

  lemma RingKept(c: Setup, s: State, e: Step)
    requires RingInv(c.params, s.ring)
    ensures RingInv(c.params, Next(c, s, e).ring)
  {
    hide RingInv, RemoveNode, AddNode, Handle;
    match e
    case Deliver(i) => if i < |s.pending| { HandleKeeps(c, s.ring, s.pending[i]); }
    case Join(node) => AddNodeInv(c.params, s.ring, node);
    case Leave(id) => RemoveNodeInv(c.params, s.ring, id);
    case _ =>
  }

  lemma MemberKept(c: Setup, s: State, e: Step, id: string)
    requires Member(c, s, id) && Allowed(c, e) && Configured(c.workers, id).Some?
    ensures Member(c, Next(c, s, e), id)
  {
    hide AddVnodes, VnodeSet, EventsOf, Filter;
    if e.Deliver? && e.i < |s.pending| {
      var cb := s.pending[e.i];
      EventsSnoc(s.delivered, cb, id);
      if Configured(c.workers, cb.nodeId).Some? { ConfiguredHasId(c.workers, cb.nodeId); }
    }
  }

  function EventList(event: Option<H.Event>): seq<H.Event> {
    if event.Some? then [event.value] else []
  }

  lemma ReachSnoc(c: Setup, steps: seq<Step>, e: Step, id: string)
    ensures Reach(c, steps + [e]) == Next(c, Reach(c, steps), e)
    ensures Results(steps + [e], id) == Results(steps, id) + if e.Probe? && e.nodeId == id then [e.success] else []
    ensures AllAllowed(c, steps + [e]) ==> AllAllowed(c, steps) && Allowed(c, e)
  {
    hide Next, Allowed;
    assert (steps + [e])[..|steps|] == steps;
    assert e in steps + [e] && forall x | x in steps :: x in steps + [e];
  }

  lemma HistorySnoc(th: H.Thresholds, n: H.NodeState, results: seq<bool>, success: bool)
    ensures var r := H.Check(th, H.After(th, n, results), success);
            && H.After(th, n, results + [success]) == r.state
            && H.Events(th, n, results + [success]) == H.Events(th, n, results) + EventList(r.event)
  {
    hide H.Check;
    assert (results + [success])[..|results|] == results;
  }

  /** One step seen by one configured worker's record. */
  lemma RecordStep(c: Setup, s: State, e: Step, id: string)
    requires id in s.states && Allowed(c, e) && Configured(c.workers, id).Some?
    ensures var q := Next(c, s, e);
            && id in q.states
            && if e.Probe? && e.nodeId == id then
                 var r := H.Check(c.thresholds, s.states[id], e.success);
                 q.states[id] == r.state && EventsOf(q.raised, id) == EventsOf(s.raised, id) + EventList(r.event)
               else q.states[id] == s.states[id] && EventsOf(q.raised, id) == EventsOf(s.raised, id)
  {
    hide H.Check, EventsOf, Handle, AddNode, RemoveNode;
    if e.Probe? && e.nodeId in s.states {
      var r := H.Check(c.thresholds, s.states[e.nodeId], e.success);
      if r.event.Some? {
        EventsSnoc(s.raised, Callback(e.nodeId, r.event.value), id);
      } else {
        assert s.raised + [] == s.raised;
      }
    }
  }

  /** The monitor's record of a configured worker is its state machine run on its own probe results. */
  lemma {:induction false} WorkerHistory(c: Setup, steps: seq<Step>, id: string)
    requires AllAllowed(c, steps) && Configured(c.workers, id).Some?
    ensures var s, results := Reach(c, steps), Results(steps, id);
            && id in s.states && s.states[id] == H.After(c.thresholds, H.REGISTERED, results)
            && EventsOf(s.raised, id) == H.Events(c.thresholds, H.REGISTERED, results)
  {
    if steps == [] {
      StartLaw(c.params, c.workers, id);
    } else {
      hide *;
      var front, e := steps[..|steps| - 1], steps[|steps| - 1];
      assert steps == front + [e];
      ReachSnoc(c, front, e, id);
      WorkerHistory(c, front, id);
      RecordStep(c, Reach(c, front), e, id);
      if e.Probe? && e.nodeId == id {
        HistorySnoc(c.thresholds, H.REGISTERED, Results(front, id), e.success);
      } else {
        assert Results(front, id) + [] == Results(front, id);
      }
    }
  }

  lemma {:induction false} MemberAlways(c: Setup, steps: seq<Step>, id: string)
    requires AllAllowed(c, steps) && Configured(c.workers, id).Some?
    ensures RingInv(c.params, Reach(c, steps).ring) && Member(c, Reach(c, steps), id)
  {
    if steps == [] {
      StartLaw(c.params, c.workers, id);
    } else {
      hide *;
      var front, e := steps[..|steps| - 1], steps[|steps| - 1];
      assert steps == front + [e];
      ReachSnoc(c, front, e, id);
      MemberAlways(c, front, id);
      RingKept(c, Reach(c, front), e);
      MemberKept(c, Reach(c, front), e, id);
    }
  }

  lemma AlternatingEnds(events: seq<H.Event>)
    requires H.Alternating(events)
    ensures LeavesIn(events) <==> events == [] || |events| % 2 == 1
  {
    if events != [] { assert events[|events| - 1] == if (|events| - 1) % 2 == 0 then H.Up else H.Down; }
  }

  /**
   Whatever the order in which the callbacks act: a configured worker is on the ring exactly when the last
   callback delivered for it is not Down, and its status is not UNHEALTHY exactly when the last one raised is
   not Down. Callbacks of one worker alternate, starting with Up.
   */
  lemma {:induction false} MembershipLaw(c: Setup, steps: seq<Step>, id: string)
    requires c.thresholds.Valid() && AllAllowed(c, steps) && Configured(c.workers, id).Some?
    ensures var s := Reach(c, steps);
            && (id in s.ring.nodes <==> LeavesIn(EventsOf(s.delivered, id)))
            && id in s.states && (s.states[id].status != H.UNHEALTHY <==> LeavesIn(EventsOf(s.raised, id)))
            && H.Alternating(EventsOf(s.raised, id))
  {
    hide Reach, EventsOf, Results, Configured, AllAllowed, RingInv, LeavesIn, H.Alternating, H.After, H.Events, H.Check;
    MemberAlways(c, steps, id);
    WorkerHistory(c, steps, id);
    H.EventsAlternate(c.thresholds, Results(steps, id));
    AlternatingEnds(EventsOf(Reach(c, steps).raised, id));
  }

  // ----- Callbacks applied in the order raised -----

  /** No earlier callback of the same node is still pending. */
  ghost predicate InOrder(s: State, e: Step) {
    e.Deliver? && e.i < |s.pending| ==> forall j | 0 <= j < e.i :: s.pending[j].nodeId != s.pending[e.i].nodeId
  }

  /** Each node's callbacks act in the order raised; callbacks of different nodes may pass each other. */
  ghost predicate Ordered(c: Setup, steps: seq<Step>) {
    forall k: nat | k < |steps| :: OrderedAt(c, steps, k)
  }

  ghost predicate OrderedAt(c: Setup, steps: seq<Step>, k: nat)
    requires k < |steps|
  {
    InOrder(Reach(c, steps[..k]), steps[k])
  }

  lemma OrderedSnoc(c: Setup, steps: seq<Step>, e: Step)
    requires Ordered(c, steps + [e])
    ensures Ordered(c, steps) && InOrder(Reach(c, steps), e)
  {
    hide InOrder, Reach;
    var all := steps + [e];
    assert OrderedAt(c, all, |steps|) && all[..|steps|] == steps;
    forall k: nat | k < |steps| ensures OrderedAt(c, steps, k) {
      assert OrderedAt(c, all, k) && all[..k] == steps[..k];
    }
  }

  lemma {:induction false} NoEvents(callbacks: seq<Callback>, id: string)
    requires forall j | 0 <= j < |callbacks| :: callbacks[j].nodeId != id
    ensures EventsOf(callbacks, id) == []
  {
    if callbacks != [] { NoEvents(callbacks[..|callbacks| - 1], id); }
  }

  /** Taking a pending callback takes it out of its own node's events, at the front when it is in order. */
  lemma EventsWithout(pending: seq<Callback>, i: nat, id: string)
    requires i < |pending|
    requires forall j | 0 <= j < i :: pending[j].nodeId != pending[i].nodeId
    ensures EventsOf(pending, id)
            == (if pending[i].nodeId == id then [pending[i].event] else []) + EventsOf(Without(pending, i), id)
  {
    var a, x, b := pending[..i], pending[i], pending[i + 1..];
    assert pending == (a + [x]) + b;
    EventsConcat(a + [x], b, id);
    EventsSnoc(a, x, id);
    EventsConcat(a, b, id);
    if x.nodeId == id { NoEvents(a, id); }
  }

  /** What was raised for a node is what was delivered followed by what is pending. */
  lemma Backlog(c: Setup, s: State, e: Step, id: string)
    requires EventsOf(s.raised, id) == EventsOf(s.delivered, id) + EventsOf(s.pending, id)
    requires InOrder(s, e)
    ensures var q := Next(c, s, e); EventsOf(q.raised, id) == EventsOf(q.delivered, id) + EventsOf(q.pending, id)
  {
    hide EventsOf, Handle, AddNode, RemoveNode, H.Check, Without;
    match e
    case Probe(nodeId, success) =>
      if nodeId in s.states {
        var more := RaisedBy(nodeId, H.Check(c.thresholds, s.states[nodeId], success).event);
        EventsConcat(s.raised, more, id);
        EventsConcat(s.pending, more, id);
      }
    case Deliver(i) =>
      if i < |s.pending| {
        EventsWithout(s.pending, i, id);
        EventsSnoc(s.delivered, s.pending[i], id);
      }
    case _ =>
  }

  lemma {:induction false} BacklogAlways(c: Setup, steps: seq<Step>, id: string)
    requires Ordered(c, steps)
    ensures var s := Reach(c, steps); EventsOf(s.raised, id) == EventsOf(s.delivered, id) + EventsOf(s.pending, id)
  {
    if steps != [] {
      hide *;
      var front, e := steps[..|steps| - 1], steps[|steps| - 1];
      assert steps == front + [e];
      OrderedSnoc(c, front, e);
      ReachSnoc(c, front, e, id);
      BacklogAlways(c, front, id);
      Backlog(c, Reach(c, front), e, id);
    }
  }

  lemma LeavesConcat(a: seq<H.Event>, b: seq<H.Event>)
    ensures LeavesIn(a + b) <==> if b == [] then LeavesIn(a) else b[|b| - 1] == H.Up
  {
    if b == [] { assert a + b == a; }
  }

  /**
   With each worker's callbacks acting in the order raised, whatever the autoscaler adds and removes in
   between: a configured worker with no callback pending is on the ring if and only if it is not UNHEALTHY,
   and with some pending, the last of them decides.
   */
  lemma {:induction false} InOrderLaw(c: Setup, steps: seq<Step>, id: string)
    requires c.thresholds.Valid() && AllAllowed(c, steps) && Ordered(c, steps) && Configured(c.workers, id).Some?
    ensures var s := Reach(c, steps);
            && id in s.states
            && var waiting := EventsOf(s.pending, id);
               s.states[id].status != H.UNHEALTHY
               <==> if waiting == [] then id in s.ring.nodes else waiting[|waiting| - 1] == H.Up
  {
    hide *;
    MembershipLaw(c, steps, id);
    BacklogAlways(c, steps, id);
    LeavesConcat(EventsOf(Reach(c, steps).delivered, id), EventsOf(Reach(c, steps).pending, id));
  }

  // ----- Who is healthy -----

  ghost predicate HasStatus(s: State, id: string, status: H.Status) {
    id in s.states && s.states[id].status == status
  }

  function Healthy(s: State): set<string> {
    set id | id in s.states && s.states[id].status == H.HEALTHY
  }

  function NotUnhealthy(s: State): set<string> {
    set id | id in s.states && s.states[id].status != H.UNHEALTHY
  }
}
