/**
 The autoscaler's bookkeeping (metrics/autoscaler.py): which workers are counted, which port comes next,
 and when the last scale event was. Clock readings and the outcome of a spawn are parameters.
 */
module Autoscaler {
  import opened Seqs
  import Decimal
  import Pid

  /** An entry of the worker dictionary, in insertion order; an owned worker has a process handle. */
  datatype Worker = Worker(nodeId: string, owned: bool)

  datatype Event = ScaleUp(at: real, nodeId: string, port: nat) | ScaleDown(at: real, nodeId: string)

  datatype Limits = Limits(minWorkers: int, maxWorkers: int, up: real, down: real, cooldown: real)

  /** `started` and `stopped` list the ids of processes spawned and terminated so far; they are history, not state. */
  datatype Scaler = Scaler(workers: seq<Worker>, nextPort: nat, lastScale: real, events: seq<Event>,
                           started: seq<string>, stopped: seq<string>)

  /** Readings of one tick: the clock at the cooldown test and at the event, and whether the spawn worked. */
  datatype Tick = Tick(output: real, checkedAt: real, stampedAt: real, spawned: bool)

  const FIRST_PORT: nat := 8003

  const FRESH := Scaler([], FIRST_PORT, 0.0, [], [], [])

  function AutoId(port: nat): string {
    "worker-auto-" + Decimal.Render(port)
  }

  lemma AutoIdInjective(p: nat, q: nat)
    requires AutoId(p) == AutoId(q)
    ensures p == q
  {
    assert AutoId(p)[12..] == Decimal.Render(p) && AutoId(q)[12..] == Decimal.Render(q);
    Decimal.RenderInjective(p, q);
  }

  /** Dictionary assignment: a key already present keeps its place. */
  function Put(workers: seq<Worker>, w: Worker): seq<Worker> {
    if workers == [] then [w]
    else if workers[0].nodeId == w.nodeId then [w] + workers[1..]
    else [workers[0]] + Put(workers[1..], w)
  }

  function RegisterExisting(s: Scaler, nodeId: string, port: nat): Scaler {
    s.(workers := Put(s.workers, Worker(nodeId, false)),
       nextPort := if port + 1 > s.nextPort then port + 1 else s.nextPort)
  }

  /** The event is logged and the port used up before the spawn; a failed spawn adds no worker. */
  function Grow(s: Scaler, at: real, spawned: bool): Scaler {
    var port, nodeId := s.nextPort, AutoId(s.nextPort);
    var logged := s.(nextPort := port + 1, lastScale := at, events := s.events + [ScaleUp(at, nodeId, port)]);
    if spawned then logged.(workers := Put(s.workers, Worker(nodeId, true)), started := s.started + [nodeId])
        else logged
  }

  function Owned(workers: seq<Worker>): seq<Worker> {
    Filter(workers, (w: Worker) => w.owned)
  }

  /** The first owned worker in insertion order goes; with none, nothing happens. */
  function Shrink(s: Scaler, at: real): Scaler {
    var owned := Owned(s.workers);
    if owned == [] then s
    else
      var nodeId := owned[0].nodeId;
      s.(workers := Filter(s.workers, (w: Worker) => w.nodeId != nodeId), lastScale := at,
         events := s.events + [ScaleDown(at, nodeId)], stopped := s.stopped + [nodeId])
  }

  function Step(l: Limits, s: Scaler, t: Tick): Scaler {
    if t.checkedAt - s.lastScale < l.cooldown then s
    else if t.output >= l.up && |s.workers| < l.maxWorkers then Grow(s, t.stampedAt, t.spawned)
    else if t.output <= l.down && |s.workers| > l.minWorkers then Shrink(s, t.stampedAt)
    else s
  }

  function Run(l: Limits, s: Scaler, ticks: seq<Tick>): Scaler {
    if ticks == [] then s else Step(l, Run(l, s, ticks[..|ticks| - 1]), ticks[|ticks| - 1])
  }

  // ----- Start-up -----

  datatype Existing = Existing(nodeId: string, port: nat)

  /** Ids of workers started elsewhere do not look like the autoscaler's own. */
  ghost predicate Foreign(nodeId: string) {
    forall p: nat :: nodeId != AutoId(p)
  }

  function Start(existing: seq<Existing>): Scaler {
    if existing == [] then FRESH
    else RegisterExisting(Start(existing[..|existing| - 1]), existing[|existing| - 1].nodeId,
        existing[|existing| - 1].port)
  }

  // ----- What every tick keeps -----

  function Names(workers: seq<Worker>): (ids: seq<string>)
    ensures |ids| == |workers|
  {
    seq(|workers|, i requires 0 <= i < |workers| => workers[i].nodeId)
  }

  /** Every spawned worker's id carries a port already used up, in increasing order. */
  ghost predicate PortsBelow(ids: seq<string>, bound: nat) {
    forall i | 0 <= i < |ids| :: UsesPort(ids[i], bound)
  }

  ghost predicate UsesPort(id: string, bound: nat) {
    exists p: nat :: p < bound && id == AutoId(p)
  }

  ghost predicate Inv(s: Scaler) {
    && Distinct(Names(s.workers))
    && s.started == s.stopped + Names(Owned(s.workers))
    && PortsBelow(s.started, s.nextPort)
    && (forall w | w in s.workers && !w.owned :: Foreign(w.nodeId))
  }

  lemma {:induction false} PutNew(workers: seq<Worker>, w: Worker)
    requires w.nodeId !in Names(workers)
    ensures Put(workers, w) == workers + [w]
  {
    if workers != [] {
      assert Names(workers)[0] == workers[0].nodeId;
      assert Names(workers)[1..] == Names(workers[1..]);
      PutNew(workers[1..], w);
    }
  }

  lemma {:induction false} PutExisting(workers: seq<Worker>, w: Worker)
    requires w.nodeId in Names(workers)
    ensures Names(Put(workers, w)) == Names(workers)
    ensures forall x | x in Put(workers, w) :: x == w || x in workers
  {
    assert Names(workers)[0] == workers[0].nodeId;
    if workers[0].nodeId != w.nodeId {
      assert Names(workers) == [workers[0].nodeId] + Names(workers[1..]);
      PutExisting(workers[1..], w);
    }
  }

  /** A list of workers with one more at the end. */
  lemma NamesSnoc(workers: seq<Worker>, w: Worker)
    ensures Names(workers + [w]) == Names(workers) + [w.nodeId]
    ensures forall id :: id in Names(workers + [w]) <==> id in Names(workers) || id == w.nodeId
    ensures Distinct(Names(workers + [w])) <==> Distinct(Names(workers)) && w.nodeId !in Names(workers)
  {
    var names := Names(workers);
    assert Names(workers + [w]) == names + [w.nodeId];
    DistinctSnoc(names, w.nodeId);
  }

  lemma NamesOf(workers: seq<Worker>, w: Worker)
    requires w in workers
    ensures w.nodeId in Names(workers)
  {
    var i :| 0 <= i < |workers| && workers[i] == w;
    assert Names(workers)[i] == w.nodeId;
  }

  lemma OwnedIn(workers: seq<Worker>, w: Worker)
    ensures w in Owned(workers) <==> w in workers && w.owned
  {
    FilterIn(workers, (x: Worker) => x.owned, w);
  }

  /** A port not yet used up names no worker. */
  lemma NextIdIsNew(s: Scaler, port: nat)
    requires Inv(s) && port >= s.nextPort
    ensures AutoId(port) !in Names(s.workers)
  {
    if AutoId(port) in Names(s.workers) {
      var i :| 0 <= i < |s.workers| && Names(s.workers)[i] == AutoId(port);
      var w := s.workers[i];
      assert w in s.workers && w.nodeId == AutoId(port);
      if w.owned {
        OwnedIn(s.workers, w);
        NamesOf(Owned(s.workers), w);
        assert w.nodeId in s.started;
        var k :| 0 <= k < |s.started| && s.started[k] == w.nodeId;
        assert UsesPort(s.started[k], s.nextPort);
        var p: nat :| p < s.nextPort && s.started[k] == AutoId(p);
        AutoIdInjective(p, port);
      }
      assert false;
    }
  }

  lemma UsesPortUpTo(ids: seq<string>, port: nat)
    requires PortsBelow(ids, port)
    ensures PortsBelow(ids, port + 1) && PortsBelow(ids + [AutoId(port)], port + 1)
  {
    assert UsesPort(AutoId(port), port + 1);
    forall i | 0 <= i < |ids| ensures UsesPort(ids[i], port + 1) {
      assert UsesPort(ids[i], port);
      var p: nat :| p < port && ids[i] == AutoId(p);
      assert p < port + 1;
    }
  }

  lemma OwnedSnoc(workers: seq<Worker>, w: Worker)
    ensures Owned(workers + [w]) == if w.owned then Owned(workers) + [w] else Owned(workers)
  {
    FilterSnoc(workers, w, (x: Worker) => x.owned);
  }

  lemma GrowKeeps(s: Scaler, at: real, spawned: bool)
    requires Inv(s)
    ensures Inv(Grow(s, at, spawned))
    ensures Grow(s, at, spawned).workers == if spawned then s.workers + [Worker(AutoId(s.nextPort), true)]
            else s.workers
  {
    hide Names, Owned, Put, PortsBelow, Foreign, AutoId, Distinct;
    var w := Worker(AutoId(s.nextPort), true);
    UsesPortUpTo(s.started, s.nextPort);
    if spawned {
      NextIdIsNew(s, s.nextPort);
      PutNew(s.workers, w);
      OwnedSnoc(s.workers, w);
      NamesSnoc(s.workers, w);
      NamesSnoc(Owned(s.workers), w);
      assert forall x | x in s.workers + [w] :: x in s.workers || x == w;
    }
  }

  /** With distinct names, filtering one name out removes exactly that worker. */
  lemma {:induction false} RemoveOne(workers: seq<Worker>, id: string)
    requires Distinct(Names(workers))
    ensures var r := Filter(workers, (w: Worker) => w.nodeId != id);
            && |r| == |workers| - (if id in Names(workers) then 1 else 0)
            && Distinct(Names(r))
            && forall x :: x in Names(r) <==> x in Names(workers) && x != id
  {
    if workers != [] {
      var front, w := workers[..|workers| - 1], workers[|workers| - 1];
      var keep := (x: Worker) => x.nodeId != id;
      SplitLast(workers);
      NamesSnoc(front, w);
      RemoveOne(front, id);
      FilterSnoc(front, w, keep);
      if w.nodeId != id { NamesSnoc(Filter(front, keep), w); }
    }
  }

  lemma {:induction false} NoneNamed(workers: seq<Worker>, id: string)
    requires id !in Names(workers)
    ensures Filter(workers, (w: Worker) => w.nodeId != id) == workers
  {
    forall w | w in workers ensures w.nodeId != id { NamesOf(workers, w); }
    FilterAll(workers, (w: Worker) => w.nodeId != id);
  }

  /** With distinct names, filtering one name out leaves the list around it. */
  lemma {:induction false} WithoutOne(workers: seq<Worker>, k: nat, id: string)
    requires Distinct(Names(workers)) && k < |workers| && workers[k].nodeId == id
    ensures Filter(workers, (w: Worker) => w.nodeId != id) == workers[..k] + workers[k + 1..]
  {
    hide *;
    var n := |workers| - 1;
    var front, w := workers[..n], workers[n];
    SplitLast(workers);
    NamesSnoc(front, w);
    FilterSnoc(front, w, (x: Worker) => x.nodeId != id);
    if k == n {
      NoneNamed(front, id);
      assert front == workers[..k] + workers[k + 1..];
    } else {
      assert front[k] in front;
      NamesOf(front, front[k]);
      WithoutOne(front, k, id);
      AroundSnoc(front, w, k);
    }
  }

  lemma AroundSnoc(front: seq<Worker>, w: Worker, k: nat)
    requires k < |front|
    ensures (front + [w])[..k] + (front + [w])[k + 1..] == front[..k] + front[k + 1..] + [w]
  {}

  lemma RemoveHead(workers: seq<Worker>, id: string)
    requires workers != [] && Distinct(Names(workers)) && workers[0].nodeId == id
    ensures Filter(workers, (w: Worker) => w.nodeId != id) == workers[1..]
  {
    WithoutOne(workers, 0, id);
    hide *;
    assert workers[..0] + workers[1..] == workers[1..];
  }

  lemma {:induction false} OwnedDistinct(workers: seq<Worker>)
    requires Distinct(Names(workers))
    ensures Distinct(Names(Owned(workers)))
    ensures forall x | x in Names(Owned(workers)) :: x in Names(workers)
  {
    if workers != [] {
      var front, w := workers[..|workers| - 1], workers[|workers| - 1];
      SplitLast(workers);
      NamesSnoc(front, w);
      OwnedDistinct(front);
      FilterSnoc(front, w, (x: Worker) => x.owned);
      if w.owned { NamesSnoc(Owned(front), w); }
    }
  }

  /** Taking one worker out and picking the owned ones commute. */
  lemma OwnedWithout(workers: seq<Worker>, id: string)
    ensures Owned(Filter(workers, (w: Worker) => w.nodeId != id))
            == Filter(Owned(workers), (w: Worker) => w.nodeId != id)
  {
    FilterSwap(workers, (w: Worker) => w.nodeId != id, (w: Worker) => w.owned);
  }

  lemma ShrinkKeeps(s: Scaler, at: real)
    requires Inv(s)
    ensures Inv(Shrink(s, at))
    ensures |Shrink(s, at).workers| == |s.workers| - if Owned(s.workers) == [] then 0 else 1
    ensures forall w | w in s.workers && !w.owned :: w in Shrink(s, at).workers
  {
    var owned := Owned(s.workers);
    if owned != [] {
      var r, id := Shrink(s, at), owned[0].nodeId;
      OwnedDistinct(s.workers);
      assert owned[0] in owned;
      NamesOf(owned, owned[0]);
      RemoveOne(s.workers, id);
      OwnedAfter(s.workers, id);
      assert s.stopped + ([id] + Names(owned[1..])) == (s.stopped + [id]) + Names(owned[1..]);
      hide Names, Owned, Distinct, AutoId, PortsBelow;
      forall w | w in s.workers && !w.owned ensures w in r.workers { KeepsForeign(s, w, id); }
      forall w | w in r.workers ensures w in s.workers { FilterIn(s.workers, (x: Worker) => x.nodeId != id, w); }
    }
  }

  /** The owned workers once the oldest of them is gone. */
  lemma OwnedAfter(workers: seq<Worker>, id: string)
    requires Distinct(Names(workers)) && Owned(workers) != [] && Owned(workers)[0].nodeId == id
    ensures Owned(Filter(workers, (w: Worker) => w.nodeId != id)) == Owned(workers)[1..]
    ensures Names(Owned(workers)) == [id] + Names(Owned(workers)[1..])
  {
    hide Owned, Distinct;
    OwnedDistinct(workers);
    OwnedWithout(workers, id);
    RemoveHead(Owned(workers), id);
  }

  /** A worker of someone else's never has the id of an owned one. */
  lemma KeepsForeign(s: Scaler, w: Worker, id: string)
    requires Inv(s) && w in s.workers && !w.owned && id in Names(Owned(s.workers))
    ensures w in Filter(s.workers, (x: Worker) => x.nodeId != id)
  {
    FilterIn(s.workers, (x: Worker) => x.nodeId != id, w);
    assert id in s.started;
    var k :| 0 <= k < |s.started| && s.started[k] == id;
    assert UsesPort(s.started[k], s.nextPort);
    var p: nat :| p < s.nextPort && s.started[k] == AutoId(p);
  }

  lemma StepKeeps(l: Limits, s: Scaler, t: Tick)
    requires Inv(s)
    ensures Inv(Step(l, s, t))
    ensures forall w | w in s.workers && !w.owned :: w in Step(l, s, t).workers
  {
    GrowKeeps(s, t.stampedAt, t.spawned);
    ShrinkKeeps(s, t.stampedAt);
  }

  lemma {:induction false} NoneOwned(workers: seq<Worker>)
    requires forall w | w in workers :: !w.owned
    ensures Owned(workers) == []
  {
    if workers != [] {
      assert workers[|workers| - 1] in workers;
      assert forall w | w in workers[..|workers| - 1] :: w in workers;
      NoneOwned(workers[..|workers| - 1]);
    }
  }

  /** Registering one worker: it is counted, the others keep their places, and its port is behind us. */
  lemma RegisterCounts(s: Scaler, nodeId: string, port: nat)
    ensures var r := RegisterExisting(s, nodeId, port);
            && r.nextPort == (if port >= s.nextPort then port + 1 else s.nextPort)
            && (nodeId !in Names(s.workers) ==> r.workers == s.workers + [Worker(nodeId, false)])
            && (nodeId in Names(s.workers) ==>
                  Names(r.workers) == Names(s.workers)
                  && forall x | x in r.workers :: x == Worker(nodeId, false) || x in s.workers)
            && (forall id :: id in Names(r.workers) <==> id in Names(s.workers) || id == nodeId)
  {
    var w := Worker(nodeId, false);
    if nodeId in Names(s.workers) {
      PutExisting(s.workers, w);
    } else {
      PutNew(s.workers, w);
      NamesSnoc(s.workers, w);
    }
  }

  /** Every worker registered at start-up is counted, and the next port is above all of theirs. */
  lemma {:induction false} StartCounts(existing: seq<Existing>)
    ensures forall i | 0 <= i < |existing| :: existing[i].nodeId in Names(Start(existing).workers)
    ensures forall i | 0 <= i < |existing| :: existing[i].port < Start(existing).nextPort
    ensures 8003 <= Start(existing).nextPort
  {
    if existing != [] {
      var front, e := existing[..|existing| - 1], existing[|existing| - 1];
      StartCounts(front);
      RegisterCounts(Start(front), e.nodeId, e.port);
      hide RegisterExisting, Names;
      assert forall i | 0 <= i < |front| :: existing[i] == front[i];
    }
  }

  lemma FreshInv()
    ensures Inv(FRESH)
  {}

  /** Registering one more worker at start-up. */
  lemma RegisterKeeps(s: Scaler, e: Existing)
    requires Inv(s) && s.started == [] && s.stopped == [] && Foreign(e.nodeId) && forall w | w in s.workers :: !w.owned
    ensures var r := RegisterExisting(s, e.nodeId, e.port);
            && Inv(r) && (forall w | w in r.workers :: !w.owned)
            && r.started == [] && r.stopped == [] && r.events == s.events
  {
    var r, w := RegisterExisting(s, e.nodeId, e.port), Worker(e.nodeId, false);
    RegisterCounts(s, e.nodeId, e.port);
    if e.nodeId !in Names(s.workers) { NamesSnoc(s.workers, w); }
    NoneOwned(r.workers);
  }

  lemma {:induction false} StartKeeps(existing: seq<Existing>)
    requires forall i | 0 <= i < |existing| :: Foreign(existing[i].nodeId)
    ensures Inv(Start(existing))
    ensures forall w | w in Start(existing).workers :: !w.owned
    ensures Start(existing).started == [] && Start(existing).stopped == [] && Start(existing).events == []
  {
    FreshInv();
    hide RegisterExisting, Inv, Foreign, AutoId;
    if existing != [] {
      var front := existing[..|existing| - 1];
      StartKeeps(front);
      RegisterKeeps(Start(front), existing[|existing| - 1]);
    }
  }

  lemma {:induction false} RunKeeps(l: Limits, s: Scaler, ticks: seq<Tick>)
    requires Inv(s)
    ensures Inv(Run(l, s, ticks))
    ensures forall w | w in s.workers && !w.owned :: w in Run(l, s, ticks).workers
    ensures l.minWorkers <= |s.workers| <= l.maxWorkers ==> l.minWorkers <= |Run(l, s, ticks).workers| <= l.maxWorkers
  {
    if ticks != [] {
      var q, t := Run(l, s, ticks[..|ticks| - 1]), ticks[|ticks| - 1];
      RunKeeps(l, s, ticks[..|ticks| - 1]);
      StepKeeps(l, q, t);
      GrowKeeps(q, t.stampedAt, t.spawned);
      ShrinkKeeps(q, t.stampedAt);
    }
  }

  /**
   Over every run after start-up: headcount stays within its limits if it starts there, owned workers stop
   oldest first (the stopped are a prefix of the started), and workers started elsewhere are never stopped.
   */
  lemma {:induction false} FleetLaw(l: Limits, existing: seq<Existing>, ticks: seq<Tick>)
    requires forall i | 0 <= i < |existing| :: Foreign(existing[i].nodeId)
    ensures var s0, s := Start(existing), Run(l, Start(existing), ticks);
            && (l.minWorkers <= |s0.workers| <= l.maxWorkers ==> l.minWorkers <= |s.workers| <= l.maxWorkers)
            && s.stopped <= s.started
            && s.started == s.stopped + Names(Owned(s.workers))
            && (forall i | 0 <= i < |existing| ::
                  existing[i].nodeId in Names(s.workers) && existing[i].nodeId !in s.stopped)
  {
    var s0, s := Start(existing), Run(l, Start(existing), ticks);
    StartKeeps(existing);
    StartCounts(existing);
    RunKeeps(l, s0, ticks);
    forall i | 0 <= i < |existing| ensures existing[i].nodeId in Names(s.workers) && existing[i].nodeId !in s.stopped {
      var id := existing[i].nodeId;
      var k :| 0 <= k < |s0.workers| && Names(s0.workers)[k] == id;
      assert s0.workers[k] in s0.workers;
      NamesOf(s.workers, s0.workers[k]);
      assert Foreign(id);
      assert forall j | 0 <= j < |s.stopped| :: s.stopped[j] == s.started[j];
    }
  }

  // ----- What exactly one tick does -----

  /** The oldest owned worker, and the list without it. */
  lemma OldestOwned(s: Scaler) returns (k: nat)
    requires Inv(s) && exists w :: w in s.workers && w.owned
    ensures k < |s.workers| && s.workers[k].owned && (forall i | 0 <= i < k :: !s.workers[i].owned)
    ensures Owned(s.workers) != [] && Owned(s.workers)[0] == s.workers[k]
    ensures Filter(s.workers, (w: Worker) => w.nodeId != s.workers[k].nodeId) == s.workers[..k] + s.workers[k + 1..]
  {
    k := FirstOwned(s.workers);
    WithoutOne(s.workers, k, s.workers[k].nodeId);
  }

  lemma {:induction false} FirstOwned(workers: seq<Worker>) returns (k: nat)
    requires exists w :: w in workers && w.owned
    ensures k < |workers| && workers[k].owned && (forall i | 0 <= i < k :: !workers[i].owned)
    ensures Owned(workers) != [] && Owned(workers)[0] == workers[k]
  {
    var w, rest := workers[0], workers[1..];
    assert workers == [w] + rest;
    FilterConcat([w], rest, (x: Worker) => x.owned);
    assert [w][..0] == [];
    if w.owned { return 0; }
    k := FirstOwned(rest);
    k := k + 1;
  }

  /**
   Outside the cooldown, a high output with room for a worker uses up the next port and starts a worker on it, at the
   end of the list; otherwise a low output with a worker to spare stops the oldest owned one, if any is owned; each
   stamps the time and logs the event. In every other case nothing changes.
   */
  lemma {:induction false} TickDecides(l: Limits, s: Scaler, t: Tick)
    requires Inv(s)
    ensures var q := Step(l, s, t);
            var awake := t.checkedAt - s.lastScale >= l.cooldown;
            var grows := awake && t.output >= l.up && |s.workers| < l.maxWorkers;
            var shrinks := awake && !grows && t.output <= l.down && |s.workers| > l.minWorkers
                           && exists w :: w in s.workers && w.owned;
            var nodeId := "worker-auto-" + Decimal.Render(s.nextPort);
            && (grows ==>
                  && q.events == s.events + [ScaleUp(t.stampedAt, nodeId, s.nextPort)]
                  && q.nextPort == s.nextPort + 1 && q.lastScale == t.stampedAt && q.stopped == s.stopped
                  && q.workers == s.workers + (if t.spawned then [Worker(nodeId, true)] else [])
                  && q.started == s.started + (if t.spawned then [nodeId] else []))
            && (shrinks ==>
                  exists k |
                    0 <= k < |s.workers| && s.workers[k].owned && (forall i | 0 <= i < k :: !s.workers[i].owned) ::
                    && q.workers == s.workers[..k] + s.workers[k + 1..]
                    && q.events == s.events + [ScaleDown(t.stampedAt, s.workers[k].nodeId)]
                    && q.stopped == s.stopped + [s.workers[k].nodeId] && q.started == s.started
                    && q.lastScale == t.stampedAt && q.nextPort == s.nextPort)
            && (!grows && !shrinks ==> q == s)
  {
    GrowKeeps(s, t.stampedAt, t.spawned);
    ShrinkTakes(s, t.stampedAt);
    hide Inv, Names, Put, Owned, Filter;
  }

  /** What stopping a worker does. */
  lemma ShrinkTakes(s: Scaler, at: real)
    requires Inv(s)
    ensures var q := Shrink(s, at);
            if exists w :: w in s.workers && w.owned then
              exists k |
                0 <= k < |s.workers| && s.workers[k].owned && (forall i | 0 <= i < k :: !s.workers[i].owned) ::
                && q.workers == s.workers[..k] + s.workers[k + 1..]
                && q.events == s.events + [ScaleDown(at, s.workers[k].nodeId)]
                && q.stopped == s.stopped + [s.workers[k].nodeId] && q.started == s.started
                && q.lastScale == at && q.nextPort == s.nextPort
            else q == s
  {
    if exists w :: w in s.workers && w.owned {
      var k := OldestOwned(s);
      hide Inv, Owned, Filter;
    } else {
      NoneOwned(s.workers);
    }
  }

  // ----- Pacing and ports -----

  ghost predicate Spaced(events: seq<Event>, cooldown: real) {
    forall i, j | 0 <= i < j == i + 1 < |events| :: events[i].at + cooldown <= events[j].at
  }

  /** Ports of spawn attempts strictly increase from `lo` and stay below `hi`. */
  ghost predicate PortsRise(events: seq<Event>, lo: nat, hi: nat) {
    forall j | 0 <= j < |events| && events[j].ScaleUp? ::
      && lo <= events[j].port < hi && events[j].nodeId == AutoId(events[j].port)
      && forall i | 0 <= i < j && events[i].ScaleUp? :: events[i].port < events[j].port
  }

  ghost predicate Paced(l: Limits, s: Scaler, lo: nat) {
    && Spaced(s.events, l.cooldown)
    && (s.events != [] ==> s.lastScale == s.events[|s.events| - 1].at)
    && PortsRise(s.events, lo, s.nextPort)
    && lo <= s.nextPort
  }

  /** The clock does not run backwards between the cooldown test and the event. */
  ghost predicate Clocked(ticks: seq<Tick>) {
    forall i | 0 <= i < |ticks| :: ticks[i].checkedAt <= ticks[i].stampedAt
  }

  lemma EventSnoc(events: seq<Event>, e: Event, cooldown: real, lo: nat, hi: nat)
    requires Spaced(events, cooldown) && PortsRise(events, lo, hi) && lo <= hi
    requires events != [] ==> events[|events| - 1].at + cooldown <= e.at
    requires e.ScaleUp? ==> e.port == hi && e.nodeId == AutoId(hi)
    ensures Spaced(events + [e], cooldown) && PortsRise(events + [e], lo, if e.ScaleUp? then hi + 1 else hi)
  {
    hide AutoId;
  }

  lemma StepPaced(l: Limits, s: Scaler, lo: nat, t: Tick)
    requires Paced(l, s, lo) && t.checkedAt <= t.stampedAt
    ensures Paced(l, Step(l, s, t), lo)
  {
    if t.checkedAt - s.lastScale >= l.cooldown {
      EventSnoc(s.events, ScaleUp(t.stampedAt, AutoId(s.nextPort), s.nextPort), l.cooldown, lo, s.nextPort);
      if Owned(s.workers) != [] {
        EventSnoc(s.events, ScaleDown(t.stampedAt, Owned(s.workers)[0].nodeId), l.cooldown, lo, s.nextPort);
      }
    }
    hide Spaced, PortsRise, AutoId, Owned;
  }

  lemma {:induction false} RunPaced(l: Limits, s: Scaler, lo: nat, ticks: seq<Tick>)
    requires Paced(l, s, lo) && Clocked(ticks)
    ensures Paced(l, Run(l, s, ticks), lo)
  {
    hide Paced, Step;
    if ticks != [] {
      RunPaced(l, s, lo, ticks[..|ticks| - 1]);
      StepPaced(l, Run(l, s, ticks[..|ticks| - 1]), lo, ticks[|ticks| - 1]);
    }
  }

  lemma {:induction false} SpacedFar(events: seq<Event>, cooldown: real, i: nat, j: nat)
    requires Spaced(events, cooldown) && i <= j < |events|
    ensures events[i].at + (j - i) as real * cooldown <= events[j].at
  {
    if i < j {
      SpacedFar(events, cooldown, i, j - 1);
      assert events[j - 1].at + cooldown <= events[j].at;
      assert (j - i) as real * cooldown == (j - 1 - i) as real * cooldown + cooldown;
    }
  }

  /** The events from i to j lie within the span. */
  ghost predicate Within(events: seq<Event>, from: real, span: real, i: nat, j: nat) {
    i <= j < |events| && from <= events[i].at && events[j].at <= from + span
  }

  lemma SpanHolds(events: seq<Event>, cooldown: real, from: real, span: real, i: nat, j: nat)
    requires cooldown > 0.0 && Spaced(events, cooldown) && Within(events, from, span, i, j)
    ensures j - i + 1 <= (span / cooldown).Floor + 1
  {
    SpacedFar(events, cooldown, i, j);
    Quotient((j - i) as real, cooldown, span);
  }

  /**
   Successive scale events are at least a cooldown apart, so a span of length T holds at most
   floor(T / cooldown) + 1 of them; spawned ports strictly increase, above every registered port.
   */
  lemma {:induction false} PacingLaw(l: Limits, existing: seq<Existing>, ticks: seq<Tick>)
    requires (forall k | 0 <= k < |existing| :: Foreign(existing[k].nodeId)) && Clocked(ticks) && l.cooldown > 0.0
    ensures var s := Run(l, Start(existing), ticks);
            && Spaced(s.events, l.cooldown)
            && PortsRise(s.events, Start(existing).nextPort, s.nextPort)
            && (forall k | 0 <= k < |existing| :: existing[k].port < Start(existing).nextPort)
            && forall from: real, span: real, i: nat, j: nat | Within(s.events, from, span, i, j) ::
                 j - i + 1 <= (span / l.cooldown).Floor + 1
  {
    var s := Run(l, Start(existing), ticks);
    StartKeeps(existing);
    StartCounts(existing);
    RunPaced(l, Start(existing), Start(existing).nextPort, ticks);
    hide Run, Start, Spaced, Within, PortsRise, Foreign;
    forall from: real, span: real, i: nat, j: nat | Within(s.events, from, span, i, j)
      ensures j - i + 1 <= (span / l.cooldown).Floor + 1
    {
      SpanHolds(s.events, l.cooldown, from, span, i, j);
    }
  }

  lemma Quotient(a: real, c: real, t: real)
    requires c > 0.0 && a * c <= t
    ensures a <= t / c
  {
    assert t / c * c == t;
    Pid.LeqCancel(a, t / c, c);
  }

  // ----- Driven by the PID controller -----

  /** One tick of the loop: the depth read, the controller's clock, and the tick's own readings. */
  datatype Input = Input(depth: real, pidAt: real, checkedAt: real, stampedAt: real, spawned: bool)

  datatype Loop = Loop(pid: Pid.State, scaler: Scaler)

  function LoopStep(g: Pid.Gains, l: Limits, c: Loop, x: Input): Loop {
    var r := Pid.Update(g, c.pid, x.depth, x.pidAt);
    Loop(r.state, Step(l, c.scaler, Tick(r.u, x.checkedAt, x.stampedAt, x.spawned)))
  }

  function LoopRun(g: Pid.Gains, l: Limits, c: Loop, xs: seq<Input>): Loop {
    if xs == [] then c else LoopStep(g, l, LoopRun(g, l, c, xs[..|xs| - 1]), xs[|xs| - 1])
  }

  function Samples(xs: seq<Input>): (samples: seq<Pid.Sample>)
    ensures |samples| == |xs|
  {
    seq(|xs|, i requires 0 <= i < |xs| => Pid.Sample(xs[i].depth, xs[i].pidAt))
  }

  lemma {:induction false} LoopPid(g: Pid.Gains, l: Limits, c: Loop, xs: seq<Input>)
    ensures LoopRun(g, l, c, xs).pid == Pid.Run(g, c.pid, Samples(xs))
    ensures xs != [] ==> LoopRun(g, l, c, xs).pid.lastError == xs[|xs| - 1].depth - g.target
  {
    if xs != [] {
      LoopPid(g, l, c, xs[..|xs| - 1]);
      assert Samples(xs)[..|xs| - 1] == Samples(xs[..|xs| - 1]);
    }
  }

  ghost predicate NonDecreasing(g: Pid.Gains, xs: seq<Input>) {
    && (forall i | 0 <= i < |xs| :: xs[i].depth >= g.target)
    && (forall i, j | 0 <= i < j < |xs| :: xs[i].depth <= xs[j].depth)
  }

  /** A loop whose limits and gains are of the sign the cluster uses. */
  ghost predicate Sensible(g: Pid.Gains, l: Limits) {
    && g.kp > 0.0 && g.ki > 0.0 && g.kd > 0.0 && g.integralMax >= 0.0
    && g.outputMin <= l.down < g.outputMax && l.down < 0.0
  }

  /** Load that never falls never costs a worker, over the whole run. */
  lemma {:induction false} RisingLoadKeepsWorkers(g: Pid.Gains, l: Limits, start: real, s: Scaler, xs: seq<Input>)
    requires Sensible(g, l) && NonDecreasing(g, xs)
    ensures LoopRun(g, l, Loop(Pid.Initial(start), s), xs).scaler.stopped == s.stopped
  {
    if xs != [] {
      var front, x, c := xs[..|xs| - 1], xs[|xs| - 1], Loop(Pid.Initial(start), s);
      RisingLoadKeepsWorkers(g, l, start, s, front);
      LoopPid(g, l, c, front);
      assert forall i | 0 <= i < |front| :: Samples(front)[i].measured == xs[i].depth;
      Pid.RisingLoadNeverLow(g, start, Samples(front), x.depth, x.pidAt, l.down);
      if front != [] { assert xs[|front| - 1].depth <= x.depth; }
    }
  }

  /**
   A tick that stops a worker is one on which the depth fell by at least
   (kp * e + ki * integral - threshold) * dt / kd.
   */
  lemma {:induction false} ShrinkMeansDrop(g: Pid.Gains, l: Limits, c: Loop, x: Input, e: real, dt: real,
      integral: real)
    requires g.kd > 0.0 && g.outputMin <= l.down < g.outputMax
    requires LoopStep(g, l, c, x).scaler.stopped != c.scaler.stopped
    requires e == x.depth - g.target && integral == LoopStep(g, l, c, x).pid.integral
    requires dt == if x.pidAt - c.pid.lastTime > 0.0 then x.pidAt - c.pid.lastTime else 0.000001
    ensures c.pid.lastError - e >= (g.kp * e + g.ki * integral - l.down) * dt / g.kd
  {
    StoppedLow(g, l, c, x);
    hide *;
    Pid.LowOutputExactly(g, c.pid, x.depth, x.pidAt, e, dt, integral, l.down);
  }

  lemma StoppedLow(g: Pid.Gains, l: Limits, c: Loop, x: Input)
    requires LoopStep(g, l, c, x).scaler.stopped != c.scaler.stopped
    ensures Pid.Update(g, c.pid, x.depth, x.pidAt).u <= l.down
    ensures LoopStep(g, l, c, x).pid == Pid.Update(g, c.pid, x.depth, x.pidAt).state
  {
    hide Pid.Update;
  }

  lemma {:induction false} LoopKeeps(g: Pid.Gains, l: Limits, c: Loop, xs: seq<Input>)
    requires Inv(c.scaler)
    ensures Inv(LoopRun(g, l, c, xs).scaler)
  {
    if xs != [] {
      hide Inv, Step, Pid.Update;
      var q, x := LoopRun(g, l, c, xs[..|xs| - 1]), xs[|xs| - 1];
      LoopKeeps(g, l, c, xs[..|xs| - 1]);
      StepKeeps(l, q.scaler, Tick(Pid.Update(g, q.pid, x.depth, x.pidAt).u, x.checkedAt, x.stampedAt, x.spawned));
    }
  }

  /**
   Load that never falls and is deep enough for its proportional term to reach the threshold gets a worker on every
   tick outside the cooldown with room for one: the spawn uses the next port, and the worker joins at the end.
   */
  lemma {:induction false} RisingLoadGrows(g: Pid.Gains, l: Limits, start: real, s: Scaler, xs: seq<Input>, x: Input)
    requires Sensible(g, l) && NonDecreasing(g, xs + [x]) && Inv(s)
    requires l.up <= g.outputMax && g.kp * (x.depth - g.target) >= l.up
    ensures var c := LoopRun(g, l, Loop(Pid.Initial(start), s), xs);
            var q := LoopStep(g, l, c, x).scaler;
            var nodeId := "worker-auto-" + Decimal.Render(c.scaler.nextPort);
            x.checkedAt - c.scaler.lastScale >= l.cooldown && |c.scaler.workers| < l.maxWorkers ==>
              && q.events == c.scaler.events + [ScaleUp(x.stampedAt, nodeId, c.scaler.nextPort)]
              && q.nextPort == c.scaler.nextPort + 1 && q.lastScale == x.stampedAt
              && q.workers == c.scaler.workers + if x.spawned then [Worker(nodeId, true)] else []
  {
    var c := LoopRun(g, l, Loop(Pid.Initial(start), s), xs);
    RisingHigh(g, l, start, s, xs, x);
    LoopKeeps(g, l, Loop(Pid.Initial(start), s), xs);
    hide Inv, Step, LoopRun, Pid.Update, NonDecreasing;
    TickDecides(l, c.scaler, Tick(Pid.Update(g, c.pid, x.depth, x.pidAt).u, x.checkedAt, x.stampedAt, x.spawned));
  }

  /** The controller on such a tick. */
  lemma RisingHigh(g: Pid.Gains, l: Limits, start: real, s: Scaler, xs: seq<Input>, x: Input)
    requires Sensible(g, l) && NonDecreasing(g, xs + [x])
    requires l.up <= g.outputMax && g.kp * (x.depth - g.target) >= l.up
    ensures Pid.Update(g, LoopRun(g, l, Loop(Pid.Initial(start), s), xs).pid, x.depth, x.pidAt).u >= l.up
  {
    var c0, samples := Loop(Pid.Initial(start), s), Samples(xs);
    LoopPid(g, l, c0, xs);
    RisingSamples(g, xs, x);
    NoSamples(g, Pid.Initial(start));
    assert Pid.Initial(start).lastError == 0.0 && g.ki > 0.0 && g.kd > 0.0 && g.integralMax >= 0.0;
    hide *;
    assert xs == [] ==> samples == Samples([]);
    Pid.HighOutput(g, start, samples, x.depth, x.pidAt, l.up);
  }

  lemma RisingSamples(g: Pid.Gains, xs: seq<Input>, x: Input)
    requires NonDecreasing(g, xs + [x])
    ensures Pid.NeverBelow(g, Samples(xs)) && x.depth >= g.target && (xs != [] ==> xs[|xs| - 1].depth <= x.depth)
  {
    var all := xs + [x];
    assert all[|xs|] == x;
    forall i | 0 <= i < |xs| ensures Samples(xs)[i].measured >= g.target && xs[i].depth <= x.depth {
      assert all[i] == xs[i];
    }
  }

  lemma NoSamples(g: Pid.Gains, s: Pid.State)
    ensures Pid.Run(g, s, Samples([])) == s
  {}

  /** The limits the router starts the autoscaler with. */
  const ROUTER_LIMITS := Limits(1, 4, 0.6, -0.6, 30.0)

  /** For example, ten requests waiting five seconds after start-up bring the router its third worker. */
  lemma {:induction false} ThirdWorker(start: real)
    ensures var c := Loop(Pid.Initial(start), Start([Existing("worker-a", 8001), Existing("worker-b", 8002)]));
            LoopStep(Pid.ROUTER_GAINS, ROUTER_LIMITS, c, Input(10.0, start + 5.0, 1000.0, 1000.0, true)).scaler.workers
            == [Worker("worker-a", false), Worker("worker-b", false), Worker("worker-auto-8003", true)]
  {
    var a, b := Worker("worker-a", false), Worker("worker-b", false);
    var one, two := [Existing("worker-a", 8001)], [Existing("worker-a", 8001), Existing("worker-b", 8002)];
    assert one[..0] == [] && two[..1] == one;
    assert Put([], a) == [a];
    assert "worker-a"[7] != "worker-b"[7];
    assert [a][1..] == [] && Put([a], b) == [a, b];
    assert Start(one) == Scaler([a], 8003, 0.0, [], [], []);
    assert Start(two) == Scaler([a, b], 8003, 0.0, [], [], []);
    assert Decimal.Render(800) == "800" by { assert Decimal.Render(80) == "80"; }
    assert Decimal.Render(8003) == "8003";
    var w := Worker("worker-auto-8003", true);
    assert [a, b][1..] == [b] && [b][1..] == [];
    assert Put([b], w) == [b, w] && Put([a, b], w) == [a, b, w];
    assert "worker-auto-" + "8003" == "worker-auto-8003";
    assert AutoId(8003) == "worker-auto-8003";
    TenWaiting(start);
    hide Pid.Update, Put, Start, AutoId;
  }

  lemma TenWaiting(start: real)
    ensures Pid.Update(Pid.ROUTER_GAINS, Pid.Initial(start), 10.0, start + 5.0).u == 2.0
  {}

  lemma {:induction false} PidRunConcat(g: Pid.Gains, s: Pid.State, a: seq<Pid.Sample>, b: seq<Pid.Sample>)
    ensures Pid.Run(g, s, a + b) == Pid.Run(g, Pid.Run(g, s, a), b)
  {
    hide Pid.Update;
    if b == [] {
      assert a + b == a;
    } else {
      assert (a + b)[..|a| + |b| - 1] == a + b[..|b| - 1];
      PidRunConcat(g, s, a, b[..|b| - 1]);
    }
  }

  /** The controller's clock readings of a list of ticks. */
  function PidTimes(xs: seq<Input>): (times: seq<real>)
    ensures |times| == |xs|
  {
    seq(|xs|, i requires 0 <= i < |xs| => xs[i].pidAt)
  }

  /**
   With the router's settings, whatever load came before: from the tenth tick in a row that finds the queue
   empty, no tick adds a worker.
   */
  lemma {:induction false} QuietLoadNeverGrows(l: Limits, start: real, s: Scaler, history: seq<Input>,
      quiet: seq<Input>, x: Input)
    requires forall i | 0 <= i < |history| :: history[i].depth >= Pid.ROUTER_GAINS.target
    requires |quiet| >= 9 && forall i | 0 <= i < |quiet| :: quiet[i].depth == Pid.ROUTER_GAINS.target
    requires x.depth == Pid.ROUTER_GAINS.target && l.up == 0.6
    ensures var c := LoopRun(Pid.ROUTER_GAINS, l, Loop(Pid.Initial(start), s), history + quiet);
            var after := LoopStep(Pid.ROUTER_GAINS, l, c, x).scaler;
            after.nextPort == c.scaler.nextPort && |after.workers| <= |c.scaler.workers|
  {
    var g, times := Pid.ROUTER_GAINS, PidTimes(quiet) + [x.pidAt];
    var c := LoopRun(g, l, Loop(Pid.Initial(start), s), history + quiet);
    LoopPid(g, l, Loop(Pid.Initial(start), s), history + quiet);
    assert times[..|quiet|] == PidTimes(quiet);
    assert Samples(history + quiet) == Samples(history) + Pid.Quiet(g, PidTimes(quiet));
    PidRunConcat(g, Pid.Initial(start), Samples(history), Pid.Quiet(g, PidTimes(quiet)));
    Pid.TenQuietTicks(start, Samples(history), times);
    hide Pid.Update;
    var owned := Owned(c.scaler.workers);
    if owned != [] { FilterShorter(c.scaler.workers, (w: Worker) => w.nodeId != owned[0].nodeId); }
  }

  lemma {:induction false} FilterShorter(s: seq<Worker>, keep: Worker -> bool)
    ensures |Filter(s, keep)| <= |s|
  {
    if s != [] { FilterShorter(s[..|s| - 1], keep); }
  }
}

/** The autoscaler object, updated in place. */
module Autoscalers {
  import opened Seqs
  import opened Autoscaler
  import Decimal
  import Pid
  import opened PidControllers

  class AutoscalerLoop {
    const limits: Limits
    const pid: PIDController
    var workers: seq<Worker>
    var nextPort: nat
    var lastScale: real
    var scaleEvents: seq<Event>
    ghost var started: seq<string>
    ghost var stopped: seq<string>

    ghost function View(): Scaler
      reads this
    {
      Scaler(workers, nextPort, lastScale, scaleEvents, started, stopped)
    }

    constructor (limits: Limits, pid: PIDController)
      ensures this.limits == limits && this.pid == pid && View() == FRESH
    {
      this.limits, this.pid := limits, pid;
      workers, nextPort, lastScale, scaleEvents := [], FIRST_PORT, 0.0, [];
      started, stopped := [], [];
    }

    method RegisterExisting(nodeId: string, port: nat)
      modifies this
      ensures View() == Autoscaler.RegisterExisting(old(View()), nodeId, port)
      ensures nextPort == if port >= old(nextPort) then port + 1 else old(nextPort)
      ensures nodeId !in Names(old(workers)) ==> workers == old(workers) + [Worker(nodeId, false)]
      ensures nodeId in Names(old(workers)) ==> Names(workers) == Names(old(workers))
    {
      RegisterCounts(View(), nodeId, port);
      workers := Put(workers, Worker(nodeId, false));
      if port + 1 > nextPort { nextPort := port + 1; }
    }

    /** One tick: read the depth, update the controller, then scale unless cooling down. */
    method Tick(depth: real, pidAt: real, checkedAt: real, stampedAt: real, spawned: bool)
      modifies this, pid
      ensures Loop(pid.View(), View())
              == LoopStep(pid.gains, limits, Loop(old(pid.View()), old(View())),
                  Input(depth, pidAt, checkedAt, stampedAt, spawned))
      ensures Autoscaler.Inv(old(View())) ==>
                var output := Pid.Update(pid.gains, old(pid.View()), depth, pidAt).u;
                var awake := checkedAt - old(lastScale) >= limits.cooldown;
                var grows := awake && output >= limits.up && |old(workers)| < limits.maxWorkers;
                var shrinks := awake && !grows && output <= limits.down && |old(workers)| > limits.minWorkers
                               && exists w :: w in old(workers) && w.owned;
                var nodeId := "worker-auto-" + Decimal.Render(old(nextPort));
                && (grows ==>
                      && scaleEvents == old(scaleEvents) + [ScaleUp(stampedAt, nodeId, old(nextPort))]
                      && nextPort == old(nextPort) + 1 && lastScale == stampedAt
                      && workers == old(workers) + if spawned then [Worker(nodeId, true)] else [])
                && (shrinks ==>
                      exists k |
                        0 <= k < |old(workers)| && old(workers)[k].owned
                        && (forall i | 0 <= i < k :: !old(workers)[i].owned) ::
                        && workers == old(workers)[..k] + old(workers)[k + 1..]
                        && scaleEvents == old(scaleEvents) + [ScaleDown(stampedAt, old(workers)[k].nodeId)]
                        && lastScale == stampedAt && nextPort == old(nextPort))
                && (!grows && !shrinks ==>
                      workers == old(workers) && scaleEvents == old(scaleEvents) && lastScale == old(lastScale)
                      && nextPort == old(nextPort))
    {
      hide Pid.Update, Grow, Shrink, Autoscaler.Inv;
      var output := pid.Update(depth, pidAt);
      if Autoscaler.Inv(old(View())) {
        TickDecides(limits, old(View()), Autoscaler.Tick(output, checkedAt, stampedAt, spawned));
      }
      var nWorkers := |workers|;
      if checkedAt - lastScale < limits.cooldown { return; }
      if output >= limits.up && nWorkers < limits.maxWorkers {
        ScaleUpNow(stampedAt, spawned);
      } else if output <= limits.down && nWorkers > limits.minWorkers {
        ScaleDownNow(stampedAt);
      }
    }

    method ScaleUpNow(at: real, spawned: bool)
      modifies this
      ensures View() == Grow(old(View()), at, spawned)
    {
      var port := nextPort;
      nextPort := nextPort + 1;
      var nodeId := AutoId(port);
      lastScale := at;
      scaleEvents := scaleEvents + [ScaleUp(at, nodeId, port)];
      if !spawned { return; }
      workers := Put(workers, Worker(nodeId, true));
      started := started + [nodeId];
    }

    method ScaleDownNow(at: real)
      modifies this
      ensures View() == Shrink(old(View()), at)
    {
      var owned := Owned(workers);
      if |owned| == 0 { return; }
      var nodeId := owned[0].nodeId;
      workers := Filter(workers, (w: Worker) => w.nodeId != nodeId);
      lastScale := at;
      scaleEvents := scaleEvents + [ScaleDown(at, nodeId)];
      stopped := stopped + [nodeId];
    }
  }
}
