/**
 The request queue (scheduler/priority_queue.py): requests ordered by (priority, arrival_time), and what a
 run of pushes and pops guarantees.
 */
module Requests {
  /** `requestId` tells requests apart; the prompt and sampling parameters play no part in scheduling. */
  datatype Request = Request(requestId: string, priority: int, arrivalTime: real)

  /** The heap's comparison, Request.__lt__. */
  predicate Before(a: Request, b: Request) {
    a.priority < b.priority || (a.priority == b.priority && a.arrivalTime < b.arrivalTime)
  }

  predicate AtMost(a: Request, b: Request) {
    !Before(b, a)
  }

  /** r is one of those served next. */
  ghost predicate Smallest(r: Request, bag: multiset<Request>) {
    r in bag && forall x | x in bag :: AtMost(r, x)
  }

  // ----- Runs of one queue -----

  datatype QueueEvent = Pushed(r: Request) | Popped(r: Request)

  /** What is queued after a list of events. */
  function Queued(events: seq<QueueEvent>): multiset<Request> {
    if events == [] then multiset{}
    else
      var bag := Queued(events[..|events| - 1]);
      match events[|events| - 1]
      case Pushed(r) => bag + multiset{r}
      case Popped(r) => bag - multiset{r}
  }

  /** Every pop takes a smallest queued request. */
  ghost predicate QueueRun(events: seq<QueueEvent>) {
    forall j: nat | j < |events| :: PopsSmallest(events, j)
  }

  ghost predicate PopsSmallest(events: seq<QueueEvent>, j: nat)
    requires j < |events|
  {
    events[j].Popped? ==> Smallest(events[j].r, Queued(events[..j]))
  }

  function Times(events: seq<QueueEvent>, e: QueueEvent): nat {
    if events == [] then 0
    else Times(events[..|events| - 1], e) + if events[|events| - 1] == e then 1 else 0
  }

  lemma QueueRunPrefix(events: seq<QueueEvent>, n: nat)
    requires QueueRun(events) && n <= |events|
    ensures QueueRun(events[..n])
  {
    hide Smallest, Queued;
    forall j: nat | j < n ensures PopsSmallest(events[..n], j) {
      assert PopsSmallest(events, j);
      assert events[..n][..j] == events[..j];
    }
  }

  /** One more event on a bag that holds x as often as pushed less popped. */
  lemma CountStep(front: seq<QueueEvent>, e: QueueEvent, x: Request)
    requires Queued(front)[x] == Times(front, Pushed(x)) - Times(front, Popped(x))
    requires e.Popped? ==> e.r in Queued(front)
    ensures Queued(front + [e])[x] == Times(front + [e], Pushed(x)) - Times(front + [e], Popped(x))
  {
    assert (front + [e])[..|front|] == front;
  }

  lemma {:induction false} QueuedCount(events: seq<QueueEvent>, x: Request)
    requires QueueRun(events)
    ensures Queued(events)[x] == Times(events, Pushed(x)) - Times(events, Popped(x))
  {
    if events != [] {
      var front, last := events[..|events| - 1], events[|events| - 1];
      assert PopsSmallest(events, |front|);
      QueueRunPrefix(events, |front|);
      QueuedCount(front, x);
      hide *;
      assert front + [last] == events;
      CountStep(front, last, x);
    }
  }

  /**
   No overtaking: by the time a request is popped, every request of a smaller priority number, or of the same one
   and an earlier arrival, pushed so far has already left, each as often as it was pushed.
   */
  lemma {:induction false} NoOvertaking(events: seq<QueueEvent>, j: nat, x: Request)
    requires QueueRun(events) && j < |events| && events[j].Popped?
    requires x.priority < events[j].r.priority
             || (x.priority == events[j].r.priority && x.arrivalTime < events[j].r.arrivalTime)
    ensures Times(events[..j], Pushed(x)) == Times(events[..j], Popped(x))
  {
    hide Queued, Times;
    QueueRunPrefix(events, j);
    QueuedCount(events[..j], x);
    assert PopsSmallest(events, j);
  }

  // ----- A batch -----

  /** pop_batch as the pops it makes, one after the other. */
  function Pops(batch: seq<Request>): (events: seq<QueueEvent>)
    ensures |events| == |batch|
  {
    seq(|batch|, i requires 0 <= i < |batch| => Popped(batch[i]))
  }

  ghost predicate InOrder(batch: seq<Request>) {
    forall i, j | 0 <= i < j < |batch| :: AtMost(batch[i], batch[j])
  }

  /** batch lists the smallest requests of a bag in order, and rest is what remains. */
  ghost predicate Takes(bag: multiset<Request>, batch: seq<Request>, rest: multiset<Request>) {
    && multiset(batch) + rest == bag
    && InOrder(batch)
    && forall b, x | b in batch && x in rest :: AtMost(b, x)
  }

  lemma TakesNone(bag: multiset<Request>)
    ensures Takes(bag, [], bag)
  {}

  /** The last of a batch was, when it was taken, a smallest of what was queued. */
  lemma LastTaken(bag: multiset<Request>, front: seq<Request>, r: Request, rest: multiset<Request>)
    requires Takes(bag, front + [r], rest)
    ensures Takes(bag, front, rest + multiset{r}) && Smallest(r, rest + multiset{r})
  {
    var batch := front + [r];
    assert multiset(batch) == multiset(front) + multiset{r};
    assert forall i | 0 <= i < |front| :: batch[i] == front[i];
    assert batch[|front|] == r && r in batch;
    forall b, x | b in front && x in rest + multiset{r} ensures AtMost(b, x) {
      var i :| 0 <= i < |front| && front[i] == b;
      assert batch[i] in batch;
      if x == r { assert AtMost(batch[i], batch[|front|]); }
    }
    forall x | x in rest + multiset{r} ensures AtMost(r, x) {
      if x in rest { assert AtMost(r, x); }
    }
  }

  /**
   A batch is a run of single pops: after any run of pushes and pops, adding what pop_batch takes is again such a
   run, so that NoOvertaking speaks of batches too.
   */
  lemma {:induction false} BatchIsPops(events: seq<QueueEvent>, batch: seq<Request>, rest: multiset<Request>)
    requires QueueRun(events) && Takes(Queued(events), batch, rest)
    ensures QueueRun(events + Pops(batch)) && Queued(events + Pops(batch)) == rest
    decreases |batch|
  {
    if batch == [] {
      assert events + Pops(batch) == events;
    } else {
      var front, r := batch[..|batch| - 1], batch[|batch| - 1];
      assert front + [r] == batch;
      LastTaken(Queued(events), front, r, rest);
      hide *;
      BatchIsPops(events, front, rest + multiset{r});
      PopsSnoc(events, front, r);
      PopSnoc(events + Pops(front), r, rest);
    }
  }

  lemma PopsSnoc(events: seq<QueueEvent>, front: seq<Request>, r: Request)
    ensures events + Pops(front + [r]) == events + Pops(front) + [Popped(r)]
  {
    assert Pops(front + [r]) == Pops(front) + [Popped(r)];
  }

  lemma PopSnoc(events: seq<QueueEvent>, r: Request, rest: multiset<Request>)
    requires QueueRun(events) && Queued(events) == rest + multiset{r} && Smallest(r, rest + multiset{r})
    ensures QueueRun(events + [Popped(r)]) && Queued(events + [Popped(r)]) == rest
  {
    var more := events + [Popped(r)];
    assert more[..|events|] == events;
    hide Smallest;
    forall j: nat | j < |more| ensures PopsSmallest(more, j) {
      if j < |events| {
        assert PopsSmallest(events, j);
        assert more[..j] == events[..j];
      }
    }
  }

  /** The order of a batch in terms of the two fields of a key. */
  lemma BatchKeys(bag: multiset<Request>, batch: seq<Request>, rest: multiset<Request>)
    requires Takes(bag, batch, rest)
    ensures multiset(batch) + rest == bag
    ensures forall i, j | 0 <= i < j < |batch| ::
              batch[i].priority < batch[j].priority
              || (batch[i].priority == batch[j].priority && batch[i].arrivalTime <= batch[j].arrivalTime)
    ensures forall r, x | r in batch && x in rest ::
              r.priority < x.priority || (r.priority == x.priority && r.arrivalTime <= x.arrivalTime)
  {
    assert forall i, j | 0 <= i < j < |batch| :: AtMost(batch[i], batch[j]);
    assert forall r, x | r in batch && x in rest :: AtMost(r, x);
  }

  /** Taking one more smallest request keeps a batch a batch. */
  lemma TakeNext(bag: multiset<Request>, batch: seq<Request>, rest: multiset<Request>, r: Request)
    requires Takes(bag, batch, rest) && Smallest(r, rest)
    ensures Takes(bag, batch + [r], rest - multiset{r})
  {
    assert multiset(batch + [r]) == multiset(batch) + multiset{r};
    assert multiset(batch) + multiset{r} + (rest - multiset{r}) == multiset(batch) + rest;
    forall i, j | 0 <= i < j < |batch + [r]| ensures AtMost((batch + [r])[i], (batch + [r])[j]) {
      if j == |batch| { assert batch[i] in batch; }
    }
  }
}

/** The heap object, updated in place the way heapq does. */
module PriorityQueues {
  import opened Requests

  function Parent(i: nat): nat
    requires i > 0
  {
    (i - 1) / 2
  }

  /** Entry i is not smaller than its parent. */
  ghost predicate Edge(h: seq<Request>, i: nat)
    requires 1 <= i < |h|
  {
    AtMost(h[Parent(i)], h[i])
  }

  ghost predicate IsHeap(h: seq<Request>) {
    forall i: nat | 1 <= i < |h| :: Edge(h, i)
  }

  /** The children of the entry at pos are not smaller than its parent. */
  ghost predicate Spans(h: seq<Request>, pos: nat) {
    forall i: nat | 1 <= i < |h| && Parent(i) == pos && 0 < pos :: AtMost(h[Parent(pos)], h[i])
  }

  /** A heap except that the entry at pos may be smaller than its ancestors. */
  ghost predicate HeapButUp(h: seq<Request>, pos: nat) {
    (forall i: nat | 1 <= i < |h| && i != pos :: Edge(h, i)) && Spans(h, pos)
  }

  /** A heap except that the entry at pos may be misplaced both ways. */
  ghost predicate HeapBut(h: seq<Request>, pos: nat) {
    (forall i: nat | 1 <= i < |h| && i != pos && Parent(i) != pos :: Edge(h, i)) && Spans(h, pos)
  }

  function Swap(h: seq<Request>, i: nat, j: nat): (r: seq<Request>)
    requires i < |h| && j < |h|
    ensures |r| == |h|
  {
    h[i := h[j]][j := h[i]]
  }

  lemma SwapBag(h: seq<Request>, i: nat, j: nat)
    requires i < j < |h|
    ensures multiset(Swap(h, i, j)) == multiset(h)
  {
    assert h == h[..i] + [h[i]] + h[i + 1..j] + [h[j]] + h[j + 1..];
    assert Swap(h, i, j) == h[..i] + [h[j]] + h[i + 1..j] + [h[i]] + h[j + 1..];
  }

  /** The root of a heap is a smallest entry. */
  lemma {:induction false} RootSmallest(h: seq<Request>, i: nat)
    requires IsHeap(h) && i < |h|
    ensures AtMost(h[0], h[i])
    decreases i
  {
    if i > 0 {
      RootSmallest(h, Parent(i));
      assert Edge(h, i);
    }
  }

  lemma BubbleStep(h: seq<Request>, pos: nat)
    requires 0 < pos < |h| && HeapButUp(h, pos) && Before(h[pos], h[Parent(pos)])
    ensures HeapButUp(Swap(h, Parent(pos), pos), Parent(pos))
  {
    var parent := Parent(pos);
    var r := Swap(h, parent, pos);
    forall i: nat | 1 <= i < |r| && i != parent ensures Edge(r, i) {
      if i != pos { assert Edge(h, i); }
    }
    forall i: nat | 1 <= i < |r| && Parent(i) == parent && 0 < parent ensures AtMost(r[Parent(parent)], r[i]) {
      assert Edge(h, parent);
      if i != pos { assert Edge(h, i); }
    }
  }

  lemma SinkStep(h: seq<Request>, pos: nat, child: nat)
    requires child < |h| && (child == 2 * pos + 1 || child == 2 * pos + 2) && HeapBut(h, pos)
    requires forall i: nat | 1 <= i < |h| && Parent(i) == pos :: AtMost(h[child], h[i])
    ensures HeapBut(Swap(h, pos, child), child)
  {
    var r := Swap(h, pos, child);
    forall i: nat | 1 <= i < |r| && i != child && Parent(i) != child ensures Edge(r, i) {
      if i != pos && Parent(i) != pos { assert Edge(h, i); }
    }
    forall i: nat | 1 <= i < |r| && Parent(i) == child ensures AtMost(r[Parent(child)], r[i]) {
      assert Edge(h, i);
    }
  }

  /** The two children of a node. */
  lemma Children(i: nat, pos: nat)
    requires i > 0 && Parent(i) == pos
    ensures i == 2 * pos + 1 || i == 2 * pos + 2
  {}

  lemma AppendHeap(h: seq<Request>, r: Request)
    requires IsHeap(h)
    ensures HeapButUp(h + [r], |h|)
  {
    forall i: nat | 1 <= i < |h| ensures Edge(h + [r], i) { assert Edge(h, i); }
  }

  /** The child heapq lets rise. */
  function SmallerChild(h: seq<Request>, left: nat): (child: nat)
    requires left < |h|
    ensures left <= child < |h|
  {
    if left + 1 < |h| && !Before(h[left], h[left + 1]) then left + 1 else left
  }

  lemma RisingChild(h: seq<Request>, pos: nat, i: nat)
    requires 2 * pos + 1 < |h| && 1 <= i < |h| && Parent(i) == pos
    ensures AtMost(h[SmallerChild(h, 2 * pos + 1)], h[i])
  {
    Children(i, pos);
    hide Parent;
  }

  lemma SinkSmaller(h: seq<Request>, pos: nat)
    requires 2 * pos + 1 < |h| && HeapBut(h, pos)
    ensures var child := SmallerChild(h, 2 * pos + 1); HeapBut(Swap(h, pos, child), child)
    ensures var child := SmallerChild(h, 2 * pos + 1); multiset(Swap(h, pos, child)) == multiset(h)
  {
    var child := SmallerChild(h, 2 * pos + 1);
    forall i: nat | 1 <= i < |h| && Parent(i) == pos ensures AtMost(h[child], h[i]) { RisingChild(h, pos, i); }
    hide AtMost, HeapBut, Swap;
    SinkStep(h, pos, child);
    SwapBag(h, pos, child);
  }

  lemma AtLeaf(h: seq<Request>, pos: nat)
    requires pos < |h| <= 2 * pos + 1 && HeapBut(h, pos)
    ensures HeapButUp(h, pos)
  {
    forall i: nat | 1 <= i < |h| && i != pos ensures Edge(h, i) {
      if Parent(i) == pos { Children(i, pos); }
    }
  }

  /** heappop's first move: the last entry replaces the root. */
  function LastToRoot(h: seq<Request>): seq<Request>
    requires |h| >= 2
  {
    h[..|h| - 1][0 := h[|h| - 1]]
  }

  lemma LastToRootBag(h: seq<Request>)
    requires |h| >= 2
    ensures multiset(LastToRoot(h)) == multiset(h) - multiset{h[0]}
  {
    var n := |h| - 1;
    var mid := h[1..n];
    assert h == [h[0]] + mid + [h[n]];
    assert LastToRoot(h) == [h[n]] + mid;
    assert multiset(h) == multiset{h[0]} + multiset(mid) + multiset{h[n]};
  }

  lemma LastToRootHeap(h: seq<Request>)
    requires |h| >= 2 && IsHeap(h)
    ensures HeapBut(LastToRoot(h), 0)
  {
    var r := LastToRoot(h);
    forall i: nat | 1 <= i < |r| && i != 0 && Parent(i) != 0 ensures Edge(r, i) {
      assert Edge(h, i);
    }
  }

  lemma RootIsSmallest(h: seq<Request>)
    requires IsHeap(h) && h != []
    ensures Smallest(h[0], multiset(h))
  {
    forall x | x in multiset(h) ensures AtMost(h[0], x) {
      var i :| 0 <= i < |h| && h[i] == x;
      RootSmallest(h, i);
    }
  }

  class PriorityQueue {
    var heap: seq<Request>

    ghost predicate Valid()
      reads this
    {
      IsHeap(heap)
    }

    ghost function Bag(): multiset<Request>
      reads this
    {
      multiset(heap)
    }

    constructor ()
      ensures Valid() && Bag() == multiset{}
    {
      heap := [];
    }

    method Push(r: Request)
      requires Valid()
      modifies this
      ensures Valid() && Bag() == old(Bag()) + multiset{r}
    {
      AppendHeap(heap, r);
      heap := heap + [r];
      BubbleUp(|heap| - 1);
    }

    /** heapq._siftdown towards the root. */
    method BubbleUp(start: nat)
      requires start < |heap| && HeapButUp(heap, start)
      modifies this
      ensures Valid() && Bag() == old(Bag()) && |heap| == old(|heap|)
    {
      var pos := start;
      while pos > 0
        invariant 0 <= pos < |heap| == old(|heap|) && HeapButUp(heap, pos) && multiset(heap) == old(multiset(heap))
      {
        var parent := Parent(pos);
        if !Before(heap[pos], heap[parent]) {
          assert Edge(heap, pos);
          break;
        }
        BubbleStep(heap, pos);
        SwapBag(heap, parent, pos);
        heap := Swap(heap, parent, pos);
        pos := parent;
      }
    }

    /** heapq._siftup: let the smaller child rise at every level, then bubble the entry back up. */
    method SinkRoot()
      requires heap != [] && HeapBut(heap, 0)
      modifies this
      ensures Valid() && Bag() == old(Bag()) && |heap| == old(|heap|)
    {
      var pos := 0;
      var child := 1;
      while child < |heap|
        invariant child == 2 * pos + 1 && 0 <= pos < |heap| == old(|heap|)
        invariant HeapBut(heap, pos) && multiset(heap) == old(multiset(heap))
        decreases |heap| - pos
      {
        hide HeapBut, SmallerChild;
        SinkSmaller(heap, pos);
        var smaller := SmallerChild(heap, child);
        heap := Swap(heap, pos, smaller);
        pos := smaller;
        child := 2 * pos + 1;
      }
      AtLeaf(heap, pos);
      BubbleUp(pos);
    }

    /** Null when nothing is queued by the deadline. */
    method Pop() returns (found: bool, r: Request)
      requires Valid()
      modifies this
      ensures Valid()
      ensures found <==> old(Bag()) != multiset{}
      ensures found ==> Smallest(r, old(Bag())) && Bag() == old(Bag()) - multiset{r}
      ensures found ==> r in old(Bag()) && forall x | x in old(Bag()) ::
                r.priority < x.priority || (r.priority == x.priority && r.arrivalTime <= x.arrivalTime)
      ensures !found ==> heap == old(heap)
    {
      if |heap| == 0 { return false, Request("", 0, 0.0); }
      r := PopHeap();
      found := true;
    }

    /** heapq.heappop. */
    method PopHeap() returns (r: Request)
      requires Valid() && heap != []
      modifies this
      ensures Valid() && Smallest(r, old(Bag())) && Bag() == old(Bag()) - multiset{r} && |heap| == old(|heap|) - 1
    {
      ghost var h := heap;
      RootIsSmallest(heap);
      var last := heap[|heap| - 1];
      heap := heap[..|heap| - 1];
      if |heap| == 0 {
        assert h == [last];
        return last;
      }
      r := heap[0];
      heap := heap[0 := last];
      LastToRootBag(h);
      LastToRootHeap(h);
      SinkRoot();
    }

    /** Up to maxSize requests, smallest first. */
    method PopBatch(maxSize: int) returns (batch: seq<Request>)
      requires Valid()
      modifies this
      ensures Valid() && Takes(old(Bag()), batch, Bag())
      ensures |batch| == if maxSize <= 0 then 0 else if maxSize <= |old(heap)| then maxSize else |old(heap)|
      ensures multiset(batch) + Bag() == old(Bag())
      ensures forall i, j | 0 <= i < j < |batch| ::
                batch[i].priority < batch[j].priority
                || (batch[i].priority == batch[j].priority && batch[i].arrivalTime <= batch[j].arrivalTime)
      ensures forall r, x | r in batch && x in Bag() ::
                r.priority < x.priority || (r.priority == x.priority && r.arrivalTime <= x.arrivalTime)
    {
      hide Takes, Smallest, IsHeap;
      batch := [];
      TakesNone(Bag());
      while |heap| != 0 && |batch| < maxSize
        invariant Valid() && Takes(old(Bag()), batch, Bag()) && |batch| + |heap| == old(|heap|)
        invariant |batch| == 0 || |batch| <= maxSize
        decreases |heap|
      {
        ghost var rest := Bag();
        var r := PopHeap();
        TakeNext(old(Bag()), batch, rest, r);
        batch := batch + [r];
      }
      BatchKeys(old(Bag()), batch, Bag());
    }
  }
}
