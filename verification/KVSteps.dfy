/**
 One thread's steps on a shared block pool (core/kv_cache.py).

 Each locked section is one atomic step. `copy_on_write` is not one section: it tests the reference
 count without the lock, takes a block under the lock, copies K and then V without it, and drops the old
 handle under the lock again; the write that follows stores K and then V without it. So all these parts
 interleave with everything the other threads do. A thread only gives up handles it holds.
 */
module KVSteps {
  import opened Wrappers
  import opened Bags
  import opened KVPool

  /** How far a thread is through copy_on_write and the write that follows it. */
  datatype Phase =
    | Idle
    | Tested(src: nat)                           // saw ref_count > 1
    | Holding(src: nat, dst: nat)                // took dst
    | HalfCopied(src: nat, dst: nat)             // dst has K
    | Copied(src: nat, dst: nat)                 // dst has K and V
    | Writable(dst: nat)                         // copy_on_write returned dst
    | HalfWritten(dst: nat, slot: nat, w: Write) // K is stored

  datatype Thread = Thread(handles: multiset<nat>, phase: Phase) {
    /** Every handle the thread owns, those inside copy_on_write included. */
    function Holds(): multiset<nat> {
      handles + match phase
                case Idle => multiset{}
                case Tested(src) => multiset{src}
                case Holding(src, dst) => multiset{src, dst}
                case HalfCopied(src, dst) => multiset{src, dst}
                case Copied(src, dst) => multiset{src, dst}
                case Writable(dst) => multiset{dst}
                case HalfWritten(dst, slot, w) => multiset{dst}
    }
  }

  datatype Action =
    | DoAllocate
    | DoFree(b: nat)
    | DoLookup(hash: int)
    | CowTest(b: nat)
    | CowTake
    | CowCopyK
    | CowCopyV
    | CowDrop
    | WriteK(slot: nat, w: Write)
    | WriteV

  function Holdings(threads: seq<Thread>): (bags: seq<multiset<nat>>)
    ensures |bags| == |threads|
  {
    seq(|threads|, i requires 0 <= i < |threads| => threads[i].Holds())
  }

  function Outstanding(threads: seq<Thread>): multiset<nat> {
    Sum(Holdings(threads))
  }

  /** The handles of every thread but i. */
  function Others(threads: seq<Thread>, i: nat): multiset<nat>
    requires i < |threads|
  {
    Rest(Holdings(threads), i)
  }

  // ----- One thread's step on the shared pool -----

  ghost predicate Registered(p: Pool, b: nat) {
    b < |p.blocks| && p.blocks[b].prefixHash.Some?
  }

  /** A block being copied away from is prefix-registered; the fresh copy is not. */
  ghost predicate PhaseInv(p: Pool, t: Thread) {
    && (forall b | b in t.Holds() :: b < |p.blocks|)
    && match t.phase
       case Tested(src) => Registered(p, src)
       case Holding(src, dst) => Registered(p, src) && !Registered(p, dst)
       case HalfCopied(src, dst) => Registered(p, src) && !Registered(p, dst)
       case Copied(src, dst) => Registered(p, src) && !Registered(p, dst)
       case _ => true
  }

  datatype Local = Local(pool: Pool, thread: Thread)

  /** One atomic step; an action the thread's phase or handles do not allow does nothing. */
  function Act(p: Pool, t: Thread, a: Action): (r: Local)
    requires InRange(p) && PhaseInv(p, t)
    ensures |r.pool.blocks| == |p.blocks|
  {
    match a
    case DoAllocate => if t.phase.Idle? then Receive(p, t, Allocate(p)) else Local(p, t)
    case DoLookup(hash) =>
      if !t.phase.Idle? then Local(p, t)
      else (match GetOrCreatePrefix(p, hash)
            case Hit(q, id) => Local(q, t.(handles := t.handles + multiset{id}))
            case Miss(r) => Receive(p, t, r))
    case DoFree(b) =>
      if t.phase.Idle? && b in t.Holds() then Local(Release(p, b), t.(handles := t.handles - multiset{b}))
          else Local(p, t)
    case CowTest(b) =>
      if t.phase.Idle? && b in t.Holds() then
        Local(p, Thread(t.handles - multiset{b}, if p.blocks[b].refCount <= 1 then Writable(b) else Tested(b)))
      else Local(p, t)
    case CowTake =>
      if !t.phase.Tested? then Local(p, t)
      else (match Take(p, None)
            case Exhausted => Local(p, Thread(t.handles + multiset{t.phase.src}, Idle))
            case Got(q, id) => Local(q, t.(phase := Holding(t.phase.src, id))))
    case CowCopyK =>
      if !t.phase.Holding? then Local(p, t)
      else
        assert t.phase.src in t.Holds() && t.phase.dst in t.Holds();
        Local(StoreK(p, t.phase.dst, p.blocks[t.phase.src].k), t.(phase := HalfCopied(t.phase.src, t.phase.dst)))
    case CowCopyV =>
      if !t.phase.HalfCopied? then Local(p, t)
      else
        assert t.phase.src in t.Holds() && t.phase.dst in t.Holds();
        Local(StoreV(p, t.phase.dst, p.blocks[t.phase.src].v), t.(phase := Copied(t.phase.src, t.phase.dst)))
    case CowDrop =>
      if !t.phase.Copied? then Local(p, t)
      else
        assert t.phase.src in t.Holds();
        Local(Release(p, t.phase.src), t.(phase := Writable(t.phase.dst)))
    case WriteK(slot, w) =>
      if !t.phase.Writable? then Local(p, t)
      else
        assert t.phase.dst in t.Holds();
        Local(StoreK(p, t.phase.dst, Put(p.blocks[t.phase.dst].k, w.layer, w.head, slot, w.k)),
              t.(phase := HalfWritten(t.phase.dst, slot, w)))
    case WriteV =>
      if !t.phase.HalfWritten? then Local(p, t)
      else
        assert t.phase.dst in t.Holds();
        var HalfWritten(dst, slot, w) := t.phase;
        Local(StoreV(p, dst, Put(p.blocks[dst].v, w.layer, w.head, slot, w.v)), Thread(t.handles + multiset{dst}, Idle))
  }

  function StoreK(p: Pool, b: nat, k: Tensor): (r: Pool)
    requires InRange(p) && b < |p.blocks|
    ensures InRange(r)
  {
    p.(blocks := p.blocks[b := p.blocks[b].(k := k)])
  }

  function StoreV(p: Pool, b: nat, v: Tensor): (r: Pool)
    requires InRange(p) && b < |p.blocks|
    ensures InRange(r)
  {
    p.(blocks := p.blocks[b := p.blocks[b].(v := v)])
  }

  function Receive(p: Pool, t: Thread, r: Taken): Local {
    match r
    case Exhausted => Local(p, t)
    case Got(q, id) => Local(q, t.(handles := t.handles + multiset{id}))
  }

  /** What a step of one thread leaves of a block somebody else also holds. */
  ghost predicate LeavesAlone(p: Pool, r: Pool, others: multiset<nat>, except: set<nat>) {
    forall b: nat | b in others && b < |p.blocks| && b < |r.blocks| ::
      && r.blocks[b].prefixHash == p.blocks[b].prefixHash
      && (b !in except ==> SameContents(p, r, b))
  }

  /** A step of the thread's write that takes effect. */
  ghost predicate Writes(t: Thread, a: Action) {
    (a.WriteK? && t.phase.Writable?) || (a.WriteV? && t.phase.HalfWritten?)
  }

  /** The block a step writes in place although it is prefix-registered. */
  ghost function Racy(p: Pool, t: Thread, a: Action): set<nat> {
    if Writes(t, a) && Registered(p, t.phase.dst) then {t.phase.dst} else {}
  }

  ghost predicate Keeps(p: Pool, t: Thread, a: Action, others: multiset<nat>)
    requires InRange(p) && PhaseInv(p, t)
  {
    var r := Act(p, t, a);
    && Consistent(r.pool, others + r.thread.Holds())
    && PhaseInv(r.pool, r.thread)
    && LeavesAlone(p, r.pool, others, Racy(p, t, a))
  }

  lemma HandleIn(q: Pool, others: multiset<nat>, h: multiset<nat>, id: nat, h': multiset<nat>)
    requires Consistent(q, others + h + multiset{id}) && h' == h + multiset{id}
    ensures Consistent(q, others + h')
  {
    assert others + h + multiset{id} == others + h';
  }

  lemma HandleOut(q: Pool, others: multiset<nat>, h: multiset<nat>, b: nat, h': multiset<nat>)
    requires b in h && Consistent(q, others + h - multiset{b}) && h' == h - multiset{b}
    ensures Consistent(q, others + h')
  {
    assert others + h - multiset{b} == others + h';
  }

  lemma SameHandles(q: Pool, others: multiset<nat>, h: multiset<nat>, h': multiset<nat>)
    requires h == h' && Consistent(q, others + h)
    ensures Consistent(q, others + h')
  {}

  /** The thread's step when a take succeeds or not. */
  lemma ReceiveKeeps(p: Pool, t: Thread, hash: Option<int>, others: multiset<nat>)
    requires Consistent(p, others + t.Holds()) && PhaseInv(p, t) && t.phase.Idle?
    requires hash.Some? ==> hash.value !in p.index
    ensures var r := Receive(p, t, Take(p, hash));
            && Consistent(r.pool, others + r.thread.Holds())
            && PhaseInv(r.pool, r.thread)
            && LeavesAlone(p, r.pool, others, {})
  {
    var r := Receive(p, t, Take(p, hash));
    TakeConsistent(p, hash, others + t.Holds());
    if Take(p, hash).Got? {
      HandleIn(r.pool, others, t.Holds(), Take(p, hash).id, r.thread.Holds());
    }
  }

  lemma HitKeeps(p: Pool, t: Thread, hash: int, others: multiset<nat>)
    requires Consistent(p, others + t.Holds()) && PhaseInv(p, t) && t.phase.Idle? && hash in p.index
    ensures Keeps(p, t, DoLookup(hash), others)
  {
    var r, id := Act(p, t, DoLookup(hash)), p.index[hash];
    PrefixConsistent(p, hash, others + t.Holds());
    HandleIn(r.pool, others, t.Holds(), id, r.thread.Holds());
    assert forall b | b in r.thread.Holds() :: b == id || b in t.Holds();
  }

  lemma LookupKeeps(p: Pool, t: Thread, hash: int, others: multiset<nat>)
    requires Consistent(p, others + t.Holds()) && PhaseInv(p, t) && t.phase.Idle?
    ensures Keeps(p, t, DoLookup(hash), others)
  {
    if hash in p.index { HitKeeps(p, t, hash, others); } else { ReceiveKeeps(p, t, Some(hash), others); }
  }

  lemma FreeKeeps(p: Pool, t: Thread, b: nat, others: multiset<nat>)
    requires Consistent(p, others + t.Holds()) && PhaseInv(p, t) && t.phase.Idle? && b in t.Holds()
    ensures Keeps(p, t, DoFree(b), others)
  {
    ReleaseConsistent(p, b, others + t.Holds());
    HandleOut(Release(p, b), others, t.Holds(), b, t.(handles := t.handles - multiset{b}).Holds());
    ReleaseLeavesAlone(p, b, t.Holds(), others);
  }

  lemma ReleaseLeavesAlone(p: Pool, b: nat, h: multiset<nat>, others: multiset<nat>)
    requires Consistent(p, others + h) && b in h && b < |p.blocks|
    ensures LeavesAlone(p, Release(p, b), others, {})
  {
    ReleaseConsistent(p, b, others + h);
    assert Accounted(p, others + h, b);
  }

  lemma TestKeeps(p: Pool, t: Thread, b: nat, others: multiset<nat>)
    requires Consistent(p, others + t.Holds()) && PhaseInv(p, t) && t.phase.Idle? && b in t.Holds()
    ensures Keeps(p, t, CowTest(b), others)
  {
    var r := Act(p, t, CowTest(b));
    assert Accounted(p, others + t.Holds(), b);
    hide Accounted, InRange;
    assert r.thread.Holds() == t.Holds();
    SameHandles(p, others, t.Holds(), r.thread.Holds());
  }

  lemma CowTakeKeeps(p: Pool, t: Thread, others: multiset<nat>)
    requires Consistent(p, others + t.Holds()) && PhaseInv(p, t) && t.phase.Tested?
    ensures Keeps(p, t, CowTake, others)
  {
    assert t.phase.src in t.Holds();
    if Take(p, None).Got? {
      CowTakeGot(p, t, others);
    } else {
      SameHandles(p, others, t.Holds(), Act(p, t, CowTake).thread.Holds());
    }
  }

  lemma CowTakeGot(p: Pool, t: Thread, others: multiset<nat>)
    requires Consistent(p, others + t.Holds()) && PhaseInv(p, t) && t.phase.Tested? && Take(p, None).Got?
    ensures Keeps(p, t, CowTake, others)
  {
    var r, src, id := Act(p, t, CowTake), t.phase.src, Take(p, None).id;
    var h := t.Holds();
    TakeConsistent(p, None, others + h);
    assert src in h && id !in h;
    assert r.thread.Holds() == h + multiset{id};
    HandleIn(r.pool, others, h, id, r.thread.Holds());
    assert forall b | b in r.thread.Holds() :: b == id || b in h;
  }

  /** Storing new contents in one block. */
  lemma Stored(p: Pool, q: Pool, t: Thread, dst: nat, others: multiset<nat>)
    requires Consistent(p, others + t.Holds()) && dst in t.Holds() && dst < |p.blocks| == |q.blocks|
    requires q.free == p.free && q.index == p.index
    requires exists k, v :: q.blocks == p.blocks[dst := p.blocks[dst].(k := k, v := v)]
    ensures Consistent(q, others + t.Holds())
    ensures LeavesAlone(p, q, others, if Registered(p, dst) then {dst} else {})
    ensures forall b :: Registered(q, b) == Registered(p, b)
  {
    SameCounts(p, q, others + t.Holds());
    if !Registered(p, dst) { SoleHolder(p, t, dst, others); }
  }

  lemma CopyKKeeps(p: Pool, t: Thread, others: multiset<nat>)
    requires Consistent(p, others + t.Holds()) && PhaseInv(p, t) && t.phase.Holding?
    ensures Keeps(p, t, CowCopyK, others)
  {
    var r, src, dst := Act(p, t, CowCopyK), t.phase.src, t.phase.dst;
    assert dst in t.Holds() && src in t.Holds() && r.thread.Holds() == t.Holds();
    assert r.pool.blocks == p.blocks[dst := p.blocks[dst].(k := p.blocks[src].k, v := p.blocks[dst].v)];
    Stored(p, r.pool, t, dst, others);
    hide Consistent, Registered;
  }

  lemma CopyVKeeps(p: Pool, t: Thread, others: multiset<nat>)
    requires Consistent(p, others + t.Holds()) && PhaseInv(p, t) && t.phase.HalfCopied?
    ensures Keeps(p, t, CowCopyV, others)
  {
    var r, src, dst := Act(p, t, CowCopyV), t.phase.src, t.phase.dst;
    assert dst in t.Holds() && src in t.Holds() && r.thread.Holds() == t.Holds();
    assert r.pool.blocks == p.blocks[dst := p.blocks[dst].(k := p.blocks[dst].k, v := p.blocks[src].v)];
    Stored(p, r.pool, t, dst, others);
    hide Consistent, Registered;
  }

  /** A handle on a block no prefix registers is the only one. */
  lemma SoleHolder(p: Pool, t: Thread, b: nat, others: multiset<nat>)
    requires Consistent(p, others + t.Holds()) && b in t.Holds() && b < |p.blocks| && !Registered(p, b)
    ensures b !in others && t.Holds()[b] == 1
  {
    assert Accounted(p, others + t.Holds(), b);
  }

  lemma CowDropKeeps(p: Pool, t: Thread, others: multiset<nat>)
    requires Consistent(p, others + t.Holds()) && PhaseInv(p, t) && t.phase.Copied?
    ensures Keeps(p, t, CowDrop, others)
  {
    var r, src := Act(p, t, CowDrop), t.phase.src;
    assert src in t.Holds();
    ReleaseConsistent(p, src, others + t.Holds());
    HandleOut(r.pool, others, t.Holds(), src, r.thread.Holds());
    ReleaseLeavesAlone(p, src, t.Holds(), others);
  }

  lemma WriteKKeeps(p: Pool, t: Thread, slot: nat, w: Write, others: multiset<nat>)
    requires Consistent(p, others + t.Holds()) && PhaseInv(p, t) && t.phase.Writable?
    ensures Keeps(p, t, WriteK(slot, w), others)
  {
    var r, dst := Act(p, t, WriteK(slot, w)), t.phase.dst;
    hide Put;
    assert dst in t.Holds() && r.thread.Holds() == t.Holds();
    var k := Put(p.blocks[dst].k, w.layer, w.head, slot, w.k);
    assert r.pool.blocks == p.blocks[dst := p.blocks[dst].(k := k, v := p.blocks[dst].v)];
    Stored(p, r.pool, t, dst, others);
    hide Consistent, Registered;
  }

  lemma WriteVKeeps(p: Pool, t: Thread, others: multiset<nat>)
    requires Consistent(p, others + t.Holds()) && PhaseInv(p, t) && t.phase.HalfWritten?
    ensures Keeps(p, t, WriteV, others)
  {
    var r, dst, w := Act(p, t, WriteV), t.phase.dst, t.phase.w;
    hide Put;
    assert dst in t.Holds() && r.thread.Holds() == t.Holds();
    var v := Put(p.blocks[dst].v, w.layer, w.head, t.phase.slot, w.v);
    assert r.pool.blocks == p.blocks[dst := p.blocks[dst].(k := p.blocks[dst].k, v := v)];
    Stored(p, r.pool, t, dst, others);
    hide Consistent, Registered;
  }

  lemma ActKeeps(p: Pool, t: Thread, a: Action, others: multiset<nat>)
    requires Consistent(p, others + t.Holds()) && PhaseInv(p, t)
    ensures Keeps(p, t, a, others)
  {
    if Act(p, t, a) != Local(p, t) {
      match a
      case DoAllocate => ReceiveKeeps(p, t, None, others);
      case DoLookup(hash) => LookupKeeps(p, t, hash, others);
      case DoFree(b) => FreeKeeps(p, t, b, others);
      case CowTest(b) => TestKeeps(p, t, b, others);
      case CowTake => CowTakeKeeps(p, t, others);
      case CowCopyK => CopyKKeeps(p, t, others);
      case CowCopyV => CopyVKeeps(p, t, others);
      case CowDrop => CowDropKeeps(p, t, others);
      case WriteK(slot, w) => WriteKKeeps(p, t, slot, w, others);
      case WriteV => WriteVKeeps(p, t, others);
    }
  }

  /** What a thread needs of its blocks survives any step that leaves them alone. */
  lemma PhaseInvStable(p: Pool, q: Pool, t: Thread, others: multiset<nat>, except: set<nat>)
    requires PhaseInv(p, t) && t.Holds() <= others && LeavesAlone(p, q, others, except) && |q.blocks| == |p.blocks|
    ensures PhaseInv(q, t)
  {
    assert forall b | b in t.Holds() :: b in others;
    assert t.phase.Tested? ==> t.phase.src in t.Holds();
    assert t.phase.Holding? || t.phase.HalfCopied? || t.phase.Copied?
           ==> t.phase.src in t.Holds() && t.phase.dst in t.Holds();
  }
}
