/** Any number of threads sharing one block pool (core/kv_cache.py): what every step keeps, and whole runs. */
module KVThreads {
  import opened Wrappers
  import opened Bags
  import opened KVPool
  import opened KVSteps

  // ----- The system -----

  datatype System = System(pool: Pool, threads: seq<Thread>)

  ghost predicate Inv(s: System) {
    && Consistent(s.pool, Outstanding(s.threads))
    && forall i | 0 <= i < |s.threads| :: PhaseInv(s.pool, s.threads[i])
  }

  function Step(s: System, i: nat, a: Action): (r: System)
    requires i < |s.threads| && InRange(s.pool) && PhaseInv(s.pool, s.threads[i])
    ensures |r.pool.blocks| == |s.pool.blocks|
  {
    var r := Act(s.pool, s.threads[i], a);
    System(r.pool, s.threads[i := r.thread])
  }

  lemma StepOutstanding(s: System, i: nat, t: Thread)
    requires i < |s.threads|
    ensures Outstanding(s.threads) == Others(s.threads, i) + s.threads[i].Holds()
    ensures Outstanding(s.threads[i := t]) == Others(s.threads, i) + t.Holds()
  {
    var bags := Holdings(s.threads);
    SumSplit(bags, i);
    SumUpdate(bags, i, t.Holds());
    assert Holdings(s.threads[i := t]) == bags[i := t.Holds()];
  }

  lemma StepKeepsInv(s: System, i: nat, a: Action)
    requires Inv(s) && i < |s.threads|
    ensures Inv(Step(s, i, a))
    ensures LeavesAlone(s.pool, Step(s, i, a).pool, Others(s.threads, i), Racy(s.pool, s.threads[i], a))
  {
    var r, others := Step(s, i, a), Others(s.threads, i);
    StepOutstanding(s, i, r.threads[i]);
    ActKeeps(s.pool, s.threads[i], a, others);
    forall j: nat | j < |r.threads| && j != i ensures PhaseInv(r.pool, r.threads[j]) {
      RestContains(Holdings(s.threads), i, j);
      PhaseInvStable(s.pool, r.pool, s.threads[j], others, Racy(s.pool, s.threads[i], a));
    }
  }

  /** A schedule: which thread acts, and how. */
  type Schedule = seq<(nat, Action)>

  /** Run a schedule; entries naming no thread are skipped. */
  function Run(s: System, acts: Schedule): (r: System)
    requires Inv(s)
    ensures Inv(r) && |r.threads| == |s.threads| && |r.pool.blocks| == |s.pool.blocks|
  {
    if acts == [] then s
    else
      var q := Run(s, acts[..|acts| - 1]);
      var (i, a) := acts[|acts| - 1];
      if i < |q.threads| then StepKeepsInv(q, i, a); Step(q, i, a) else q
  }

  function Start(cfg: Config, n: nat): (s: System)
    ensures |s.threads| == n
  {
    System(EmptyPool(cfg), seq(n, i => Thread(multiset{}, Idle)))
  }

  lemma {:induction false} StartInv(cfg: Config, n: nat)
    ensures Inv(Start(cfg, n)) && Outstanding(Start(cfg, n).threads) == multiset{}
  {
    EmptyPoolConsistent(cfg);
    if n != 0 {
      StartInv(cfg, n - 1);
      var bags := Holdings(Start(cfg, n).threads);
      assert bags[..n - 1] == Holdings(Start(cfg, n - 1).threads);
    }
  }

  // ----- Whole runs -----

  /**
   Under every schedule of any number of threads: reference counts are handle counts, and when every
   thread has given up its handles the whole pool is free and the prefix index is empty.
   */
  lemma {:induction false} EveryRunAccounts(cfg: Config, n: nat, acts: Schedule)
    ensures Inv(Start(cfg, n))
    ensures var s := Run(Start(cfg, n), acts);
            && Inv(s)
            && |s.pool.blocks| == cfg.numBlocks
            && cfg.numBlocks - |s.pool.free| == |Support(Outstanding(s.threads))|
            && (forall b: nat | b < cfg.numBlocks :: s.pool.blocks[b].refCount == Outstanding(s.threads)[b])
            && ((forall t | t in s.threads :: t.Holds() == multiset{}) ==>
                  |s.pool.free| == cfg.numBlocks && (forall b: nat | b < cfg.numBlocks :: b in s.pool.free)
                  && s.pool.index == map[])
  {
    StartInv(cfg, n);
    var s := Run(Start(cfg, n), acts);
    UsedBlocks(s.pool, Outstanding(s.threads));
    forall b: nat | b < |s.pool.blocks| ensures s.pool.blocks[b].refCount == Outstanding(s.threads)[b] {
      assert Accounted(s.pool, Outstanding(s.threads), b);
    }
    if forall t | t in s.threads :: t.Holds() == multiset{} {
      NothingHeld(Holdings(s.threads));
      Drained(s.pool);
    }
  }

  lemma {:induction false} NothingHeld(bags: seq<multiset<nat>>)
    requires forall i | 0 <= i < |bags| :: bags[i] == multiset{}
    ensures Sum(bags) == multiset{}
  {
    if bags != [] { NothingHeld(bags[..|bags| - 1]); }
  }

  /**
   The only step that changes contents somebody else can see is a step of a write, by a thread copy_on_write
   told to write in place, to a block that is still registered under a prefix.
   */
  lemma OnlyRegisteredWritesLeak(s: System, i: nat, a: Action, j: nat, b: nat)
    requires Inv(s) && i < |s.threads| && j < |s.threads| && i != j && b in s.threads[j].Holds()
    ensures b < |s.pool.blocks| && b < |Step(s, i, a).pool.blocks|
    ensures SameContents(s.pool, Step(s, i, a).pool, b)
            || (Writes(s.threads[i], a) && s.threads[i].phase.dst == b && Registered(s.pool, b))
  {
    StepKeepsInv(s, i, a);
    RestContains(Holdings(s.threads), i, j);
  }

  /** A schedule in which thread i takes no step. */
  ghost predicate Without(acts: Schedule, i: nat) {
    forall k | 0 <= k < |acts| :: acts[k].0 != i
  }

  /** Some interference gives thread j a handle on b while thread i stands still. */
  ghost predicate CanShare(s: System, i: nat, j: nat, b: nat)
    requires Inv(s) && j < |s.threads|
  {
    exists acts: Schedule :: Without(acts, i) && b in Run(s, acts).threads[j].Holds()
  }

  lemma NobodyElse(s: System, i: nat, b: nat)
    requires Inv(s) && i < |s.threads| && b in s.threads[i].Holds() && !Registered(s.pool, b)
    ensures forall j: nat | j < |s.threads| && j != i :: b !in s.threads[j].Holds()
  {
    hide Consistent, PhaseInv;
    StepOutstanding(s, i, s.threads[i]);
    assert b in Outstanding(s.threads);
    HeldInPool(s.pool, Outstanding(s.threads), b);
    SoleHolder(s.pool, s.threads[i], b, Others(s.threads, i));
    forall j: nat | j < |s.threads| && j != i ensures b !in s.threads[j].Holds() {
      RestContains(Holdings(s.threads), i, j);
    }
  }

  lemma HeldInPool(p: Pool, held: multiset<nat>, b: nat)
    requires Consistent(p, held) && b in held
    ensures b < |p.blocks|
  {
    hide Accounted;
  }

  /** Another thread's step neither moves thread i nor registers its unregistered block. */
  lemma StandsStill(s: System, i: nat, b: nat, j: nat, a: Action)
    requires Inv(s) && i < |s.threads| && b in s.threads[i].Holds() && !Registered(s.pool, b)
    requires j < |s.threads| && j != i
    ensures Step(s, j, a).threads[i] == s.threads[i] && !Registered(Step(s, j, a).pool, b)
  {
    StepKeepsInv(s, j, a);
    RestContains(Holdings(s.threads), j, i);
  }

  /** While thread i holds an unregistered block, no run of the others registers or shares it. */
  lemma {:induction false} UnregisteredStaysPrivate(s: System, i: nat, b: nat, acts: Schedule)
    requires Inv(s) && i < |s.threads| && b in s.threads[i].Holds() && !Registered(s.pool, b)
    requires Without(acts, i)
    ensures var r := Run(s, acts);
            && r.threads[i] == s.threads[i] && !Registered(r.pool, b)
            && forall j: nat | j < |r.threads| && j != i :: b !in r.threads[j].Holds()
  {
    hide Inv, Step, Registered;
    if acts != [] {
      var front := acts[..|acts| - 1];
      var (j, a) := acts[|acts| - 1];
      UnregisteredStaysPrivate(s, i, b, front);
      assert acts[|acts| - 1].0 != i;
      if j < |s.threads| { StandsStill(Run(s, front), i, b, j, a); }
    }
    NobodyElse(Run(s, acts), i, b);
  }

  /** A step of a thread that exists, as the last of a schedule. */
  lemma RunStep(s: System, acts: Schedule, i: nat, a: Action)
    requires Inv(s) && i < |s.threads|
    ensures Run(s, acts + [(i, a)]) == Step(Run(s, acts), i, a)
  {
    var all := acts + [(i, a)];
    assert all[..|all| - 1] == acts;
  }

  lemma LookupShares(s: System, j: nat, hash: int)
    requires Inv(s) && j < |s.threads| && s.threads[j].phase == Idle && hash in s.pool.index
    ensures s.pool.index[hash] in Step(s, j, DoLookup(hash)).threads[j].Holds()
  {}

  /** A registered block stays registered while somebody holds it and stands still. */
  lemma {:induction false} RegisteredStays(s: System, i: nat, b: nat, acts: Schedule)
    requires Inv(s) && i < |s.threads| && b in s.threads[i].Holds() && Registered(s.pool, b) && Without(acts, i)
    ensures Run(s, acts).threads[i] == s.threads[i] && Registered(Run(s, acts).pool, b)
  {
    hide Inv, Step, Registered;
    if acts != [] {
      var front := acts[..|acts| - 1];
      var (j, a) := acts[|acts| - 1];
      RegisteredStays(s, i, b, front);
      assert acts[|acts| - 1].0 != i;
      if j < |s.threads| { StaysRegistered(Run(s, front), i, b, j, a); }
    }
  }

  lemma StaysRegistered(s: System, i: nat, b: nat, j: nat, a: Action)
    requires Inv(s) && i < |s.threads| && b in s.threads[i].Holds() && Registered(s.pool, b)
    requires j < |s.threads| && j != i
    ensures Step(s, j, a).threads[i] == s.threads[i] && Registered(Step(s, j, a).pool, b)
  {
    StepKeepsInv(s, j, a);
    RestContains(Holdings(s.threads), j, i);
  }

  /** How many steps a thread is from being idle, at most. */
  function ToGo(phase: Phase): nat {
    match phase
    case Idle => 0
    case HalfWritten(dst, slot, w) => 1
    case Writable(dst) => 2
    case Copied(src, dst) => 3
    case HalfCopied(src, dst) => 4
    case Holding(src, dst) => 5
    case Tested(src) => 6
  }

  /** The step a busy thread makes next. */
  function NextAction(phase: Phase): Action {
    match phase
    case Tested(src) => CowTake
    case Holding(src, dst) => CowCopyK
    case HalfCopied(src, dst) => CowCopyV
    case Copied(src, dst) => CowDrop
    case Writable(dst) => WriteK(0, Write(0, 0, [], []))
    case _ => WriteV
  }

  lemma Progress(s: System, j: nat)
    requires Inv(s) && j < |s.threads| && s.threads[j].phase != Idle
    ensures ToGo(Step(s, j, NextAction(s.threads[j].phase)).threads[j].phase) < ToGo(s.threads[j].phase)
  {
    PhaseInvOf(s, j);
    hide Inv;
    ActProgress(s.pool, s.threads[j]);
    hide Act, ToGo, NextAction;
  }

  lemma PhaseInvOf(s: System, i: nat)
    requires Inv(s) && i < |s.threads|
    ensures PhaseInv(s.pool, s.threads[i]) && InRange(s.pool)
  {}

  lemma ActProgress(p: Pool, t: Thread)
    requires InRange(p) && PhaseInv(p, t) && t.phase != Idle
    ensures ToGo(Act(p, t, NextAction(t.phase)).thread.phase) < ToGo(t.phase)
  {
    hide Take, Release, Put, InRange, PhaseInv;
  }

  /** A busy thread can finish what it is doing while thread i stands still. */
  lemma {:induction false} Finishes(s: System, i: nat, j: nat, acts: Schedule) returns (more: Schedule)
    requires Inv(s) && j < |s.threads| && i != j && Without(acts, i)
    ensures Without(more, i) && Run(s, more).threads[j].phase == Idle
    decreases ToGo(Run(s, acts).threads[j].phase)
  {
    var q := Run(s, acts);
    if q.threads[j].phase == Idle { return acts; }
    hide Step, Inv, ToGo, NextAction;
    var a := NextAction(q.threads[j].phase);
    Progress(q, j);
    RunStep(s, acts, j, a);
    more := Finishes(s, i, j, acts + [(j, a)]);
  }

  /**
   While a thread holds a block, in particular between copy_on_write answering "write in place" and the write
   itself, each other thread can come to share the block exactly when the block is prefix-registered.
   */
  lemma {:induction false} WriteWindow(s: System, i: nat, j: nat, b: nat)
    requires Inv(s) && i < |s.threads| && j < |s.threads| && i != j
    requires b in s.threads[i].Holds()
    ensures CanShare(s, i, j, b) <==> Registered(s.pool, b)
  {
    if Registered(s.pool, b) {
      ComesToShare(s, i, j, b);
    } else if CanShare(s, i, j, b) {
      var acts: Schedule :| Without(acts, i) && b in Run(s, acts).threads[j].Holds();
      UnregisteredStaysPrivate(s, i, b, acts);
      assert false;
    }
  }

  lemma ComesToShare(s: System, i: nat, j: nat, b: nat)
    requires Inv(s) && i < |s.threads| && j < |s.threads| && i != j
    requires b in s.threads[i].Holds() && Registered(s.pool, b)
    ensures CanShare(s, i, j, b)
  {
    var acts := Finishes(s, i, j, []);
    RegisteredStays(s, i, b, acts);
    var q := Run(s, acts);
    HashNames(q, i, b);
    var h := q.pool.blocks[b].prefixHash.value;
    hide Inv, Step, Registered;
    LookupShares(q, j, h);
    RunStep(s, acts, j, DoLookup(h));
    assert Without(acts + [(j, DoLookup(h))], i);
  }

  /** The prefix index leads from a held block's hash back to the block. */
  lemma HashNames(s: System, i: nat, b: nat)
    requires Inv(s) && i < |s.threads| && b in s.threads[i].Holds() && Registered(s.pool, b)
    ensures b < |s.pool.blocks| && s.pool.blocks[b].prefixHash.Some?
    ensures s.pool.blocks[b].prefixHash.value in s.pool.index && s.pool.index[s.pool.blocks[b].prefixHash.value] == b
  {
    assert Accounted(s.pool, Outstanding(s.threads), b);
  }

  // ----- What the locked calls do -----

  /**
   The calls of an idle thread: allocate, and a lookup of a new prefix, give it the top block of the free list, which
   nobody held, or nothing when the list is empty; a lookup of a known prefix gives it a handle on that block; free
   takes one handle away.
   */
  lemma {:induction false} CallsTakeEffect(s: System, i: nat, hash: int, b: nat)
    requires Inv(s) && i < |s.threads| && s.threads[i].phase == Idle
    ensures var p, held := s.pool, s.threads[i].Holds();
            var freed, taken, found := Step(s, i, DoFree(b)), Step(s, i, DoAllocate), Step(s, i, DoLookup(hash));
            && (b in held ==>
                  b < |p.blocks| && freed.threads[i] == Thread(held - multiset{b}, Idle)
                  && freed.pool.blocks[b].refCount == p.blocks[b].refCount - 1)
            && (hash in p.index ==> found.threads[i] == Thread(held + multiset{p.index[hash]}, Idle))
            && (p.free == [] ==> taken == s && (hash !in p.index ==> found == s))
            && (p.free != [] ==>
                  var top := p.free[|p.free| - 1];
                  && top !in Outstanding(s.threads) && taken.threads[i] == Thread(held + multiset{top}, Idle)
                  && taken.pool.free == p.free[..|p.free| - 1] && taken.pool.index == p.index
                  && (hash !in p.index ==>
                        && found.threads[i] == taken.threads[i] && found.pool.free == taken.pool.free
                        && found.pool.index == p.index[hash := top]))
  {
    var p := s.pool;
    assert s.threads[i].Holds() == s.threads[i].handles;
    assert s.threads[i := s.threads[i]] == s.threads;
    if p.free != [] { assert Accounted(p, Outstanding(s.threads), p.free[|p.free| - 1]); }
    hide Consistent, Outstanding, Accounted;
  }

  // ----- Every block can be given back -----

  /** How far a thread is from holding nothing. */
  function Weight(t: Thread): nat {
    8 * |t.handles| + if t.phase.Idle? then 0 else 8 + ToGo(t.phase)
  }

  /** The step that brings a thread nearer to it. */
  ghost function LettingGo(t: Thread): Action {
    if t.phase.Idle? && t.handles != multiset{} then (var b :| b in t.handles; DoFree(b)) else NextAction(t.phase)
  }

  lemma WeightFalls(p: Pool, t: Thread)
    requires InRange(p) && PhaseInv(p, t) && t.Holds() != multiset{}
    ensures Weight(Act(p, t, LettingGo(t)).thread) < Weight(t)
  {
    if t.phase.Idle? {
      assert t.Holds() == t.handles;
      hide Take, Release, InRange, PhaseInv;
    } else {
      ActProgress(p, t);
      BusyHandles(p, t);
      hide Act, NextAction, InRange, PhaseInv;
    }
  }

  /** A busy thread's handles change only when it is done. */
  lemma BusyHandles(p: Pool, t: Thread)
    requires InRange(p) && PhaseInv(p, t) && t.phase != Idle
    ensures var r := Act(p, t, NextAction(t.phase)).thread;
            if r.phase.Idle? then |r.handles| == |t.handles| + 1 else r.handles == t.handles
  {
    hide Take, Release, Put, InRange, PhaseInv, StoreK, StoreV;
  }

  lemma {:induction false} DrainOne(s: System, acts: Schedule, j: nat) returns (more: Schedule)
    requires Inv(s) && j < |s.threads|
    ensures Run(s, more).threads[j].Holds() == multiset{}
    ensures forall k: nat | k < |s.threads| && k != j :: Run(s, more).threads[k] == Run(s, acts).threads[k]
    decreases Weight(Run(s, acts).threads[j])
  {
    var q := Run(s, acts);
    var t := q.threads[j];
    if t.Holds() == multiset{} { return acts; }
    PhaseInvOf(q, j);
    hide Inv, Weight, LettingGo, Act, PhaseInv, InRange;
    WeightFalls(q.pool, t);
    RunStep(s, acts, j, LettingGo(t));
    more := DrainOne(s, acts + [(j, LettingGo(t))], j);
  }

  lemma {:induction false} DrainFirst(s: System, n: nat) returns (acts: Schedule)
    requires Inv(s) && n <= |s.threads|
    ensures forall j: nat | j < n :: Run(s, acts).threads[j].Holds() == multiset{}
  {
    if n == 0 { return []; }
    hide Inv, Run;
    acts := DrainFirst(s, n - 1);
    acts := DrainOne(s, acts, n - 1);
  }

  /** From every state of every run some schedule ends with the whole pool free: no block is ever lost. */
  lemma {:induction false} CanDrain(cfg: Config, n: nat, acts: Schedule) returns (more: Schedule)
    ensures Inv(Start(cfg, n))
    ensures var s := Run(Run(Start(cfg, n), acts), more);
            && (forall t | t in s.threads :: t.Holds() == multiset{})
            && |s.pool.free| == cfg.numBlocks && s.pool.index == map[]
  {
    StartInv(cfg, n);
    var q := Run(Start(cfg, n), acts);
    more := DrainFirst(q, n);
    var s := Run(q, more);
    NothingHeld(Holdings(s.threads));
    Drained(s.pool);
  }

  // ----- Uninterrupted -----

  /** The steps of one copy_on_write and the write after it. */
  function WholeWrite(i: nat, b: nat, slot: nat, w: Write): Schedule {
    [(i, CowTest(b))] + [(i, CowTake)] + [(i, CowCopyK)] + [(i, CowCopyV)] + [(i, CowDrop)] + [(i, WriteK(slot, w))]
        + [(i, WriteV)]
  }

  /** K and then V stored are the whole write. */
  lemma StoreBoth(p: Pool, b: nat, slot: nat, w: Write)
    requires InRange(p) && b < |p.blocks|
    ensures var half := StoreK(p, b, Put(p.blocks[b].k, w.layer, w.head, slot, w.k));
            StoreV(half, b, Put(half.blocks[b].v, w.layer, w.head, slot, w.v)) == WriteSlot(p, b, slot, w)
  {}

  lemma CopyBoth(p: Pool, src: nat, dst: nat)
    requires InRange(p) && src < |p.blocks| && dst < |p.blocks| && src != dst
    ensures var half := StoreK(p, dst, p.blocks[src].k);
            StoreV(half, dst, half.blocks[src].v) == CopyContents(p, src, dst)
  {}

  /** Where a schedule of thread i's own steps has brought the pool and the thread. */
  ghost predicate Stands(s: System, acts: Schedule, i: nat, p: Pool, phase: Phase) {
    Inv(s) && i < |s.threads| && Run(s, acts).pool == p && Run(s, acts).threads[i].phase == phase
  }

  /** A step that its thread's phase calls for. */
  predicate Called(phase: Phase, a: Action) {
    match a
    case CowTake => phase.Tested?
    case CowCopyK => phase.Holding?
    case CowCopyV => phase.HalfCopied?
    case CowDrop => phase.Copied?
    case WriteK(slot, w) => phase.Writable?
    case WriteV => phase.HalfWritten?
    case _ => true
  }

  /** The thread's next step, seen by itself. */
  lemma Stepped(s: System, acts: Schedule, i: nat, p: Pool, phase: Phase, a: Action) returns (t: Thread)
    requires Stands(s, acts, i, p, phase)
    ensures InRange(p) && PhaseInv(p, t) && t.phase == phase
    ensures Stands(s, acts + [(i, a)], i, Act(p, t, a).pool, Act(p, t, a).thread.phase)
  {
    RunStep(s, acts, i, a);
    hide Run, Consistent, Act;
    t := Run(s, acts).threads[i];
    InRangeOf(Run(s, acts));
  }

  lemma InRangeOf(s: System)
    requires Inv(s)
    ensures InRange(s.pool)
  {}

  lemma Skipped(s: System, acts: Schedule, i: nat, p: Pool, phase: Phase, a: Action)
    requires Stands(s, acts, i, p, phase) && !Called(phase, a)
    ensures Stands(s, acts + [(i, a)], i, p, phase)
  {
    hide Stands, PhaseInv, InRange;
    var t := Stepped(s, acts, i, p, phase, a);
  }

  lemma DoesTest(s: System, i: nat, b: nat)
    requires Inv(s) && i < |s.threads| && s.threads[i].phase == Idle && b in s.threads[i].Holds() && b < |s.pool.blocks|
    ensures Stands(s, [(i, CowTest(b))], i, s.pool, if s.pool.blocks[b].refCount <= 1 then Writable(b) else Tested(b))
  {
    var none: Schedule := [];
    assert none + [(i, CowTest(b))] == [(i, CowTest(b))];
    RunStep(s, none, i, CowTest(b));
    assert Run(s, none) == s;
    hide Run, Consistent;
  }

  lemma DoesTake(s: System, acts: Schedule, i: nat, p: Pool, src: nat)
    requires Stands(s, acts, i, p, Tested(src))
    ensures InRange(p)
    ensures var r := Take(p, None);
            if r.Got? then Stands(s, acts + [(i, CowTake)], i, r.pool, Holding(src, r.id))
            else Stands(s, acts + [(i, CowTake)], i, p, Idle)
  {
    hide Stands, Take;
    var t := Stepped(s, acts, i, p, Tested(src), CowTake);
  }

  lemma DoesCopy(s: System, acts: Schedule, i: nat, p: Pool, src: nat, dst: nat)
    requires Stands(s, acts, i, p, Holding(src, dst)) && src != dst
    ensures InRange(p) && src < |p.blocks| && dst < |p.blocks|
    ensures Stands(s, acts + [(i, CowCopyK)] + [(i, CowCopyV)], i, CopyContents(p, src, dst), Copied(src, dst))
  {
    hide Stands;
    var t := Stepped(s, acts, i, p, Holding(src, dst), CowCopyK);
    assert src in t.Holds() && dst in t.Holds();
    var half := StoreK(p, dst, p.blocks[src].k);
    var u := Stepped(s, acts + [(i, CowCopyK)], i, half, HalfCopied(src, dst), CowCopyV);
    CopyBoth(p, src, dst);
  }

  lemma DoesDrop(s: System, acts: Schedule, i: nat, p: Pool, src: nat, dst: nat)
    requires Stands(s, acts, i, p, Copied(src, dst))
    ensures InRange(p) && src < |p.blocks| && Stands(s, acts + [(i, CowDrop)], i, Release(p, src), Writable(dst))
  {
    hide Stands, Release;
    var t := Stepped(s, acts, i, p, Copied(src, dst), CowDrop);
    assert src in t.Holds();
  }

  lemma DoesWrite(s: System, acts: Schedule, i: nat, p: Pool, b: nat, slot: nat, w: Write)
    requires Stands(s, acts, i, p, Writable(b))
    ensures InRange(p) && b < |p.blocks|
    ensures Stands(s, acts + [(i, WriteK(slot, w))] + [(i, WriteV)], i, WriteSlot(p, b, slot, w), Idle)
  {
    hide Stands, Put;
    var t := Stepped(s, acts, i, p, Writable(b), WriteK(slot, w));
    assert b in t.Holds();
    var half := StoreK(p, b, Put(p.blocks[b].k, w.layer, w.head, slot, w.k));
    var u := Stepped(s, acts + [(i, WriteK(slot, w))], i, half, HalfWritten(b, slot, w), WriteV);
    StoreBoth(p, b, slot, w);
  }

  lemma TakesAnother(s: System, i: nat, b: nat)
    requires Inv(s) && i < |s.threads| && b in s.threads[i].Holds() && Take(s.pool, None).Got?
    ensures Take(s.pool, None).id != b
  {
    TakeConsistent(s.pool, None, Outstanding(s.threads));
    StepOutstanding(s, i, s.threads[i]);
    hide Consistent;
  }

  /**
   Run without interference, the steps of copy_on_write and of the write after it are the one call on the pool
   that the single-threaded laws speak of.
   */
  lemma Uninterrupted(s: System, i: nat, b: nat, slot: nat, w: Write)
    requires Inv(s) && i < |s.threads| && s.threads[i].phase == Idle && b in s.threads[i].Holds()
    ensures b < |s.pool.blocks| && InRange(s.pool)
    ensures var r := CopyOnWrite(s.pool, b);
            if r.Got? then Stands(s, WholeWrite(i, b, slot, w), i, WriteSlot(r.pool, r.id, slot, w), Idle)
            else Stands(s, WholeWrite(i, b, slot, w), i, s.pool, Idle)
  {
    assert b < |s.pool.blocks|;
    InRangeOf(s);
    DoesTest(s, i, b);
    var a1: Schedule := [(i, CowTest(b))];
    if s.pool.blocks[b].refCount <= 1 {
      hide Stands, Inv, Run, PhaseInv, InRange;
      Idles(s, a1, i, s.pool, Writable(b));
      DoesWrite(s, a1 + [(i, CowTake)] + [(i, CowCopyK)] + [(i, CowCopyV)] + [(i, CowDrop)], i, s.pool, b, slot, w);
    } else {
      if Take(s.pool, None).Got? { TakesAnother(s, i, b); }
      hide Stands, Inv, Run, PhaseInv, InRange, Take;
      CopiesThenWrites(s, a1, i, s.pool, b, slot, w);
    }
  }

  lemma CopiesThenWrites(s: System, a1: Schedule, i: nat, p: Pool, b: nat, slot: nat, w: Write)
    requires Stands(s, a1, i, p, Tested(b)) && InRange(p) && b < |p.blocks|
    requires Take(p, None).Got? ==> Take(p, None).id != b
    ensures var all := a1 + [(i, CowTake)] + [(i, CowCopyK)] + [(i, CowCopyV)] + [(i, CowDrop)] + [(i, WriteK(slot, w))]
            + [(i, WriteV)];
            var r := Take(p, None);
            if r.Exhausted? then Stands(s, all, i, p, Idle)
            else Stands(s, all, i, WriteSlot(Release(CopyContents(r.pool, b, r.id), b), r.id, slot, w), Idle)
  {
    hide Stands, Release, CopyContents, WriteSlot, InRange;
    var a2, a3 := a1 + [(i, CowTake)], a1 + [(i, CowTake)] + [(i, CowCopyK)];
    var a5 := a3 + [(i, CowCopyV)] + [(i, CowDrop)];
    DoesTake(s, a1, i, p, b);
    match Take(p, None)
    case Exhausted =>
      Skipped(s, a2, i, p, Idle, CowCopyK);
      Skipped(s, a3, i, p, Idle, CowCopyV);
      Skipped(s, a3 + [(i, CowCopyV)], i, p, Idle, CowDrop);
      Skipped(s, a5, i, p, Idle, WriteK(slot, w));
      Skipped(s, a5 + [(i, WriteK(slot, w))], i, p, Idle, WriteV);
    case Got(q, id) =>
      DoesCopy(s, a2, i, q, b, id);
      DoesDrop(s, a3 + [(i, CowCopyV)], i, CopyContents(q, b, id), b, id);
      DoesWrite(s, a5, i, Release(CopyContents(q, b, id), b), id, slot, w);
  }

  /** None of the copying steps does anything once copy_on_write has answered "write in place". */
  lemma Idles(s: System, acts: Schedule, i: nat, p: Pool, phase: Phase)
    requires Stands(s, acts, i, p, phase) && phase.Writable?
    ensures Stands(s, acts + [(i, CowTake)] + [(i, CowCopyK)] + [(i, CowCopyV)] + [(i, CowDrop)], i, p, phase)
  {
    hide Stands;
    Skipped(s, acts, i, p, phase, CowTake);
    Skipped(s, acts + [(i, CowTake)], i, p, phase, CowCopyK);
    Skipped(s, acts + [(i, CowTake)] + [(i, CowCopyK)], i, p, phase, CowCopyV);
    Skipped(s, acts + [(i, CowTake)] + [(i, CowCopyK)] + [(i, CowCopyV)], i, p, phase, CowDrop);
  }

  /**
   So copy_on_write does not isolate writers by itself: in every such state with a registered block,
   one prefix lookup by another thread lets the pending write show through that thread's handle.
   */
  lemma {:induction false} RaceBreaksIsolation(s: System, i: nat, j: nat, b: nat, slot: nat, w: Write)
    requires Inv(s) && i < |s.threads| && j < |s.threads| && i != j
    requires s.threads[i].phase == Writable(b) && s.threads[j].phase == Idle && Registered(s.pool, b)
    requires Put(s.pool.blocks[b].k, w.layer, w.head, slot, w.k) != s.pool.blocks[b].k
    ensures var shared := Step(s, j, DoLookup(s.pool.blocks[b].prefixHash.value));
            && Inv(shared)
            && b in shared.threads[j].Holds() && b < |shared.pool.blocks|
            && Step(shared, i, WriteK(slot, w)).pool.blocks[b].k != shared.pool.blocks[b].k
  {
    var h := s.pool.blocks[b].prefixHash.value;
    assert Accounted(s.pool, Outstanding(s.threads), b);
    LookupShares(s, j, h);
    StepKeepsInv(s, j, DoLookup(h));
    var shared := Step(s, j, DoLookup(h));
    assert shared.pool.blocks[b].k == s.pool.blocks[b].k;
    WriteLands(shared.pool, shared.threads[i], b, slot, w);
  }

  lemma WriteLands(p: Pool, t: Thread, b: nat, slot: nat, w: Write)
    requires InRange(p) && PhaseInv(p, t) && t.phase == Writable(b) && b < |p.blocks|
    ensures Act(p, t, WriteK(slot, w)).pool.blocks[b].k == Put(p.blocks[b].k, w.layer, w.head, slot, w.k)
  {}

  /** Such states arise wherever a thread registers a new prefix and asks to write to its block. */
  lemma RegisterAndTest(p: Pool, t: Thread, hash: int)
    requires InRange(p) && PhaseInv(p, t) && t.phase == Idle && p.free != [] && hash !in p.index
    ensures var id, r := p.free[|p.free| - 1], Act(p, t, DoLookup(hash));
            && InRange(r.pool) && PhaseInv(r.pool, r.thread) && Registered(r.pool, id)
            && Act(r.pool, r.thread, CowTest(id)).thread.phase == Writable(id)
            && Act(r.pool, r.thread, CowTest(id)).pool == r.pool
  {
    var id, r := p.free[|p.free| - 1], Act(p, t, DoLookup(hash));
    assert r.thread.handles == t.handles + multiset{id};
    assert id in r.thread.Holds();
    assert forall b | b in r.thread.Holds() :: b == id || b in t.Holds();
    assert r.pool.blocks[id].refCount == 1;
  }
}
