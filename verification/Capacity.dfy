/**
 Many sequences growing in one pool (core/cache_manager.py, class CacheManager), with no other client of
 the allocator: blocks in use are exactly what the cached tokens need.
 */
module Capacity {
  import opened Bags
  import opened KVPool
  import opened Sequences
  import opened Paging

  datatype Manager = Manager(pool: Pool, sequences: map<string, Seq>)

  /** `ok` is false when the call raised. */
  datatype Reply = Reply(ok: bool, manager: Manager)

  ghost predicate WellTabled(m: Manager) {
    InRange(m.pool) && forall id | id in m.sequences :: InTable(m.pool, m.sequences[id])
  }

  /** ValueError when the id is taken. */
  function CreateSequence(m: Manager, id: string): Reply {
    if id in m.sequences then Reply(false, m) else Reply(true, m.(sequences := m.sequences[id := EMPTY_SEQ]))
  }

  /** get_sequence, one append_token_kv, increment_token_count. */
  function AddToken(bs: BlockSize, m: Manager, id: string, w: Write): (r: Reply)
    requires WellTabled(m)
    ensures WellTabled(r.manager)
  {
    if id !in m.sequences then Reply(false, m)
    else
      var r := Append(bs, m.pool, m.sequences[id], w);
      var cache := if r.ok then r.cache.(tokens := r.cache.tokens + 1) else r.cache;
      Reply(r.ok, Manager(r.pool, m.sequences[id := cache]))
  }

  function FreeSequence(m: Manager, id: string): (r: Manager)
    requires WellTabled(m)
    ensures WellTabled(r)
  {
    if id !in m.sequences then m
    else Manager(ReleaseAll(m.pool, m.sequences[id].table), m.sequences - {id})
  }

  // ----- Totals over the sequences -----

  ghost function Pick(m: map<string, Seq>): (id: string)
    requires m != map[]
    ensures id in m
  {
    var id :| id in m; id
  }

  ghost function Handles(m: map<string, Seq>): multiset<nat> {
    if m == map[] then multiset{} else Handles(m - {Pick(m)}) + multiset(m[Pick(m)].table)
  }

  /** The blocks all cached tokens need: the sum of ceil(tokens / block_size). */
  ghost function Demand(bs: BlockSize, m: map<string, Seq>): nat {
    if m == map[] then 0 else Demand(bs, m - {Pick(m)}) + CeilDiv(m[Pick(m)].tokens, bs)
  }

  lemma {:induction false} HandlesSplit(m: map<string, Seq>, id: string)
    requires id in m
    ensures Handles(m) == Handles(m - {id}) + multiset(m[id].table)
    decreases |m|
  {
    var x := Pick(m);
    if x != id {
      HandlesSplit(m - {x}, id);
      HandlesSplit(m - {id}, x);
      assert m - {x} - {id} == m - {id} - {x};
      Swap(Handles(m - {id} - {x}), multiset(m[id].table), multiset(m[x].table));
    }
  }

  ghost predicate CeilBlocks(bs: BlockSize, m: map<string, Seq>) {
    forall id | id in m :: |m[id].table| == CeilDiv(m[id].tokens, bs)
  }

  lemma {:induction false} HandlesSize(bs: BlockSize, m: map<string, Seq>)
    requires CeilBlocks(bs, m)
    ensures |Handles(m)| == Demand(bs, m)
  {
    if m != map[] { HandlesSize(bs, m - {Pick(m)}); }
  }

  lemma {:induction false} SupportSize(held: multiset<nat>)
    requires forall b | b in held :: held[b] == 1
    ensures |Support(held)| == |held|
    decreases |held|
  {
    if held != multiset{} {
      var b :| b in held;
      SupportSize(held - multiset{b});
      assert Support(held) == Support(held - multiset{b}) + {b};
    }
  }

  // ----- The invariant -----

  ghost predicate InvWith(bs: BlockSize, m: Manager, held: multiset<nat>) {
    && WellTabled(m)
    && Consistent(m.pool, held)
    && m.pool.index == map[]
    && CeilBlocks(bs, m.sequences)
  }

  /** The pool accounts for exactly the blocks in the sequences' tables, and each table is just long enough. */
  ghost predicate Inv(bs: BlockSize, m: Manager) {
    InvWith(bs, m, Handles(m.sequences))
  }

  /** Used blocks are the sum of ceil(tokens / block_size). */
  lemma {:induction false} UsedIsDemand(bs: BlockSize, m: Manager)
    requires Inv(bs, m)
    ensures |m.pool.blocks| - |m.pool.free| == Demand(bs, m.sequences)
  {
    var held := Handles(m.sequences);
    UsedBlocks(m.pool, held);
    forall b | b in held ensures held[b] == 1 { assert Accounted(m.pool, held, b); }
    SupportSize(held);
    HandlesSize(bs, m.sequences);
  }

  lemma CreateKeeps(bs: BlockSize, m: Manager, id: string)
    requires Inv(bs, m)
    ensures Inv(bs, CreateSequence(m, id).manager)
  {
    hide Consistent, CeilDiv, Handles;
    var r := CreateSequence(m, id);
    if r.ok {
      HandlesSplit(r.manager.sequences, id);
      assert r.manager.sequences - {id} == m.sequences;
      assert Handles(m.sequences) + multiset(EMPTY_SEQ.table) == Handles(m.sequences);
      CeilStep(0, bs);
    }
  }

  lemma FreeKeeps(bs: BlockSize, m: Manager, id: string)
    requires Inv(bs, m)
    ensures Inv(bs, FreeSequence(m, id))
  {
    if id in m.sequences {
      var table := m.sequences[id].table;
      HandlesSplit(m.sequences, id);
      ReleaseAllConsistent(m.pool, table, Handles(m.sequences - {id}));
      ReleaseAllIndex(m.pool, table);
    }
  }

  lemma {:induction false} ReleaseAllIndex(p: Pool, ids: seq<nat>)
    requires InRange(p) && (forall i | 0 <= i < |ids| :: ids[i] < |p.blocks|) && p.index == map[]
    ensures ReleaseAll(p, ids).index == map[]
  {
    if ids != [] { ReleaseAllIndex(p, ids[..|ids| - 1]); }
  }

  /** Unshared blocks go back to the free list in the order of the table. */
  lemma {:induction false} ReleaseAllFree(p: Pool, ids: seq<nat>, others: multiset<nat>)
    requires Consistent(p, others + multiset(ids)) && p.index == map[]
    requires forall i | 0 <= i < |ids| :: ids[i] < |p.blocks|
    ensures ReleaseAll(p, ids).free == p.free + ids
  {
    if ids != [] {
      var rest, b := ids[..|ids| - 1], ids[|ids| - 1];
      assert ids == rest + [b];
      assert others + multiset(ids) == (others + multiset{b}) + multiset(rest);
      ReleaseAllFree(p, rest, others + multiset{b});
      ReleaseAllConsistent(p, rest, others + multiset{b});
      ReleaseAllIndex(p, rest);
      ReleaseOneFree(ReleaseAll(p, rest), b, others + multiset{b});
    }
  }

  lemma ReleaseOneFree(p: Pool, b: nat, held: multiset<nat>)
    requires Consistent(p, held) && p.index == map[] && b in held
    ensures Release(p, b).free == p.free + [b]
  {
    assert Accounted(p, held, b);
  }

  lemma {:induction false} DemandSplit(bs: BlockSize, m: map<string, Seq>, id: string)
    requires id in m
    ensures Demand(bs, m) == Demand(bs, m - {id}) + CeilDiv(m[id].tokens, bs)
    decreases |m|
  {
    hide CeilDiv;
    var x := Pick(m);
    if x != id {
      DemandSplit(bs, m - {x}, id);
      DemandSplit(bs, m - {id}, x);
      assert m - {x} - {id} == m - {id} - {x};
    }
  }

  /**
   Freeing takes exactly one sequence out, returns exactly its blocks to the free list, and lowers the demand by
   what its tokens needed; an unknown id changes nothing.
   */
  lemma {:induction false} FreedExactly(bs: BlockSize, m: Manager, id: string)
    requires Inv(bs, m)
    ensures var r := FreeSequence(m, id);
            if id in m.sequences then
              && r.sequences == m.sequences - {id}
              && r.pool.free == m.pool.free + m.sequences[id].table
              && |m.sequences[id].table| == CeilDiv(m.sequences[id].tokens, bs)
              && Demand(bs, r.sequences) == Demand(bs, m.sequences) - CeilDiv(m.sequences[id].tokens, bs)
            else r == m
  {
    if id in m.sequences {
      hide CeilDiv, Consistent, ReleaseAll, Handles, Demand;
      HandlesSplit(m.sequences, id);
      ReleaseAllFree(m.pool, m.sequences[id].table, Handles(m.sequences - {id}));
      DemandSplit(bs, m.sequences, id);
    }
  }

  lemma FreedBlocks(bs: BlockSize, m: Manager, id: string)
    requires WellTabled(m) && id in m.sequences
    ensures Inv(bs, m) ==> FreeSequence(m, id).pool.free == m.pool.free + m.sequences[id].table
  {
    hide Inv, WellTabled, FreeSequence;
    if Inv(bs, m) { FreedExactly(bs, m, id); }
  }

  lemma AppendIndex(bs: BlockSize, p: Pool, s: Seq, w: Write)
    requires InTable(p, s) && p.index == map[]
    ensures Append(bs, p, s, w).pool.index == map[]
  {}

  /** With no prefixes registered, no handle is shared. */
  lemma Unshared(p: Pool, held: multiset<nat>, b: nat)
    requires Consistent(p, held) && p.index == map[] && b < |p.blocks|
    ensures p.blocks[b].refCount <= 1
  {
    assert Accounted(p, held, b);
  }

  lemma AppendCounts(bs: BlockSize, p: Pool, s: Seq, w: Write, others: multiset<nat>)
    requires InTable(p, s) && Consistent(p, others + multiset(s.table)) && p.index == map[]
             && |s.table| == CeilDiv(s.tokens, bs)
    ensures var r := Append(bs, p, s, w);
            && (r.ok <==> s.tokens % bs != 0 || p.free != [])
            && (r.ok ==> r.cache.tokens == s.tokens && |r.cache.table| == CeilDiv(s.tokens + 1, bs))
            && (!r.ok ==> r.pool == p && r.cache == s)
  {
    hide Append, CeilDiv, Consistent;
    AppendIsolated(bs, p, s, w, others);
    CeilStep(s.tokens, bs);
    if s.table != [] { Unshared(p, others + multiset(s.table), s.table[|s.table| - 1]); }
  }

  /** The two outcomes of AddToken on a sequence that exists. */
  lemma AddTokenManager(bs: BlockSize, m: Manager, id: string, w: Write)
    requires WellTabled(m) && id in m.sequences
    ensures var q, r := Append(bs, m.pool, m.sequences[id], w), AddToken(bs, m, id, w);
            && r.ok == q.ok
            && (q.ok ==> r.manager == Manager(q.pool, m.sequences[id := q.cache.(tokens := q.cache.tokens + 1)]))
            && (q == Outcome(false, m.pool, m.sequences[id]) ==> r.manager == m)
  {
    assert m.sequences[id := m.sequences[id]] == m.sequences;
  }

  /** The invariant after one sequence and the pool changed together. */
  lemma InvAfter(bs: BlockSize, m: Manager, id: string, pool: Pool, s: Seq, held: multiset<nat>, held': multiset<nat>)
    requires InvWith(bs, m, held) && id in m.sequences && |pool.blocks| == |m.pool.blocks| && pool.index == map[]
    requires Consistent(pool, held')
    requires InTable(pool, s) && |s.table| == CeilDiv(s.tokens, bs)
    ensures InvWith(bs, Manager(pool, m.sequences[id := s]), held')
  {
    var after := m.sequences[id := s];
    forall x | x in after ensures InTable(pool, after[x]) && |after[x].table| == CeilDiv(after[x].tokens, bs) {
      if x != id { assert InTable(m.pool, m.sequences[x]); }
    }
  }

  lemma AddTokenWith(bs: BlockSize, m: Manager, id: string, w: Write, rest: multiset<nat>)
    requires id in m.sequences && InvWith(bs, m, rest + multiset(m.sequences[id].table))
    ensures var r := AddToken(bs, m, id, w).manager;
            id in r.sequences && InvWith(bs, r, rest + multiset(r.sequences[id].table))
  {
    var s := m.sequences[id];
    var q := Append(bs, m.pool, s, w);
    AppendCounts(bs, m.pool, s, w, rest);
    AddTokenManager(bs, m, id, w);
    if q.ok {
      AppendIsolated(bs, m.pool, s, w, rest);
      AppendIndex(bs, m.pool, s, w);
      InvAfter(bs, m, id, q.pool, q.cache.(tokens := q.cache.tokens + 1), rest + multiset(s.table),
          rest + multiset(q.cache.table));
    }
  }

  lemma ReplaceHandles(m: map<string, Seq>, id: string, s: Seq)
    requires id in m
    ensures Handles(m[id := s]) == Handles(m - {id}) + multiset(s.table)
  {
    HandlesSplit(m[id := s], id);
    assert m[id := s] - {id} == m - {id};
  }

  lemma AddTokenKeeps(bs: BlockSize, m: Manager, id: string, w: Write)
    requires Inv(bs, m)
    ensures Inv(bs, AddToken(bs, m, id, w).manager)
  {
    if id in m.sequences {
      var r := AddToken(bs, m, id, w).manager;
      HandlesSplit(m.sequences, id);
      AddTokenWith(bs, m, id, w, Handles(m.sequences - {id}));
      ReplaceHandles(m.sequences, id, r.sequences[id]);
    }
  }

  /**
   A token is refused exactly when its sequence needs a new block and the tokens already cached need the
   whole pool; a refused token changes nothing.
   */
  lemma {:induction false} AddTokenRefused(bs: BlockSize, m: Manager, id: string, w: Write)
    requires Inv(bs, m) && id in m.sequences
    ensures var r := AddToken(bs, m, id, w);
            && (!r.ok <==> m.sequences[id].tokens % bs == 0 && Demand(bs, m.sequences) == |m.pool.blocks|)
            && (!r.ok ==> r.manager == m)
  {
    HandlesSplit(m.sequences, id);
    AppendCounts(bs, m.pool, m.sequences[id], w, Handles(m.sequences - {id}));
    UsedIsDemand(bs, m);
    AddTokenManager(bs, m, id, w);
  }

  // ----- Whole runs -----

  datatype Op = Create(id: string) | Token(id: string, w: Write) | Free(id: string)

  function Step(bs: BlockSize, m: Manager, op: Op): (r: Manager)
    requires WellTabled(m)
    ensures WellTabled(r) && |r.pool.blocks| == |m.pool.blocks|
  {
    match op
    case Create(id) => CreateSequence(m, id).manager
    case Token(id, w) => AddToken(bs, m, id, w).manager
    case Free(id) => FreeSequence(m, id)
  }

  function Run(bs: BlockSize, m: Manager, ops: seq<Op>): (r: Manager)
    requires WellTabled(m)
    ensures WellTabled(r) && |r.pool.blocks| == |m.pool.blocks|
  {
    if ops == [] then m else Step(bs, Run(bs, m, ops[..|ops| - 1]), ops[|ops| - 1])
  }

  function StartManager(cfg: Config): (m: Manager)
    ensures WellTabled(m)
  {
    Manager(EmptyPool(cfg), map[])
  }

  lemma {:induction false} RunKeeps(cfg: Config, bs: BlockSize, ops: seq<Op>)
    ensures Inv(bs, Run(bs, StartManager(cfg), ops))
  {
    if ops == [] {
      EmptyPoolConsistent(cfg);
    } else {
      var m, op := Run(bs, StartManager(cfg), ops[..|ops| - 1]), ops[|ops| - 1];
      RunKeeps(cfg, bs, ops[..|ops| - 1]);
      match op
      case Create(id) => CreateKeeps(bs, m, id);
      case Token(id, w) => AddTokenKeeps(bs, m, id, w);
      case Free(id) => FreeKeeps(bs, m, id);
    }
  }

  lemma RunSnoc(bs: BlockSize, m: Manager, ops: seq<Op>, op: Op)
    requires WellTabled(m)
    ensures Run(bs, m, ops + [op]) == Step(bs, Run(bs, m, ops), op)
  {
    hide Step, WellTabled;
    assert (ops + [op])[..|ops|] == ops;
  }

  /** Which ids one call leaves live. */
  lemma StepLive(bs: BlockSize, m: Manager, op: Op, id: string)
    requires WellTabled(m)
    ensures id in Step(bs, m, op).sequences <==> op == Create(id) || (id in m.sequences && op != Free(id))
  {
    hide InRange, InTable, ReleaseAll, Append;
  }

  /** A sequence is live exactly when it was created and not freed since. */
  lemma {:induction false} LiveLaw(cfg: Config, bs: BlockSize, ops: seq<Op>, id: string)
    ensures id in Run(bs, StartManager(cfg), ops).sequences
            <==> exists k :: 0 <= k < |ops| && ops[k] == Create(id) && forall j | k < j < |ops| :: ops[j] != Free(id)
  {
    hide Step, WellTabled, StartManager;
    if ops == [] {
      NothingLive(cfg, bs);
    } else {
      var n := |ops| - 1;
      var front, op, m0 := ops[..n], ops[n], StartManager(cfg);
      LiveLaw(cfg, bs, front, id);
      StepLive(bs, Run(bs, m0, front), op, id);
      if op == Create(id) {
        assert ops[n] == Create(id);
      } else if id in Run(bs, m0, front).sequences && op != Free(id) {
        var k :| 0 <= k < n && front[k] == Create(id) && forall j | k < j < n :: front[j] != Free(id);
        assert ops[k] == Create(id) && forall j | k < j < |ops| :: ops[j] != Free(id);
      }
      if k :| 0 <= k < |ops| && ops[k] == Create(id) && forall j | k < j < |ops| :: ops[j] != Free(id) {
        if k < n { assert front[k] == Create(id) && forall j | k < j < n :: front[j] != Free(id); }
      }
    }
  }

  lemma NothingLive(cfg: Config, bs: BlockSize)
    ensures Run(bs, StartManager(cfg), []).sequences == map[]
  {}

  /** A run that frees every id after creating it ends with the whole pool free. */
  lemma {:induction false} AllFreed(cfg: Config, bs: BlockSize, ops: seq<Op>)
    requires forall k | 0 <= k < |ops| && ops[k].Create? :: exists j :: k < j < |ops| && ops[j] == Free(ops[k].id)
    ensures var m := Run(bs, StartManager(cfg), ops); m.sequences == map[] && |m.pool.free| == cfg.numBlocks
  {
    hide Run;
    var m := Run(bs, StartManager(cfg), ops);
    forall id ensures id !in m.sequences {
      LiveLaw(cfg, bs, ops, id);
      assert forall k | 0 <= k < |ops| && ops[k] == Create(id) :: exists j :: k < j < |ops| && ops[j] == Free(id);
    }
    CapacityLaw(cfg, bs, ops);
  }

  /**
   After any interleaving of create, token and free: the live sequences are those created and not freed since, used
   blocks equal the sum of ceil(tokens / block_size) over them, a token is refused exactly when its sequence needs a
   block and that sum has reached num_blocks, and with no sequence left every block is free again.
   */
  lemma {:induction false} CapacityLaw(cfg: Config, bs: BlockSize, ops: seq<Op>)
    ensures var m := Run(bs, StartManager(cfg), ops);
            && (forall id :: id in m.sequences <==>
                  exists k :: 0 <= k < |ops| && ops[k] == Create(id) && forall j | k < j < |ops| :: ops[j] != Free(id))
            && cfg.numBlocks - |m.pool.free| == Demand(bs, m.sequences)
            && (m.sequences == map[] ==> |m.pool.free| == cfg.numBlocks)
            && (forall id, w: Write | id in m.sequences ::
                  !AddToken(bs, m, id, w).ok
                  <==> m.sequences[id].tokens % bs == 0 && Demand(bs, m.sequences) == cfg.numBlocks)
  {
    hide Run, AddToken;
    var m := Run(bs, StartManager(cfg), ops);
    RunKeeps(cfg, bs, ops);
    UsedIsDemand(bs, m);
    forall id ensures id in m.sequences <==>
        exists k :: 0 <= k < |ops| && ops[k] == Create(id) && forall j | k < j < |ops| :: ops[j] != Free(id)
    {
      LiveLaw(cfg, bs, ops, id);
    }
    forall id, w: Write | id in m.sequences
      ensures !AddToken(bs, m, id, w).ok
              <==> m.sequences[id].tokens % bs == 0 && Demand(bs, m.sequences) == cfg.numBlocks
    {
      AddTokenRefused(bs, m, id, w);
    }
  }
}
