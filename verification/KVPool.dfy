/**
 The fixed pool of KV blocks (core/kv_cache.py): a LIFO free list, reference counts,
 a prefix-hash index and copy-on-write.

 `Pool` is the value of the whole allocator; the functions on it specify what one call does,
 and the lemmas say what every call keeps. Module KVCache holds the objects themselves.
 */
module KVPool {
  import opened Wrappers
  import opened Seqs

  /** One head_dim vector. */
  type Vec = seq<real>

  /** The contents of a block, indexed by layer, head and slot. */
  type Tensor = seq<seq<seq<Vec>>>

  datatype Config = Config(numLayers: nat, numHeads: nat, blockSize: nat, numBlocks: nat) {
    ghost predicate Shaped(t: Tensor) {
      && |t| == numLayers
      && forall l | 0 <= l < numLayers :: |t[l]| == numHeads && forall h | 0 <= h < numHeads :: |t[l][h]| == blockSize
    }

    /** A freshly zeroed tensor. */
    function Zeros(): (t: Tensor)
      ensures Shaped(t)
    {
      seq(numLayers, l => seq(numHeads, h => seq(blockSize, s => [])))
    }
  }

  datatype Block = Block(refCount: int, prefixHash: Option<int>, k: Tensor, v: Tensor)

  datatype Pool = Pool(blocks: seq<Block>, free: seq<nat>, index: map<int, nat>)

  /** A call that takes a block either gets one or finds the pool exhausted. */
  datatype Taken = Exhausted | Got(pool: Pool, id: nat)

  datatype Found = Miss(taken: Taken) | Hit(pool: Pool, id: nat)

  /** Every id the allocator has stored names a block of the pool. */
  ghost predicate InRange(p: Pool) {
    && (forall i | 0 <= i < |p.free| :: p.free[i] < |p.blocks|)
    && (forall h | h in p.index :: p.index[h] < |p.blocks|)
  }

  function EmptyPool(cfg: Config): (p: Pool)
    ensures InRange(p)
  {
    Pool(seq(cfg.numBlocks, i => Block(0, None, cfg.Zeros(), cfg.Zeros())), seq(cfg.numBlocks, (i: nat) => i), map[])
  }

  /** Pop the top of the free stack and hand it out with one reference. */
  function Take(p: Pool, hash: Option<int>): (r: Taken)
    requires InRange(p)
    ensures r.Got? ==> InRange(r.pool) && |r.pool.blocks| == |p.blocks| && r.id < |p.blocks|
  {
    if p.free == [] then Exhausted
    else
      var id := p.free[|p.free| - 1];
      Got(p.(blocks := p.blocks[id := p.blocks[id].(refCount := 1, prefixHash := hash)],
             free := p.free[..|p.free| - 1],
             index := if hash.Some? then p.index[hash.value := id] else p.index),
          id)
  }

  function Allocate(p: Pool): (r: Taken)
    requires InRange(p)
  {
    Take(p, None)
  }

  /** Drop one reference; the last one unregisters the block and pushes it on the free stack. */
  function Release(p: Pool, b: nat): (r: Pool)
    requires InRange(p) && b < |p.blocks|
    ensures InRange(r) && |r.blocks| == |p.blocks|
  {
    var block := p.blocks[b];
    if block.refCount == 1 then
      Pool(p.blocks[b := block.(refCount := 0, prefixHash := None)],
           p.free + [b],
           if block.prefixHash.Some? then p.index - {block.prefixHash.value} else p.index)
    else
      p.(blocks := p.blocks[b := block.(refCount := block.refCount - 1)])
  }

  function GetOrCreatePrefix(p: Pool, hash: int): (r: Found)
    requires InRange(p)
  {
    if hash in p.index then
      var id := p.index[hash];
      Hit(p.(blocks := p.blocks[id := p.blocks[id].(refCount := p.blocks[id].refCount + 1)]), id)
    else
      Miss(Take(p, Some(hash)))
  }

  function CopyContents(p: Pool, src: nat, dst: nat): (r: Pool)
    requires InRange(p) && src < |p.blocks| && dst < |p.blocks|
    ensures InRange(r)
  {
    p.(blocks := p.blocks[dst := p.blocks[dst].(k := p.blocks[src].k, v := p.blocks[src].v)])
  }

  /** The whole of copy_on_write run without interference: test, take, copy, drop. */
  function CopyOnWrite(p: Pool, b: nat): (r: Taken)
    requires InRange(p) && b < |p.blocks|
    ensures r.Got? ==> InRange(r.pool) && |r.pool.blocks| == |p.blocks| && r.id < |p.blocks|
  {
    if p.blocks[b].refCount <= 1 then Got(p, b)
    else
      match Take(p, None)
      case Exhausted => Exhausted
      case Got(q, id) => Got(Release(CopyContents(q, b, id), b), id)
  }

  /** One K and V vector for one layer and head. */
  datatype Write = Write(layer: nat, head: nat, k: Vec, v: Vec)

  /** Assignment to one slot of a tensor; an index outside the tensor writes nothing. */
  function Put(t: Tensor, layer: nat, head: nat, slot: nat, x: Vec): Tensor {
    if layer < |t| && head < |t[layer]| && slot < |t[layer][head]| then
      t[layer := t[layer][head := t[layer][head][slot := x]]]
    else t
  }

  function WriteSlot(p: Pool, b: nat, slot: nat, w: Write): (r: Pool)
    requires InRange(p) && b < |p.blocks|
    ensures InRange(r)
  {
    var block := p.blocks[b];
    var written := block.(k := Put(block.k, w.layer, w.head, slot, w.k), v := Put(block.v, w.layer, w.head, slot, w.v));
    p.(blocks := p.blocks[b := written])
  }

  function ReleaseAll(p: Pool, ids: seq<nat>): (r: Pool)
    requires InRange(p) && forall i | 0 <= i < |ids| :: ids[i] < |p.blocks|
    ensures InRange(r) && |r.blocks| == |p.blocks|
  {
    if ids == [] then p
    else Release(ReleaseAll(p, ids[..|ids| - 1]), ids[|ids| - 1])
  }

  /** Releasing the first i + 1 of a list is releasing the first i and then one more. */
  lemma ReleaseNext(p: Pool, ids: seq<nat>, i: nat)
    requires InRange(p) && (forall j | 0 <= j < |ids| :: ids[j] < |p.blocks|) && i < |ids|
    ensures ReleaseAll(p, ids[..i + 1]) == Release(ReleaseAll(p, ids[..i]), ids[i])
  {
    hide Release, InRange;
    assert ids[..i + 1][..i] == ids[..i];
  }

  // ----- What every operation keeps -----

  /** What the bookkeeping says of one block: its count, the free list and the prefix index agree. */
  ghost predicate Accounted(p: Pool, held: multiset<nat>, b: nat)
    requires b < |p.blocks|
  {
    var block := p.blocks[b];
    && block.refCount == held[b]
    && (b in p.free <==> block.refCount == 0)
    && (block.prefixHash.Some? ==> block.prefixHash.value in p.index && p.index[block.prefixHash.value] == b)
    && (block.prefixHash.None? ==> block.refCount <= 1)
    && (block.refCount == 0 ==> block.prefixHash.None?)
  }

  /** Reference counts, free list and prefix index agree with the handles outstanding. */
  ghost predicate Consistent(p: Pool, held: multiset<nat>) {
    && InRange(p)
    && (forall b | b in held :: b < |p.blocks|)
    && (forall b: nat | b < |p.blocks| :: Accounted(p, held, b))
    && Distinct(p.free)
    && (forall h | h in p.index :: p.blocks[p.index[h]].prefixHash == Some(h))
  }

  lemma EmptyPoolConsistent(cfg: Config)
    ensures Consistent(EmptyPool(cfg), multiset{})
  {
    var p := EmptyPool(cfg);
    forall b: nat | b < |p.blocks| ensures b in p.free {
      assert p.free[b] == b;
    }
  }

  /** A taken block was nobody's, carries one reference, and no other block moved. */
  lemma TakeConsistent(p: Pool, hash: Option<int>, held: multiset<nat>)
    requires Consistent(p, held)
    requires hash.Some? ==> hash.value !in p.index
    ensures var r := Take(p, hash);
            && (r.Exhausted? <==> forall b: nat | b < |p.blocks| :: b in held)
            && (r.Got? ==> && Consistent(r.pool, held + multiset{r.id})
                           && r.id !in held
                           && forall b: nat | b < |p.blocks| && b != r.id :: r.pool.blocks[b] == p.blocks[b])
  {
    var r := Take(p, hash);
    if r.Exhausted? {
      forall b: nat | b < |p.blocks| ensures b in held { assert Accounted(p, held, b); }
    } else {
      var id := p.free[|p.free| - 1];
      assert id in p.free && Accounted(p, held, id);
      forall b: nat | b < |p.blocks| ensures Accounted(r.pool, held + multiset{id}, b) {
        assert Accounted(p, held, b);
        assert b in p.free <==> b in r.pool.free + [id];
      }
      forall h | h in p.index ensures p.index[h] != id {
        assert p.blocks[p.index[h]].prefixHash == Some(h);
      }
    }
  }

  lemma ReleaseConsistent(p: Pool, b: nat, held: multiset<nat>)
    requires Consistent(p, held) && b in held
    ensures Consistent(Release(p, b), held - multiset{b})
    ensures forall c: nat | c < |p.blocks| ::
              Release(p, b).blocks[c].k == p.blocks[c].k && Release(p, b).blocks[c].v == p.blocks[c].v
  {
    var r := Release(p, b);
    assert Accounted(p, held, b);
    forall c: nat | c < |p.blocks| ensures Accounted(r, held - multiset{b}, c) {
      assert Accounted(p, held, c);
      assert c in r.free <==> c in p.free || (c == b && p.blocks[b].refCount == 1);
    }
  }

  /** Releasing the block just taken undoes the take completely, order of the free stack included. */
  lemma TakeThenRelease(p: Pool, hash: Option<int>, held: multiset<nat>)
    requires Consistent(p, held) && p.free != []
    requires hash.Some? ==> hash.value !in p.index
    ensures var Got(q, id) := Take(p, hash); Release(q, id) == p
  {
    var Got(q, id) := Take(p, hash);
    assert id in p.free && Accounted(p, held, id);
    assert p.blocks[id] == p.blocks[id].(refCount := 0, prefixHash := None);
    assert p.free == q.free + [id];
  }

  lemma PrefixConsistent(p: Pool, hash: int, held: multiset<nat>)
    requires Consistent(p, held)
    ensures match GetOrCreatePrefix(p, hash)
            case Hit(q, id) => Consistent(q, held + multiset{id}) && id in held && q.blocks[id].prefixHash == Some(hash)
            case Miss(Got(q, id)) => Consistent(q, held + multiset{id}) && id !in held
                && q.blocks[id].prefixHash == Some(hash)
            case Miss(Exhausted) => forall b: nat | b < |p.blocks| :: b in held
  {
    if hash in p.index {
      var id, q := p.index[hash], GetOrCreatePrefix(p, hash).pool;
      assert p.blocks[id].prefixHash == Some(hash) && Accounted(p, held, id);
      forall b: nat | b < |p.blocks| ensures Accounted(q, held + multiset{id}, b) {
        assert Accounted(p, held, b);
      }
    } else {
      TakeConsistent(p, Some(hash), held);
    }
  }

  /** Consistency does not depend on contents. */
  lemma SameCounts(p: Pool, q: Pool, held: multiset<nat>)
    requires Consistent(p, held)
    requires q.free == p.free && q.index == p.index && |q.blocks| == |p.blocks|
    requires forall b: nat | b < |p.blocks| ::
               q.blocks[b].refCount == p.blocks[b].refCount && q.blocks[b].prefixHash == p.blocks[b].prefixHash
    ensures Consistent(q, held)
  {
    forall b: nat | b < |q.blocks| ensures Accounted(q, held, b) { assert Accounted(p, held, b); }
  }

  lemma CopyConsistent(p: Pool, src: nat, dst: nat, held: multiset<nat>)
    requires Consistent(p, held) && src < |p.blocks| && dst < |p.blocks|
    ensures Consistent(CopyContents(p, src, dst), held)
  {
    SameCounts(p, CopyContents(p, src, dst), held);
  }

  /** The contents a handle on b sees. */
  ghost predicate SameContents(p: Pool, q: Pool, b: nat)
    requires b < |p.blocks| && b < |q.blocks|
  {
    q.blocks[b].k == p.blocks[b].k && q.blocks[b].v == p.blocks[b].v
  }

  lemma CopySharedConsistent(p: Pool, b: nat, others: multiset<nat>)
    requires Consistent(p, others + multiset{b}) && b < |p.blocks| && p.blocks[b].refCount > 1
    requires Take(p, None).Got?
    ensures var Got(q, id) := Take(p, None);
            var r := Release(CopyContents(q, b, id), b);
            && Consistent(r, others + multiset{id})
            && id !in others && id != b
            && r.blocks[id].k == p.blocks[b].k && r.blocks[id].v == p.blocks[b].v
            && forall c: nat | c < |p.blocks| && c != id :: SameContents(p, r, c)
  {
    var held := others + multiset{b};
    TakeConsistent(p, None, held);
    var Got(q, id) := Take(p, None);
    CopyConsistent(q, b, id, held + multiset{id});
    ReleaseConsistent(CopyContents(q, b, id), b, held + multiset{id});
    assert held + multiset{id} - multiset{b} == others + multiset{id};
  }

  /**
   Copy-on-write trades the caller's handle for one to a block nobody else holds, with the same
   contents, and leaves the contents of every other held block alone.
   */
  lemma CopyOnWriteConsistent(p: Pool, b: nat, others: multiset<nat>)
    requires Consistent(p, others + multiset{b}) && b < |p.blocks|
    ensures match CopyOnWrite(p, b)
            case Exhausted => b in others && forall c: nat | c < |p.blocks| :: c in others
            case Got(q, id) =>
              && Consistent(q, others + multiset{id})
              && id !in others
              && q.blocks[id].k == p.blocks[b].k && q.blocks[id].v == p.blocks[b].v
              && forall c: nat | c < |p.blocks| && c in others :: SameContents(p, q, c)
  {
    var held := others + multiset{b};
    assert Accounted(p, held, b);
    if p.blocks[b].refCount > 1 {
      TakeConsistent(p, None, held);
      if Take(p, None).Got? {
        CopySharedConsistent(p, b, others);
      } else {
        forall c: nat | c < |p.blocks| ensures c in others { assert c in held; }
      }
    }
  }

  lemma {:induction false} ReleaseAllConsistent(p: Pool, ids: seq<nat>, others: multiset<nat>)
    requires Consistent(p, others + multiset(ids))
    requires forall i | 0 <= i < |ids| :: ids[i] < |p.blocks|
    ensures Consistent(ReleaseAll(p, ids), others)
    ensures forall c: nat | c < |p.blocks| ::
              ReleaseAll(p, ids).blocks[c].k == p.blocks[c].k && ReleaseAll(p, ids).blocks[c].v == p.blocks[c].v
  {
    if ids == [] {
      assert others + multiset(ids) == others;
    } else {
      var rest, b := ids[..|ids| - 1], ids[|ids| - 1];
      assert ids == rest + [b];
      assert others + multiset(ids) == (others + multiset{b}) + multiset(rest);
      ReleaseAllConsistent(p, rest, others + multiset{b});
      ReleaseConsistent(ReleaseAll(p, rest), b, others + multiset{b});
      assert others + multiset{b} - multiset{b} == others;
    }
  }

  // ----- The free list accounts for the whole pool -----

  function Ids(n: nat): (r: set<nat>)
    ensures |r| == n && forall i: nat :: i in r <==> i < n
  {
    if n == 0 then {} else Ids(n - 1) + {n - 1}
  }

  function Elements(s: seq<nat>): (r: set<nat>)
    ensures forall b :: b in r <==> b in s
  {
    set b | b in s
  }

  lemma PartitionSize(a: set<nat>, b: set<nat>, n: nat)
    requires a !! b && forall i: nat :: i < n <==> i in a || i in b
    ensures |a| + |b| == n
  {
    assert a + b == Ids(n);
    assert |a + b| == |a| + |b|;
  }

  function Support(held: multiset<nat>): (r: set<nat>)
    ensures forall b :: b in r <==> b in held
  {
    set b | b in held
  }

  /** Used blocks (the pool size less the free list) are exactly the blocks somebody holds. */
  lemma UsedBlocks(p: Pool, held: multiset<nat>)
    requires Consistent(p, held)
    ensures |p.blocks| - |p.free| == |Support(held)|
  {
    DistinctSize(p.free, Elements(p.free));
    forall b: nat ensures b < |p.blocks| <==> b in Elements(p.free) || b in Support(held) {
      if b < |p.blocks| { assert Accounted(p, held, b); }
    }
    forall b: nat | b in Elements(p.free) ensures b !in Support(held) {
      assert Accounted(p, held, b);
    }
    PartitionSize(Elements(p.free), Support(held), |p.blocks|);
  }

  /** Once every handle is released, the whole pool is free and no prefix is registered. */
  lemma Drained(p: Pool)
    requires Consistent(p, multiset{})
    ensures |p.free| == |p.blocks| && (forall b: nat | b < |p.blocks| :: b in p.free) && p.index == map[]
  {
    var held: multiset<nat> := multiset{};
    UsedBlocks(p, held);
    forall b: nat | b < |p.blocks| ensures b in p.free && p.blocks[b].prefixHash.None? {
      assert Accounted(p, held, b);
    }
    forall h ensures h !in p.index { }
  }
}
