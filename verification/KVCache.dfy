/** The allocator's objects (core/kv_cache.py), updated in place and proved against module KVPool. */
module KVCache {
  import opened Wrappers
  import opened KVPool

  class PhysicalBlock {
    const blockId: nat
    var refCount: int
    var prefixHash: Option<int>
    var k: Tensor
    var v: Tensor

    constructor (blockId: nat, cfg: Config)
      ensures this.blockId == blockId && View() == Block(0, None, cfg.Zeros(), cfg.Zeros())
    {
      this.blockId := blockId;
      refCount, prefixHash := 0, None;
      k, v := cfg.Zeros(), cfg.Zeros();
    }

    function View(): Block
      reads this
    {
      Block(refCount, prefixHash, k, v)
    }
  }

  class BlockAllocator {
    const config: Config
    const pool: seq<PhysicalBlock>
    var freeList: seq<nat>
    var prefixCache: map<int, nat>

    ghost predicate Valid()
      reads this, pool
    {
      && |pool| == config.numBlocks
      && (forall i | 0 <= i < |pool| :: pool[i].blockId == i)
      && InRange(View())
    }

    ghost function View(): (p: Pool)
      reads this, pool
      ensures |p.blocks| == |pool|
    {
      Pool(seq(|pool|, i requires 0 <= i < |pool| reads pool => pool[i].View()), freeList, prefixCache)
    }

    constructor (config: Config)
      ensures Valid() && fresh(this) && fresh(pool)
      ensures this.config == config && View() == EmptyPool(config)
      ensures freeList == seq(config.numBlocks, (i: nat) => i) && prefixCache == map[]
    {
      var blocks: seq<PhysicalBlock> := [];
      for i := 0 to config.numBlocks
        invariant |blocks| == i && fresh(blocks)
        invariant forall j | 0 <= j < i ::
                    blocks[j].blockId == j && blocks[j].View() == Block(0, None, config.Zeros(), config.Zeros())
      {
        var block := new PhysicalBlock(i, config);
        blocks := blocks + [block];
      }
      this.config := config;
      pool := blocks;
      freeList := seq(config.numBlocks, (i: nat) => i);
      prefixCache := map[];
    }

    method Allocate() returns (block: PhysicalBlock?)
      requires Valid()
      modifies this, pool
      ensures Valid()
      ensures match KVPool.Allocate(old(View()))
              case Exhausted => block == null && View() == old(View())
              case Got(p, id) => block != null && block == pool[id] && View() == p
    {
      if |freeList| == 0 { return null; }
      var id := freeList[|freeList| - 1];
      freeList := freeList[..|freeList| - 1];
      block := pool[id];
      block.refCount := 1;
      block.prefixHash := None;
    }

    method Free(block: PhysicalBlock)
      requires Valid() && block in pool
      modifies this, pool
      ensures Valid() && View() == Release(old(View()), block.blockId)
    {
      block.refCount := block.refCount - 1;
      if block.refCount == 0 {
        if block.prefixHash.Some? {
          prefixCache := prefixCache - {block.prefixHash.value};
          block.prefixHash := None;
        }
        freeList := freeList + [block.blockId];
      }
    }

    method GetOrCreatePrefixBlock(hash: int) returns (block: PhysicalBlock?, hit: bool)
      requires Valid()
      modifies this, pool
      ensures Valid()
      ensures match GetOrCreatePrefix(old(View()), hash)
              case Hit(p, id) => hit && block != null && block == pool[id] && View() == p
              case Miss(Got(p, id)) => !hit && block != null && block == pool[id] && View() == p
              case Miss(Exhausted) => !hit && block == null && View() == old(View())
    {
      if hash in prefixCache {
        block := pool[prefixCache[hash]];
        block.refCount := block.refCount + 1;
        return block, true;
      }
      if |freeList| == 0 { return null, false; }
      var id := freeList[|freeList| - 1];
      freeList := freeList[..|freeList| - 1];
      block, hit := pool[id], false;
      block.refCount := 1;
      block.prefixHash := Some(hash);
      prefixCache := prefixCache[hash := id];
    }

    method CopyOnWrite(block: PhysicalBlock) returns (r: PhysicalBlock?)
      requires Valid() && block in pool
      modifies this, pool
      ensures Valid()
      ensures match KVPool.CopyOnWrite(old(View()), block.blockId)
              case Exhausted => r == null && View() == old(View())
              case Got(p, id) => r != null && r == pool[id] && View() == p
    {
      if block.refCount <= 1 { return block; }
      if |freeList| == 0 { return null; }
      var id := freeList[|freeList| - 1];
      freeList := freeList[..|freeList| - 1];
      r := pool[id];
      r.refCount := 1;
      r.prefixHash := None;
      assert View() == Take(old(View()), None).pool;
      r.k := block.k;
      r.v := block.v;
      assert View() == CopyContents(Take(old(View()), None).pool, block.blockId, id);
      Free(block);
    }
  }
}
