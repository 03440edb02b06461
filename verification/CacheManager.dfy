/** The objects of core/cache_manager.py, updated in place and proved against Sequences, Paging and Capacity. */
module CacheManager {
  import opened KVPool
  import opened KVCache
  import opened Sequences
  import Paging
  import Capacity

  class SequenceCache {
    const seqId: string
    const allocator: BlockAllocator
    var blockTable: seq<PhysicalBlock>
    var numCachedTokens: nat

    ghost predicate Valid()
      reads this, allocator, allocator.pool
      ensures Valid() ==> InTable(allocator.View(), View())
    {
      allocator.Valid() && 0 < allocator.config.blockSize && Linked()
    }

    /** The table's blocks are the allocator's. */
    ghost predicate Linked()
      reads this
    {
      forall i | 0 <= i < |blockTable| :: blockTable[i] in allocator.pool
    }

    ghost function View(): (s: Seq)
      reads this
      ensures |s.table| == |blockTable|
    {
      Seq(seq(|blockTable|, i requires 0 <= i < |blockTable| reads this => blockTable[i].blockId), numCachedTokens)
    }

    /** Every entry of the table names its block in the pool. */
    lemma TableInPool()
      requires allocator.Valid() && Linked()
      ensures InTable(allocator.View(), View())
      ensures forall i | 0 <= i < |blockTable| :: blockTable[i] == allocator.pool[View().table[i]]
    {
    }

    constructor (seqId: string, allocator: BlockAllocator)
      requires allocator.Valid() && 0 < allocator.config.blockSize
      ensures Valid() && this.seqId == seqId && this.allocator == allocator && View() == EMPTY_SEQ
    {
      this.seqId, this.allocator := seqId, allocator;
      blockTable, numCachedTokens := [], 0;
    }

    function TokensInLastBlock(): (n: nat)
      requires 0 < allocator.config.blockSize
      reads this
      ensures n == Sequences.TokensInLastBlock(allocator.config.blockSize, View())
    {
      var blockSize := allocator.config.blockSize;
      var remainder := numCachedTokens % blockSize;
      if remainder != 0 then remainder else if |blockTable| != 0 then blockSize else 0
    }

    predicate LastBlockFull()
      requires 0 < allocator.config.blockSize
      reads this
      ensures LastBlockFull() == Sequences.LastBlockFull(allocator.config.blockSize, View())
    {
      if |blockTable| == 0 then true else TokensInLastBlock() == allocator.config.blockSize
    }

    /** Write one token's K and V for one layer and head; false when the pool is exhausted. */
    method AppendTokenKv(layer: nat, head: nat, k: Vec, v: Vec) returns (ok: bool)
      requires Valid()
      modifies this, allocator, allocator.pool
      ensures Valid()
      ensures Append(allocator.config.blockSize, old(allocator.View()), old(View()), Write(layer, head, k, v))
              == Outcome(ok, allocator.View(), View())
    {
      if LastBlockFull() {
        var newBlock := allocator.Allocate();
        if newBlock == null { return false; }
        blockTable := blockTable + [newBlock];
        TableInPool();
        assert View().table == old(View()).table + [newBlock.blockId];
      }
      ok := WriteLast(layer, head, k, v);
    }

    /** The second half of append_token_kv: copy-on-write of the last block, then the write to its slot. */
    method WriteLast(layer: nat, head: nat, k: Vec, v: Vec) returns (ok: bool)
      requires Valid() && blockTable != []
      modifies this, allocator, allocator.pool
      ensures Valid()
      ensures Sequences.WriteLast(allocator.config.blockSize, old(allocator.View()), old(View()),
              Write(layer, head, k, v))
              == Outcome(ok, allocator.View(), View())
    {
      hide CopyOnWrite, WriteSlot, InRange;
      var slot := TokensInLastBlock();
      if slot == allocator.config.blockSize { slot := 0; }

      var block := UnshareLast();
      if block == null { return false; }
      StoreVectors(block, slot, Write(layer, head, k, v));
      ok := true;
    }

    /** Copy-on-write of the last entry of the table, which then names the block it gave. */
    method UnshareLast() returns (block: PhysicalBlock?)
      requires Valid() && blockTable != []
      modifies this, allocator, allocator.pool
      ensures Valid()
      ensures match CopyOnWrite(old(allocator.View()), old(View()).table[|old(View()).table| - 1])
              case Exhausted => block == null && allocator.View() == old(allocator.View()) && View() == old(View())
              case Got(q, id) =>
                && block != null && block in allocator.pool && block.blockId == id && allocator.View() == q
                && View() == old(View()).(table := old(View()).table[|old(View()).table| - 1 := id])
    {
      var last := |blockTable| - 1;
      block := allocator.CopyOnWrite(blockTable[last]);
      if block == null { return; }
      blockTable := blockTable[last := block];
      assert View().table == old(View()).table[last := block.blockId];
    }

    /** The two slot assignments. */
    method StoreVectors(block: PhysicalBlock, slot: nat, w: Write)
      requires allocator.Valid() && block in allocator.pool
      modifies block
      ensures allocator.Valid() && View() == old(View())
      ensures allocator.View() == WriteSlot(old(allocator.View()), block.blockId, slot, w)
    {
      block.k := Put(block.k, w.layer, w.head, slot, w.k);
      block.v := Put(block.v, w.layer, w.head, slot, w.v);
    }

    method IncrementTokenCount()
      modifies this`numCachedTokens
      ensures View() == old(View()).(tokens := old(View()).tokens + 1)
    {
      numCachedTokens := numCachedTokens + 1;
    }

    /** K and V of one layer, one row per head. */
    method GetKv(layer: nat) returns (ks: seq<seq<Vec>>, vs: seq<seq<Vec>>)
      requires Valid()
      requires forall h: nat | h < allocator.config.numHeads ::
               Paging.Readable(allocator.config.blockSize, allocator.View(), View(), layer, h)
      ensures |ks| == |vs| == allocator.config.numHeads
      ensures forall h: nat | h < allocator.config.numHeads ::
                (ks[h], vs[h]) == Paging.GetKV(allocator.config.blockSize, allocator.View(), View(), layer, h)
    {
      var heads, blockSize := allocator.config.numHeads, allocator.config.blockSize;
      ghost var p, s := allocator.View(), View();
      ghost var kts, vts := Paging.KTensors(p, s), Paging.VTensors(p, s);
      Paging.ReadableRows(blockSize, p, s, layer, heads);
      ks, vs := CatRows(layer, kts, vts);
      forall h: nat | h < heads ensures (ks[h], vs[h]) == Paging.GetKV(blockSize, p, s, layer, h) {
        assert ks[h] == Paging.Gather(blockSize, kts, Paging.LastTokens(blockSize, s), layer, h);
      }
    }

    lemma TensorsOfTable()
      requires Valid()
      ensures var p, s := allocator.View(), View();
              forall i | 0 <= i < |blockTable| ::
                Paging.KTensors(p, s)[i] == blockTable[i].k && Paging.VTensors(p, s)[i] == blockTable[i].v
    {
      TableInPool();
    }

    /** The loop of get_kv over the block table. */
    method CatRows(layer: nat, ghost kts: seq<Tensor>, ghost vts: seq<Tensor>) returns (ks: seq<seq<Vec>>,
        vs: seq<seq<Vec>>)
      requires Valid()
      requires kts == Paging.KTensors(allocator.View(), View()) && vts == Paging.VTensors(allocator.View(), View())
      requires Paging.HasRows(allocator.config.blockSize, kts, layer, allocator.config.numHeads)
      requires Paging.HasRows(allocator.config.blockSize, vts, layer, allocator.config.numHeads)
      ensures |ks| == |vs| == allocator.config.numHeads
      ensures Paging.Gathered(allocator.config.blockSize, ks, kts,
              Paging.LastTokens(allocator.config.blockSize, View()), layer)
      ensures Paging.Gathered(allocator.config.blockSize, vs, vts,
              Paging.LastTokens(allocator.config.blockSize, View()), layer)
    {
      var heads, blockSize := allocator.config.numHeads, allocator.config.blockSize;
      ks, vs := seq(heads, h => []), seq(heads, h => []);
      TensorsOfTable();
      ghost var last := 0;
      hide Paging.Gather, Paging.KTensors, Paging.VTensors;
      for i := 0 to |blockTable|
        invariant |ks| == |vs| == heads && last <= blockSize
        invariant last == if i == |blockTable| then Paging.LastTokens(blockSize, View())
                          else if i == 0 then 0 else blockSize
        invariant Paging.HasRows(blockSize, kts[..i], layer, heads)
                  && Paging.Gathered(blockSize, ks, kts[..i], last, layer)
        invariant Paging.HasRows(blockSize, vts[..i], layer, heads)
                  && Paging.Gathered(blockSize, vs, vts[..i], last, layer)
      {
        hide Paging.HasRows, Paging.Gathered;
        var tokensInBlock := blockSize;
        if i == |blockTable| - 1 {
          tokensInBlock := TokensInLastBlock();
          if tokensInBlock == 0 { tokensInBlock := blockSize; }
        }
        var block := blockTable[i];
        Paging.GatherStep(blockSize, ks, kts, i, last, layer, tokensInBlock);
        Paging.GatherStep(blockSize, vs, vts, i, last, layer, tokensInBlock);
        ks := Paging.AppendRows(blockSize, ks, block.k, layer, tokensInBlock);
        vs := Paging.AppendRows(blockSize, vs, block.v, layer, tokensInBlock);
        last := tokensInBlock;
      }
      assert kts[..|blockTable|] == kts && vts[..|blockTable|] == vts;
    }

    method Free()
      requires Valid()
      modifies this, allocator, allocator.pool
      ensures Valid() && View() == EMPTY_SEQ
      ensures allocator.View() == ReleaseAll(old(allocator.View()), old(View().table))
    {
      ghost var p0, table := allocator.View(), View().table;
      hide InRange, Release, ReleaseAll;
      for i := 0 to |blockTable|
        invariant allocator.Valid() && blockTable == old(blockTable)
        invariant |allocator.View().blocks| == |p0.blocks|
        invariant allocator.View() == ReleaseAll(p0, table[..i])
      {
        ReleaseNext(p0, table, i);
        allocator.Free(blockTable[i]);
      }
      assert table[..|blockTable|] == table;
      blockTable := [];
      numCachedTokens := 0;
    }
  }

  class CacheManager {
    const allocator: BlockAllocator
    var sequences: map<string, SequenceCache>

    ghost predicate Valid()
      reads this, allocator, allocator.pool, sequences.Values
      ensures Valid() ==> Capacity.WellTabled(View())
    {
      && allocator.Valid() && 0 < allocator.config.blockSize
      && forall id | id in sequences ::
           sequences[id].seqId == id && sequences[id].allocator == allocator && sequences[id].Linked()
    }

    ghost function Caches(): map<string, Seq>
      reads this, sequences.Values
    {
      map id | id in sequences :: sequences[id].View()
    }

    ghost function View(): Capacity.Manager
      reads this, allocator, allocator.pool, sequences.Values
    {
      Capacity.Manager(allocator.View(), Caches())
    }

    constructor (config: Config)
      requires 0 < config.blockSize
      ensures Valid() && View() == Capacity.StartManager(config)
    {
      allocator := new BlockAllocator(config);
      sequences := map[];
    }

    /** Null when the id is taken. */
    method CreateSequence(seqId: string) returns (cache: SequenceCache?)
      requires Valid()
      modifies this
      ensures Valid() && Capacity.CreateSequence(old(View()), seqId) == Capacity.Reply(cache != null, View())
      ensures cache == null <==> seqId in old(sequences)
      ensures cache == null ==> sequences == old(sequences)
      ensures cache != null ==> fresh(cache) && cache.View() == EMPTY_SEQ && sequences == old(sequences)[seqId := cache]
    {
      hide InRange, InTable, ReleaseAll;
      if seqId in sequences { return null; }
      cache := new SequenceCache(seqId, allocator);
      sequences := sequences[seqId := cache];
      assert Caches() == old(Caches())[seqId := EMPTY_SEQ];
      assert allocator.View() == old(allocator.View());
    }

    /** Takes a sequence out of the table, if it is there. */
    method PopSequence(seqId: string) returns (cache: SequenceCache?)
      requires Valid()
      modifies this`sequences
      ensures Valid() && sequences == old(sequences) - {seqId} && Caches() == old(Caches()) - {seqId}
      ensures cache == if seqId in old(sequences) then old(sequences)[seqId] else null
      ensures cache != null ==> cache !in sequences.Values && cache.allocator == allocator && cache.Valid()
    {
      if seqId !in sequences {
        assert sequences - {seqId} == sequences && Caches() - {seqId} == Caches();
        return null;
      }
      cache := sequences[seqId];
      sequences := sequences - {seqId};
      assert Caches() == old(Caches()) - {seqId};
    }

    method FreeSequence(seqId: string)
      requires Valid()
      modifies this, allocator, allocator.pool, sequences.Values
      ensures Valid()
      ensures View() == Capacity.FreeSequence(old(View()), seqId)
      ensures sequences == old(sequences) - {seqId}
      ensures seqId in old(sequences) && Capacity.Inv(allocator.config.blockSize, old(View())) ==>
                View().pool.free == old(View()).pool.free + old(View()).sequences[seqId].table
    {
      hide InRange, ReleaseAll, Release, InTable, Capacity.WellTabled, Capacity.Inv;
      var cache := PopSequence(seqId);
      if cache == null { return; }
      ghost var rest := Caches();
      cache.Free();
      assert Caches() == rest;
      Capacity.FreedBlocks(allocator.config.blockSize, old(View()), seqId);
    }
  }
}
