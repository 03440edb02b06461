/**
 One sequence's cache (core/cache_manager.py, class SequenceCache) as a value: a table of block ids
 and a token count, growing in a shared pool.
 */
module Sequences {
  import opened Wrappers
  import opened KVPool

  datatype Seq = Seq(table: seq<nat>, tokens: nat)

  const EMPTY_SEQ := Seq([], 0)

  type BlockSize = n: nat | 0 < n witness 1

  ghost predicate InTable(p: Pool, s: Seq) {
    InRange(p) && forall i | 0 <= i < |s.table| :: s.table[i] < |p.blocks|
  }

  function TokensInLastBlock(bs: BlockSize, s: Seq): nat {
    if s.tokens % bs != 0 then s.tokens % bs else if s.table != [] then bs else 0
  }

  predicate LastBlockFull(bs: BlockSize, s: Seq) {
    s.table == [] || TokensInLastBlock(bs, s) == bs
  }

  /** A call that may raise: `ok` is false when it did, with the state it left behind. */
  datatype Outcome = Outcome(ok: bool, pool: Pool, cache: Seq)

  function Append(bs: BlockSize, p: Pool, s: Seq, w: Write): (r: Outcome)
    requires InTable(p, s)
    ensures InTable(r.pool, r.cache) && |r.pool.blocks| == |p.blocks|
  {
    if LastBlockFull(bs, s) then
      match Allocate(p)
      case Exhausted => Outcome(false, p, s)
      case Got(q, id) => WriteLast(bs, q, s.(table := s.table + [id]), w)
    else WriteLast(bs, p, s, w)
  }

  function WriteLast(bs: BlockSize, p: Pool, s: Seq, w: Write): (r: Outcome)
    requires InTable(p, s) && s.table != []
    ensures InTable(r.pool, r.cache) && |r.pool.blocks| == |p.blocks|
  {
    var last := |s.table| - 1;
    var slot := if TokensInLastBlock(bs, s) == bs then 0 else TokensInLastBlock(bs, s);
    match CopyOnWrite(p, s.table[last])
    case Exhausted => Outcome(false, p, s)
    case Got(q, id) => Outcome(true, WriteSlot(q, id, slot, w), s.(table := s.table[last := id]))
  }

  // ----- Isolation of one append -----

  /** What one append does to the writer's own blocks, by position in its table. */
  ghost predicate Wrote(p: Pool, s: Seq, r: Outcome, slot: nat, w: Write, grew: bool)
    requires InTable(p, s) && InTable(r.pool, r.cache) && |r.pool.blocks| == |p.blocks|
  {
    var last := |r.cache.table| - 1;
    && r.cache.tokens == s.tokens
    && |r.cache.table| == |s.table| + (if grew then 1 else 0)
    && 0 <= last
    && (forall i | 0 <= i < last :: r.cache.table[i] == s.table[i] && SameContents(p, r.pool, s.table[i]))
    && var before := p.blocks[if grew then r.cache.table[last] else s.table[last]];
       && r.pool.blocks[r.cache.table[last]].k == Put(before.k, w.layer, w.head, slot, w.k)
       && r.pool.blocks[r.cache.table[last]].v == Put(before.v, w.layer, w.head, slot, w.v)
  }

  lemma LastHandle(others: multiset<nat>, front: seq<nat>, b: nat)
    ensures others + multiset(front + [b]) == others + multiset(front) + multiset{b}
    ensures forall c | c in others :: c in others + multiset(front)
    ensures forall i | 0 <= i < |front| :: front[i] in others + multiset(front)
  {}

  /** Copy-on-write of one block followed by one write to what it returned. */
  lemma WriteBlock(p: Pool, b: nat, slot: nat, w: Write, rest: multiset<nat>)
    requires Consistent(p, rest + multiset{b}) && b < |p.blocks|
    ensures CopyOnWrite(p, b).Got? <==> p.free != [] || p.blocks[b].refCount <= 1
    ensures CopyOnWrite(p, b).Got? ==>
              var Got(q, id) := CopyOnWrite(p, b);
              var r := WriteSlot(q, id, slot, w);
              && Consistent(r, rest + multiset{id})
              && (forall c: nat | c < |p.blocks| && c in rest :: SameContents(p, r, c))
              && r.blocks[id].k == Put(p.blocks[b].k, w.layer, w.head, slot, w.k)
              && r.blocks[id].v == Put(p.blocks[b].v, w.layer, w.head, slot, w.v)
  {
    CopyOnWriteConsistent(p, b, rest);
    if CopyOnWrite(p, b).Got? {
      var Got(q, id) := CopyOnWrite(p, b);
      SameCounts(q, WriteSlot(q, id, slot, w), rest + multiset{id});
    }
  }

  lemma WriteLastSteps(bs: BlockSize, p: Pool, s: Seq, w: Write, front: seq<nat>, b: nat)
    requires s.table == front + [b] && InTable(p, s)
    ensures var r := WriteLast(bs, p, s, w);
            match CopyOnWrite(p, b)
            case Exhausted => r == Outcome(false, p, s)
            case Got(q, id) => r == Outcome(true, WriteSlot(q, id, s.tokens % bs, w), s.(table := front + [id]))
  {
    var last := |s.table| - 1;
    assert s.table[last] == b;
    assert forall id: nat :: s.table[last := id] == front + [id];
  }

  lemma WriteLastCounts(bs: BlockSize, p: Pool, s: Seq, w: Write, others: multiset<nat>)
    requires s.table != [] && Consistent(p, others + multiset(s.table)) && InTable(p, s)
    ensures var r := WriteLast(bs, p, s, w);
            && Consistent(r.pool, others + multiset(r.cache.table))
            && (!r.ok ==> r.pool == p && r.cache == s)
            && (r.ok <==> p.free != [] || p.blocks[s.table[|s.table| - 1]].refCount <= 1)
  {
    var front, b := s.table[..|s.table| - 1], s.table[|s.table| - 1];
    assert s.table == front + [b];
    WriteLastSteps(bs, p, s, w, front, b);
    LastHandle(others, front, b);
    WriteBlock(p, b, s.tokens % bs, w, others + multiset(front));
    if CopyOnWrite(p, b).Got? { LastHandle(others, front, CopyOnWrite(p, b).id); }
  }

  lemma WriteLastContents(bs: BlockSize, p: Pool, s: Seq, w: Write, others: multiset<nat>)
    requires s.table != [] && Consistent(p, others + multiset(s.table)) && InTable(p, s)
    requires WriteLast(bs, p, s, w).ok
    ensures var r := WriteLast(bs, p, s, w);
            && (forall c: nat | c in others && c < |p.blocks| :: SameContents(p, r.pool, c))
            && Wrote(p, s, r, s.tokens % bs, w, false)
  {
    var front, b := s.table[..|s.table| - 1], s.table[|s.table| - 1];
    assert s.table == front + [b];
    WriteLastSteps(bs, p, s, w, front, b);
    LastHandle(others, front, b);
    WriteBlock(p, b, s.tokens % bs, w, others + multiset(front));
  }

  /** An append that takes a new block. */
  lemma AppendGrewCounts(bs: BlockSize, p: Pool, s: Seq, w: Write, others: multiset<nat>)
    requires InTable(p, s) && Consistent(p, others + multiset(s.table)) && LastBlockFull(bs, s) && Allocate(p).Got?
    ensures Consistent(Append(bs, p, s, w).pool, others + multiset(Append(bs, p, s, w).cache.table))
  {
    TakeConsistent(p, None, others + multiset(s.table));
    hide Consistent, WriteLast;
    var Got(q, id) := Allocate(p);
    var grown := s.(table := s.table + [id]);
    assert others + multiset(grown.table) == others + multiset(s.table) + multiset{id};
    WriteLastCounts(bs, q, grown, w, others);
  }

  lemma AppendGrew(bs: BlockSize, p: Pool, s: Seq, w: Write, others: multiset<nat>)
    requires InTable(p, s) && Consistent(p, others + multiset(s.table)) && LastBlockFull(bs, s) && Allocate(p).Got?
    ensures var r := Append(bs, p, s, w);
            && r.ok && Wrote(p, s, r, s.tokens % bs, w, true)
            && forall c: nat | c in others && c < |p.blocks| :: SameContents(p, r.pool, c)
  {
    var held := others + multiset(s.table);
    TakeConsistent(p, None, held);
    var Got(q, id) := Allocate(p);
    var grown, r := s.(table := s.table + [id]), Append(bs, p, s, w);
    assert r.cache.table == grown.table;
    forall i | 0 <= i < |s.table| ensures r.cache.table[i] == s.table[i] && SameContents(p, r.pool, s.table[i]) {
      assert s.table[i] in held;
    }
    forall c: nat | c in others && c < |p.blocks| ensures SameContents(p, r.pool, c) {
      assert c in held;
    }
  }

  /**
   Write isolation: an append, with the copy-on-write it makes, leaves every block held through any
   other handle and every earlier position of its own table as they were; it fails exactly when it
   needs a block and the pool has none, and then nothing has changed.
   */
  lemma AppendIsolated(bs: BlockSize, p: Pool, s: Seq, w: Write, others: multiset<nat>)
    requires InTable(p, s) && Consistent(p, others + multiset(s.table))
    ensures var r := Append(bs, p, s, w);
            && Consistent(r.pool, others + multiset(r.cache.table))
            && (forall c: nat | c in others && c < |p.blocks| :: SameContents(p, r.pool, c))
            && (r.ok ==> Wrote(p, s, r, s.tokens % bs, w, LastBlockFull(bs, s)))
            && (!r.ok ==> r.pool == p && r.cache == s)
            && (r.ok <==> p.free != [] || (!LastBlockFull(bs, s) && p.blocks[s.table[|s.table| - 1]].refCount <= 1))
  {
    hide Wrote, WriteLast, Accounted;
    if LastBlockFull(bs, s) {
      TakeConsistent(p, None, others + multiset(s.table));
      if Allocate(p).Got? {
        AppendGrewCounts(bs, p, s, w, others);
        AppendGrew(bs, p, s, w, others);
      }
    } else {
      WriteLastCounts(bs, p, s, w, others);
      if WriteLast(bs, p, s, w).ok { WriteLastContents(bs, p, s, w, others); }
    }
  }
}
