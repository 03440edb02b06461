/**
 What the many sequences of one CacheManager hold (core/cache_manager.py): after any interleaving of create,
 token and free, every live sequence reads back as the tokens accepted since it was created.
 */
module Contents {
  import opened Bags
  import opened KVPool
  import opened Sequences
  import opened Paging
  import opened Capacity

  /** What one call adds to the writes accepted for an id, one token each, since its last create. */
  function Extended(bs: BlockSize, m: Manager, op: Op, id: string, earlier: History): History
    requires WellTabled(m)
  {
    match op
    case Create(x) => if x == id && x !in m.sequences then [] else earlier
    case Token(x, w) => if x == id && AddToken(bs, m, x, w).ok then earlier + [[w]] else earlier
    case Free(x) => earlier
  }

  function Accepted(bs: BlockSize, m: Manager, ops: seq<Op>, id: string): History
    requires WellTabled(m)
  {
    if ops == [] then []
    else
      var front := ops[..|ops| - 1];
      Extended(bs, Run(bs, m, front), ops[|ops| - 1], id, Accepted(bs, m, front, id))
  }

  ghost predicate AllFit(cfg: Config, ops: seq<Op>) {
    forall op | op in ops && op.Token? :: Fits(cfg, op.w)
  }

  // ----- What each live sequence holds -----

  /** One live sequence, with the handles of the others, part-way through its history. */
  ghost predicate Holds(cfg: Config, m: Manager, id: string, history: History)
    requires id in m.sequences
  {
    Running(cfg, m.pool, m.sequences[id], Handles(m.sequences - {id}), history + [[]]) && Complete(cfg, history)
  }

  lemma HeldByOthers(m: map<string, Seq>, id: string, x: string)
    requires id in m && x in m && id != x
    ensures forall i | 0 <= i < |m[x].table| :: m[x].table[i] in Handles(m - {id})
  {
    HandlesSplit(m - {id}, x);
    forall i | 0 <= i < |m[x].table| ensures m[x].table[i] in Handles(m - {id}) {
      assert m[x].table[i] in multiset(m[x].table);
    }
  }

  ghost predicate Spared(p: Pool, q: Pool, b: nat) {
    b < |p.blocks| && b < |q.blocks| ==> SameContents(p, q, b)
  }

  /** A sequence keeps what it holds when its table and the contents of its blocks stay as they were. */
  lemma HoldsStill(cfg: Config, m: Manager, q: Manager, x: string, history: History)
    requires x in m.sequences && Holds(cfg, m, x, history)
    requires x in q.sequences && q.sequences[x] == m.sequences[x]
    requires 0 < cfg.blockSize && Inv(cfg.blockSize, q) && PoolShaped(cfg, q.pool) && |q.pool.blocks| == |m.pool.blocks|
    requires forall i | 0 <= i < |m.sequences[x].table| :: Spared(m.pool, q.pool, m.sequences[x].table[i])
    ensures Holds(cfg, q, x, history)
  {
    HandlesSplit(q.sequences, x);
    assert Pages(q.pool, q.sequences[x]) == Pages(m.pool, m.sequences[x]);
  }

  /** The append a token makes, as the running sequence sees it. */
  lemma TokenAppends(cfg: Config, p: Pool, s: Seq, others: multiset<nat>, w: Write, history: History)
    requires Running(cfg, p, s, others, history + [[]]) && Complete(cfg, history) && Fits(cfg, w)
    requires Append(cfg.blockSize, p, s, w).ok
    ensures var r := Append(cfg.blockSize, p, s, w);
            && Running(cfg, r.pool, r.cache.(tokens := r.cache.tokens + 1), others, history + [[w]] + [[]])
            && Complete(cfg, history + [[w]]) && Untouched(p, r.pool, others) && |r.pool.blocks| == |p.blocks|
  {
    var r := Append(cfg.blockSize, p, s, w);
    CompleteNext(cfg, history, w);
    var none: seq<Write> := [];
    assert none + [w] == [w];
    assert 0 < cfg.blockSize;
    hide Running, Append, Untouched, Complete, Fits;
    AppendRuns(cfg, p, s, others, history, none, w);
    NextToken(cfg, r.pool, r.cache, others, history, [w]);
  }

  lemma CompleteNext(cfg: Config, history: History, w: Write)
    requires Complete(cfg, history) && Fits(cfg, w)
    ensures Complete(cfg, history + [[w]])
  {
    assert forall t | 0 <= t < |history| :: (history + [[w]])[t] == history[t];
  }

  /** The sequence that takes a token. */
  lemma TokenHolds(cfg: Config, m: Manager, id: string, w: Write, history: History)
    requires 0 < cfg.blockSize && Inv(cfg.blockSize, m) && PoolShaped(cfg, m.pool) && Fits(cfg, w)
    requires id in m.sequences && Holds(cfg, m, id, history) && AddToken(cfg.blockSize, m, id, w).ok
    ensures var q := AddToken(cfg.blockSize, m, id, w).manager;
            && id in q.sequences && Holds(cfg, q, id, history + [[w]])
            && q.sequences == m.sequences[id := q.sequences[id]] && |q.pool.blocks| == |m.pool.blocks|
            && PoolShaped(cfg, q.pool) && Untouched(m.pool, q.pool, Handles(m.sequences - {id}))
  {
    var bs: BlockSize := cfg.blockSize;
    AddTokenManager(bs, m, id, w);
    AppendShaped(cfg, m.pool, m.sequences[id], w);
    var q := AddToken(bs, m, id, w).manager;
    hide Running, Complete, Append, Inv, PoolShaped, Handles, Untouched, AddToken, Fits;
    TokenAppends(cfg, m.pool, m.sequences[id], Handles(m.sequences - {id}), w, history);
    assert q.sequences - {id} == m.sequences - {id};
  }

  /** Every other sequence meanwhile. */
  lemma TokenSpares(cfg: Config, m: Manager, id: string, w: Write, history: History, x: string, other: History)
    requires 0 < cfg.blockSize && Inv(cfg.blockSize, m) && PoolShaped(cfg, m.pool) && Fits(cfg, w)
    requires id in m.sequences && Holds(cfg, m, id, history) && AddToken(cfg.blockSize, m, id, w).ok
    requires x in m.sequences && x != id && Holds(cfg, m, x, other)
    ensures var q := AddToken(cfg.blockSize, m, id, w).manager; x in q.sequences && Holds(cfg, q, x, other)
  {
    var q := AddToken(cfg.blockSize, m, id, w).manager;
    hide Holds, PoolShaped, Inv, Handles, SameContents, AddToken;
    TokenHolds(cfg, m, id, w, history);
    AddTokenKeeps(cfg.blockSize, m, id, w);
    HeldByOthers(m.sequences, id, x);
    HoldsStill(cfg, m, q, x, other);
  }

  lemma FreeSpares(cfg: Config, m: Manager, id: string, x: string, other: History)
    requires 0 < cfg.blockSize && Inv(cfg.blockSize, m) && PoolShaped(cfg, m.pool) && id in m.sequences
    requires x in m.sequences && x != id && Holds(cfg, m, x, other)
    ensures PoolShaped(cfg, FreeSequence(m, id).pool)
    ensures x in FreeSequence(m, id).sequences && Holds(cfg, FreeSequence(m, id), x, other)
  {
    FreedShaped(cfg, m, id);
    FreeKeeps(cfg.blockSize, m, id);
    hide Holds, PoolShaped, Inv, Handles, ReleaseAll;
    HoldsStill(cfg, m, FreeSequence(m, id), x, other);
  }

  /** Freeing changes no contents. */
  lemma FreedShaped(cfg: Config, m: Manager, id: string)
    requires 0 < cfg.blockSize && Inv(cfg.blockSize, m) && PoolShaped(cfg, m.pool) && id in m.sequences
    ensures var q := FreeSequence(m, id).pool;
            && |q.blocks| == |m.pool.blocks| && PoolShaped(cfg, q)
            && forall b: nat | b < |m.pool.blocks| :: SameContents(m.pool, q, b)
  {
    var table, q := m.sequences[id].table, FreeSequence(m, id).pool;
    HandlesSplit(m.sequences, id);
    ReleaseAllConsistent(m.pool, table, Handles(m.sequences - {id}));
    hide Consistent, ReleaseAll, Handles;
    forall b: nat | b < |q.blocks| ensures PageShaped(cfg, PageOf(q.blocks[b])) {
      assert PageShaped(cfg, PageOf(m.pool.blocks[b]));
    }
  }

  lemma CreatedHolds(cfg: Config, m: Manager, id: string)
    requires 0 < cfg.blockSize && Inv(cfg.blockSize, m) && PoolShaped(cfg, m.pool) && id !in m.sequences
    ensures var q := CreateSequence(m, id).manager;
            && Holds(cfg, q, id, [])
            && forall x, other: History | x in m.sequences && Holds(cfg, m, x, other) ::
                 x in q.sequences && Holds(cfg, q, x, other)
  {
    var q := CreateSequence(m, id).manager;
    CreateKeeps(cfg.blockSize, m, id);
    GrowNothing(cfg, m.pool, Handles(m.sequences));
    assert q.sequences - {id} == m.sequences;
    var none: History := [];
    assert none + [[]] == [[]];
    hide Running, PoolShaped, Inv, Handles;
    forall x, other: History | x in m.sequences && Holds(cfg, m, x, other) ensures Holds(cfg, q, x, other) {
      HoldsStill(cfg, m, q, x, other);
    }
  }

  // ----- Whole runs -----

  ghost predicate AllHold(cfg: Config, m: Manager, history: string -> History) {
    && 0 < cfg.blockSize && Inv(cfg.blockSize, m) && PoolShaped(cfg, m.pool)
    && forall id | id in m.sequences :: Holds(cfg, m, id, history(id))
  }

  lemma TokenAll(cfg: Config, m: Manager, id: string, w: Write, before: string -> History, after: string -> History)
    requires AllHold(cfg, m, before) && Fits(cfg, w)
    requires forall x ::
               after(x) == if x == id && AddToken(cfg.blockSize, m, id, w).ok then before(x) + [[w]] else before(x)
    ensures AllHold(cfg, AddToken(cfg.blockSize, m, id, w).manager, after)
  {
    var bs: BlockSize, r := cfg.blockSize, AddToken(cfg.blockSize, m, id, w);
    hide Holds, PoolShaped, Inv;
    AddTokenKeeps(bs, m, id, w);
    if r.ok {
      TokenHolds(cfg, m, id, w, before(id));
      forall x | x in r.manager.sequences ensures Holds(cfg, r.manager, x, after(x)) {
        if x != id { TokenSpares(cfg, m, id, w, before(id), x, before(x)); }
      }
    } else if id in m.sequences {
      AddTokenRefused(bs, m, id, w);
    }
  }

  lemma FreeAll(cfg: Config, m: Manager, id: string, before: string -> History, after: string -> History)
    requires AllHold(cfg, m, before) && forall x :: after(x) == before(x)
    ensures AllHold(cfg, FreeSequence(m, id), after)
  {
    var q := FreeSequence(m, id);
    hide Holds, PoolShaped, Inv;
    if id in m.sequences {
      FreeKeeps(cfg.blockSize, m, id);
      FreedShaped(cfg, m, id);
      forall x | x in q.sequences ensures Holds(cfg, q, x, after(x)) {
        FreeSpares(cfg, m, id, x, before(x));
      }
    }
  }

  lemma CreateAll(cfg: Config, m: Manager, id: string, before: string -> History, after: string -> History)
    requires AllHold(cfg, m, before)
    requires forall x :: after(x) == if x == id && id !in m.sequences then [] else before(x)
    ensures AllHold(cfg, CreateSequence(m, id).manager, after)
  {
    hide Holds, PoolShaped, Inv;
    CreateKeeps(cfg.blockSize, m, id);
    if id !in m.sequences { CreatedHolds(cfg, m, id); }
  }

  lemma StepAll(cfg: Config, m: Manager, op: Op, before: string -> History, after: string -> History)
    requires AllHold(cfg, m, before) && (op.Token? ==> Fits(cfg, op.w))
    requires forall x :: after(x) == Extended(cfg.blockSize, m, op, x, before(x))
    ensures AllHold(cfg, Step(cfg.blockSize, m, op), after)
  {
    var q := Step(cfg.blockSize, m, op);
    hide AllHold, AddToken, CreateSequence, FreeSequence, Fits, Inv;
    match op
    case Create(id) => CreateAll(cfg, m, id, before, after);
    case Token(id, w) => TokenAll(cfg, m, id, w, before, after);
    case Free(id) => FreeAll(cfg, m, id, before, after);
  }

  lemma AcceptedSnoc(bs: BlockSize, m: Manager, ops: seq<Op>, op: Op, id: string)
    requires WellTabled(m)
    ensures Run(bs, m, ops + [op]) == Step(bs, Run(bs, m, ops), op)
    ensures Accepted(bs, m, ops + [op], id) == Extended(bs, Run(bs, m, ops), op, id, Accepted(bs, m, ops, id))
  {
    hide Step, Extended, WellTabled;
    assert (ops + [op])[..|ops|] == ops;
  }

  lemma {:induction false} RunHolds(cfg: Config, ops: seq<Op>)
    requires 0 < cfg.blockSize && AllFit(cfg, ops)
    ensures AllHold(cfg, Run(cfg.blockSize, StartManager(cfg), ops),
            id => Accepted(cfg.blockSize, StartManager(cfg), ops, id))
  {
    var bs: BlockSize, m0 := cfg.blockSize, StartManager(cfg);
    if ops == [] {
      RunKeeps(cfg, bs, []);
      assert PoolShaped(cfg, m0.pool);
    } else {
      hide *;
      var front, op := ops[..|ops| - 1], ops[|ops| - 1];
      assert ops == front + [op];
      FitSnoc(cfg, front, op);
      RunHolds(cfg, front);
      var m := Run(bs, m0, front);
      var before, after := (id: string) => Accepted(bs, m0, front, id), (id: string) => Accepted(bs, m0, ops, id);
      forall id ensures after(id) == Extended(bs, m, op, id, before(id)) { AcceptedSnoc(bs, m0, front, op, id); }
      AcceptedSnoc(bs, m0, front, op, "");
      StepAll(cfg, m, op, before, after);
    }
  }

  lemma FitSnoc(cfg: Config, ops: seq<Op>, op: Op)
    requires AllFit(cfg, ops + [op])
    ensures AllFit(cfg, ops) && (op.Token? ==> Fits(cfg, op.w))
  {
    assert op in ops + [op] && forall x | x in ops :: x in ops + [op];
  }

  /**
   After any interleaving of create, token and free over any number of sequences: every live sequence's cache
   has the paged layout of exactly the writes accepted for it since it was created, so get_kv reads them back.
   */
  lemma {:induction false} ContentsLaw(cfg: Config, ops: seq<Op>, id: string)
    requires 0 < cfg.blockSize && AllFit(cfg, ops)
    requires id in Run(cfg.blockSize, StartManager(cfg), ops).sequences
    ensures var m := Run(cfg.blockSize, StartManager(cfg), ops);
            Paged(cfg, m.pool, m.sequences[id], Accepted(cfg.blockSize, StartManager(cfg), ops, id))
  {
    hide Running, Complete, Inv, PoolShaped, Paged, Accepted, Run;
    RunHolds(cfg, ops);
    var m, history := Run(cfg.blockSize, StartManager(cfg), ops), Accepted(cfg.blockSize, StartManager(cfg), ops, id);
    assert Holds(cfg, m, id, history);
    RunningPaged(cfg, m.pool, m.sequences[id], Handles(m.sequences - {id}), history);
  }
}
