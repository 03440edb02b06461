/**
 Reading a paged cache back (core/cache_manager.py, append_token_kv and get_kv): where each write
 lands, how many blocks a history of tokens takes, and exactly when get_kv returns the token list.
 */
module Paging {
  import opened Wrappers
  import opened Seqs
  import opened KVPool
  import opened Sequences

  /** The contents of one table entry. */
  datatype Page = Page(k: Tensor, v: Tensor)

  function PageOf(b: Block): Page {
    Page(b.k, b.v)
  }

  function Pages(p: Pool, s: Seq): (r: seq<Page>)
    requires InTable(p, s)
    ensures |r| == |s.table|
  {
    seq(|s.table|, i requires 0 <= i < |s.table| => PageOf(p.blocks[s.table[i]]))
  }

  function PutPage(page: Page, slot: nat, w: Write): Page {
    Page(Put(page.k, w.layer, w.head, slot, w.k), Put(page.v, w.layer, w.head, slot, w.v))
  }

  ghost predicate PageShaped(cfg: Config, page: Page) {
    cfg.Shaped(page.k) && cfg.Shaped(page.v)
  }

  ghost predicate PoolShaped(cfg: Config, p: Pool) {
    forall b: nat | b < |p.blocks| :: PageShaped(cfg, PageOf(p.blocks[b]))
  }

  ghost predicate Fits(cfg: Config, w: Write) {
    w.layer < cfg.numLayers && w.head < cfg.numHeads
  }

  /** The K and V vectors in one cell of a page. */
  function Cell(page: Page, layer: nat, head: nat, slot: nat): Option<(Vec, Vec)> {
    if layer < |page.k| && head < |page.k[layer]| && slot < |page.k[layer][head]|
       && layer < |page.v| && head < |page.v[layer]| && slot < |page.v[layer][head]|
    then Some((page.k[layer][head][slot], page.v[layer][head][slot])) else None
  }

  lemma PutPageCells(cfg: Config, page: Page, slot: nat, w: Write)
    requires PageShaped(cfg, page) && Fits(cfg, w) && slot < cfg.blockSize
    ensures PageShaped(cfg, PutPage(page, slot, w))
    ensures Cell(PutPage(page, slot, w), w.layer, w.head, slot) == Some((w.k, w.v))
    ensures forall l: nat, h: nat, c: nat |
              l < cfg.numLayers && h < cfg.numHeads && c < cfg.blockSize
                  && (l != w.layer || h != w.head || c != slot) ::
              Cell(PutPage(page, slot, w), l, h, c) == Cell(page, l, h, c)
  {}

  // ----- One append, seen through the table -----

  /** The page an append starts from when it takes a new block: whatever the block last held. */
  function Stale(bs: BlockSize, p: Pool, s: Seq, w: Write): Page
    requires InTable(p, s) && Append(bs, p, s, w).cache.table != []
  {
    var table := Append(bs, p, s, w).cache.table;
    PageOf(p.blocks[table[|table| - 1]])
  }

  function AppendPage(bs: BlockSize, pages: seq<Page>, grew: bool, stale: Page, slot: nat, w: Write): seq<Page>
    requires !grew ==> pages != []
  {
    if grew then pages + [PutPage(stale, slot, w)]
    else pages[|pages| - 1 := PutPage(pages[|pages| - 1], slot, w)]
  }

  lemma AppendPages(bs: BlockSize, p: Pool, s: Seq, w: Write, others: multiset<nat>)
    requires InTable(p, s) && Consistent(p, others + multiset(s.table)) && Append(bs, p, s, w).ok
    ensures var r := Append(bs, p, s, w);
            && r.cache.table != [] && r.cache.tokens == s.tokens
            && Pages(r.pool, r.cache)
                == AppendPage(bs, Pages(p, s), LastBlockFull(bs, s), Stale(bs, p, s, w), s.tokens % bs, w)
  {
    AppendIsolated(bs, p, s, w, others);
    var r := Append(bs, p, s, w);
    var before, after, last := Pages(p, s), Pages(r.pool, r.cache), |r.cache.table| - 1;
    assert forall i | 0 <= i < last :: after[i] == before[i];
  }

  lemma AppendShaped(cfg: Config, p: Pool, s: Seq, w: Write)
    requires 0 < cfg.blockSize && InTable(p, s) && PoolShaped(cfg, p) && Fits(cfg, w)
    ensures PoolShaped(cfg, Append(cfg.blockSize, p, s, w).pool)
  {
    var bs: BlockSize := cfg.blockSize;
    if LastBlockFull(bs, s) {
      if Allocate(p).Got? {
        var Got(q, id) := Allocate(p);
        assert forall b: nat | b < |p.blocks| :: PageOf(q.blocks[b]) == PageOf(p.blocks[b]);
        WriteLastShaped(cfg, q, s.(table := s.table + [id]), w);
      }
    } else {
      WriteLastShaped(cfg, p, s, w);
    }
  }

  lemma WriteLastShaped(cfg: Config, p: Pool, s: Seq, w: Write)
    requires 0 < cfg.blockSize && InTable(p, s) && PoolShaped(cfg, p) && Fits(cfg, w) && s.table != []
    ensures PoolShaped(cfg, WriteLast(cfg.blockSize, p, s, w).pool)
  {
    var b := s.table[|s.table| - 1];
    if CopyOnWrite(p, b).Got? {
      var Got(q, id) := CopyOnWrite(p, b);
      forall c: nat | c < |p.blocks| ensures PageShaped(cfg, PageOf(q.blocks[c])) {
        assert PageOf(q.blocks[c]) == PageOf(p.blocks[c]) || PageOf(q.blocks[c]) == PageOf(p.blocks[b]);
        assert PageShaped(cfg, PageOf(p.blocks[c])) && PageShaped(cfg, PageOf(p.blocks[b]));
      }
      var r := WriteLast(cfg.blockSize, p, s, w).pool;
      PutPageCells(cfg, PageOf(q.blocks[id]), s.tokens % cfg.blockSize, w);
      forall c: nat | c < |p.blocks| ensures PageShaped(cfg, PageOf(r.blocks[c])) {
        assert PageShaped(cfg, PageOf(q.blocks[c]));
      }
    }
  }

  // ----- Histories of tokens -----

  /** The writes made for each token, one list per token. */
  type History = seq<seq<Write>>

  /** Blocks taken by a history: every write for a token at a block boundary takes one. */
  function Base(bs: BlockSize, ws: History): nat {
    if ws == [] then 0
    else
      var n := |ws| - 1;
      Base(bs, ws[..n]) + if n % bs == 0 then |ws[n]| else 0
  }

  /** The table position where write j of token t lands. */
  function Home(bs: BlockSize, ws: History, t: nat, j: nat): int
    requires t < |ws|
  {
    Base(bs, ws[..t]) + if t % bs == 0 then j else -1
  }

  /** No later write of the same token goes to the same place. */
  ghost predicate Kept(bs: BlockSize, ws: History, t: nat, j: nat)
    requires t < |ws| && j < |ws[t]|
  {
    t % bs == 0 || forall i | j < i < |ws[t]| :: ws[t][i].layer != ws[t][j].layer || ws[t][i].head != ws[t][j].head
  }

  ghost predicate Proper(cfg: Config, ws: History) {
    && (forall t | 0 <= t < |ws| :: forall j | 0 <= j < |ws[t]| :: Fits(cfg, ws[t][j]))
    && (forall t | 0 <= t < |ws| - 1 :: ws[t] != [])
  }

  lemma {:induction false} BaseMonotone(bs: BlockSize, ws: History, a: nat, b: nat)
    requires a <= b <= |ws|
    ensures Base(bs, ws[..a]) <= Base(bs, ws[..b])
    ensures forall m: nat | a <= m < b && m % bs == 0 :: Base(bs, ws[..a]) + |ws[m]| <= Base(bs, ws[..b])
    decreases b - a
  {
    if a < b {
      assert ws[..b][..b - 1] == ws[..b - 1];
      BaseMonotone(bs, ws, a, b - 1);
    }
  }

  /** Every kept write can be read at its home. */
  ghost predicate Laid(cfg: Config, pages: seq<Page>, ws: History)
    requires 0 < cfg.blockSize
  {
    && Proper(cfg, ws)
    && |pages| == Base(cfg.blockSize, ws)
    && (forall i | 0 <= i < |pages| :: PageShaped(cfg, pages[i]))
    && forall t: nat, j: nat | t < |ws| && j < |ws[t]| && Kept(cfg.blockSize, ws, t, j) :: Reads(cfg, pages, ws, t, j)
  }

  ghost predicate Reads(cfg: Config, pages: seq<Page>, ws: History, t: nat, j: nat)
    requires 0 < cfg.blockSize && t < |ws| && j < |ws[t]|
  {
    var bs, w := cfg.blockSize, ws[t][j];
    && 0 <= Home(bs, ws, t, j) < |pages|
    && Cell(pages[Home(bs, ws, t, j)], w.layer, w.head, t % bs) == Some((w.k, w.v))
  }

  /** Two tokens whose writes share a slot number lie in different blocks. */
  lemma HomesApart(bs: BlockSize, ws: History, t: nat, j: nat, n: nat)
    requires t < n < |ws| && j < |ws[t]| && t % bs == n % bs
    requires forall m | 0 <= m < n :: ws[m] != []
    ensures n % bs != 0 ==> Home(bs, ws, t, j) < Base(bs, ws[..n]) - 1
    ensures n % bs == 0 ==> Home(bs, ws, t, j) < Base(bs, ws[..n])
  {
    if n % bs == 0 {
      BaseMonotone(bs, ws, t, n);
    } else {
      var m := n - n % bs;
      Boundary(bs, n);
      Apart(bs, t, n);
      BaseMonotone(bs, ws, t, n);
      assert Base(bs, ws[..t]) + |ws[m]| <= Base(bs, ws[..n]);
    }
  }

  lemma DivModUnique(bs: BlockSize, q: nat, r: nat)
    requires r < bs
    ensures (q * bs + r) / bs == q && (q * bs + r) % bs == r
  {
    var n := q * bs + r;
    var d := n / bs - q;
    assert n == n / bs * bs + n % bs;
    assert d * bs == r - n % bs;
  }

  lemma Boundary(bs: BlockSize, n: nat)
    ensures (n - n % bs) % bs == 0
  {
    DivModUnique(bs, n / bs, 0);
  }

  lemma GroupStart(bs: BlockSize, n: nat) returns (m: nat)
    ensures m <= n && m % bs == 0 && (n % bs != 0 ==> m < n)
  {
    Boundary(bs, n);
    m := n - n % bs;
  }

  lemma Multiple(x: int, c: nat)
    ensures x <= 0 ==> x * c <= 0
    ensures x >= 1 ==> x * c >= c
  {}

  lemma Apart(bs: BlockSize, t: nat, n: nat)
    requires t < n && t % bs == n % bs
    ensures t + bs <= n
  {
    var d := n / bs - t / bs;
    assert n == n / bs * bs + n % bs;
    assert t == t / bs * bs + t % bs;
    assert n - t == d * bs;
    Multiple(d, bs);
  }

  // ----- Appending keeps the layout -----

  lemma {:induction false} BaseExtend(bs: BlockSize, done: History, cur: seq<Write>)
    ensures Base(bs, done + [cur]) == Base(bs, done) + if |done| % bs == 0 then |cur| else 0
  {
    assert (done + [cur])[..|done|] == done;
  }

  /** When the last block is full: at a token boundary. */
  lemma FullAtBoundary(bs: BlockSize, ws: History, s: Seq)
    requires ws != [] && s.tokens == |ws| - 1 && |s.table| == Base(bs, ws)
    requires forall t | 0 <= t < |ws| - 1 :: ws[t] != []
    ensures LastBlockFull(bs, s) <==> s.tokens % bs == 0
    ensures s.tokens % bs != 0 ==> s.table != []
  {
    if s.tokens % bs != 0 {
      BaseMonotone(bs, ws, 0, |ws| - 1);
      assert Base(bs, ws[..0]) + |ws[0]| <= Base(bs, ws[..|ws| - 1]);
    }
  }

  /** Inside a block, the next write does not land on a cell an earlier write is still kept in. */
  lemma NotOverwritten(bs: BlockSize, done: History, cur: seq<Write>, w: Write, t: nat, j: nat)
    requires |done| % bs != 0 && forall m | 0 <= m < |done| :: done[m] != []
    requires t < |done + [cur]| && j < |(done + [cur])[t]| && Kept(bs, done + [cur + [w]], t, j)
    ensures var ws := done + [cur];
            Home(bs, ws, t, j) == Base(bs, ws) - 1 ==>
              ws[t][j].layer != w.layer || ws[t][j].head != w.head || t % bs != |done| % bs
  {
    var n, ws, ws' := |done|, done + [cur], done + [cur + [w]];
    BaseExtend(bs, done, cur);
    if t == n {
      assert ws'[n][|cur|] == w && ws'[n][j] == ws[n][j];
    } else if t % bs == n % bs {
      assert ws[..n] == done && forall m | 0 <= m < n :: ws[m] == done[m];
      HomesApart(bs, ws, t, j, n);
    }
  }

  /** An earlier write that is still kept reads as before after one more append. */
  lemma OthersStay(cfg: Config, pages: seq<Page>, done: History, cur: seq<Write>, stale: Page, w: Write, t: nat, j: nat)
    requires 0 < cfg.blockSize && Laid(cfg, pages, done + [cur]) && Fits(cfg, w)
    requires pages != [] || |done| % cfg.blockSize == 0
    requires t < |done + [cur]| && j < |(done + [cur])[t]| && Kept(cfg.blockSize, done + [cur + [w]], t, j)
    ensures var n := |done|;
            Reads(cfg, AppendPage(cfg.blockSize, pages, n % cfg.blockSize == 0, stale, n % cfg.blockSize, w),
                done + [cur + [w]], t, j)
  {
    var bs: BlockSize, n := cfg.blockSize, |done|;
    var ws, ws' := done + [cur], done + [cur + [w]];
    assert ws'[t][j] == ws[t][j] && ws'[..t] == ws[..t];
    KeptEarlier(bs, done, cur, w, t, j);
    assert Reads(cfg, pages, ws, t, j);
    if n % bs != 0 {
      assert forall m | 0 <= m < n :: ws[m] == done[m];
      NotOverwritten(bs, done, cur, w, t, j);
      PutPageCells(cfg, pages[|pages| - 1], n % bs, w);
    }
  }

  lemma KeptEarlier(bs: BlockSize, done: History, cur: seq<Write>, w: Write, t: nat, j: nat)
    requires t < |done + [cur]| && j < |(done + [cur])[t]| && Kept(bs, done + [cur + [w]], t, j)
    ensures Kept(bs, done + [cur], t, j)
  {
    var ws, ws' := done + [cur], done + [cur + [w]];
    assert forall i | 0 <= i < |ws[t]| :: ws'[t][i] == ws[t][i];
  }

  /** Write w for the token now being written goes to the last page, at the token's slot. */
  lemma AppendLaid(cfg: Config, pages: seq<Page>, done: History, cur: seq<Write>, stale: Page, w: Write)
    requires 0 < cfg.blockSize && Laid(cfg, pages, done + [cur]) && Fits(cfg, w) && PageShaped(cfg, stale)
    requires pages != [] || |done| % cfg.blockSize == 0
    ensures var n := |done|;
            Laid(cfg, AppendPage(cfg.blockSize, pages, n % cfg.blockSize == 0, stale, n % cfg.blockSize, w),
                done + [cur + [w]])
  {
    var bs: BlockSize, n := cfg.blockSize, |done|;
    var grew := n % bs == 0;
    var ws, ws', pages' := done + [cur], done + [cur + [w]], AppendPage(bs, pages, grew, stale, n % bs, w);
    BaseExtend(bs, done, cur);
    BaseExtend(bs, done, cur + [w]);
    PutPageCells(cfg, if grew then stale else pages[|pages| - 1], n % bs, w);
    forall t: nat, j: nat | t < |ws'| && j < |ws'[t]| && Kept(bs, ws', t, j) ensures Reads(cfg, pages', ws', t, j) {
      if t == n && j == |cur| {
        assert ws'[..n] == done;
      } else {
        OthersStay(cfg, pages, done, cur, stale, w, t, j);
      }
    }
    assert Proper(cfg, ws') by {
      forall t | 0 <= t < |ws'| ensures forall j | 0 <= j < |ws'[t]| :: Fits(cfg, ws'[t][j]) {
        if t < n { assert ws'[t] == ws[t]; } else { assert ws[n] == cur; }
      }
      assert forall t | 0 <= t < n :: ws'[t] == ws[t];
    }
  }

  // ----- Growing a sequence token by token -----

  function AppendAll(bs: BlockSize, p: Pool, s: Seq, ws: seq<Write>): (r: Outcome)
    requires InTable(p, s)
    ensures InTable(r.pool, r.cache) && |r.pool.blocks| == |p.blocks|
  {
    if ws == [] then Outcome(true, p, s)
    else
      var r := AppendAll(bs, p, s, ws[..|ws| - 1]);
      if r.ok then Append(bs, r.pool, r.cache, ws[|ws| - 1]) else r
  }

  /** Each token's appends, then increment_token_count; the first append to raise ends the run. */
  function Grow(bs: BlockSize, p: Pool, s: Seq, history: History): (r: Outcome)
    requires InTable(p, s)
    ensures InTable(r.pool, r.cache) && |r.pool.blocks| == |p.blocks|
  {
    if history == [] then Outcome(true, p, s)
    else
      var r := Grow(bs, p, s, history[..|history| - 1]);
      if !r.ok then r
      else
        var q := AppendAll(bs, r.pool, r.cache, history[|history| - 1]);
        if q.ok then q.(cache := q.cache.(tokens := q.cache.tokens + 1)) else q
  }

  /** A sequence part-way through a history, in a pool shared with the holders of `others`. */
  ghost predicate Running(cfg: Config, p: Pool, s: Seq, others: multiset<nat>, ws: History) {
    && 0 < cfg.blockSize
    && InTable(p, s) && Consistent(p, others + multiset(s.table)) && PoolShaped(cfg, p)
    && s.tokens == |ws| - 1
    && Laid(cfg, Pages(p, s), ws)
  }

  ghost predicate Untouched(p: Pool, q: Pool, others: multiset<nat>) {
    forall c: nat | c in others && c < |p.blocks| && c < |q.blocks| :: SameContents(p, q, c)
  }

  lemma UntouchedTwice(p: Pool, q: Pool, r: Pool, others: multiset<nat>)
    requires Untouched(p, q, others) && Untouched(q, r, others) && |p.blocks| == |q.blocks| == |r.blocks|
    ensures Untouched(p, r, others)
  {}

  lemma AppendRuns(cfg: Config, p: Pool, s: Seq, others: multiset<nat>, done: History, cur: seq<Write>, w: Write)
    requires Running(cfg, p, s, others, done + [cur]) && Fits(cfg, w) && Append(cfg.blockSize, p, s, w).ok
    ensures var r := Append(cfg.blockSize, p, s, w);
            Running(cfg, r.pool, r.cache, others, done + [cur + [w]]) && Untouched(p, r.pool, others)
  {
    var bs: BlockSize := cfg.blockSize;
    AppendIsolated(bs, p, s, w, others);
    AppendPages(bs, p, s, w, others);
    AppendShaped(cfg, p, s, w);
    FullAtBoundary(bs, done + [cur], s);
    assert forall c: nat | c < |p.blocks| :: PageShaped(cfg, PageOf(p.blocks[c]));
    AppendLaid(cfg, Pages(p, s), done, cur, Stale(bs, p, s, w), w);
  }

  lemma {:induction false} AppendAllRuns(cfg: Config, p: Pool, s: Seq, others: multiset<nat>, done: History,
      ws: seq<Write>)
    requires Running(cfg, p, s, others, done + [[]]) && (forall j | 0 <= j < |ws| :: Fits(cfg, ws[j]))
    requires AppendAll(cfg.blockSize, p, s, ws).ok
    ensures var r := AppendAll(cfg.blockSize, p, s, ws);
            Running(cfg, r.pool, r.cache, others, done + [ws]) && Untouched(p, r.pool, others)
  {
    var bs: BlockSize := cfg.blockSize;
    if ws != [] {
      var front, w := ws[..|ws| - 1], ws[|ws| - 1];
      SplitLast(ws);
      var q, r := AppendAll(bs, p, s, front), AppendAll(bs, p, s, ws);
      assert q.ok && r == Append(bs, q.pool, q.cache, w);
      AppendAllRuns(cfg, p, s, others, done, front);
      AppendRuns(cfg, q.pool, q.cache, others, done, front, w);
      UntouchedTwice(p, q.pool, r.pool, others);
    }
  }

  lemma NextToken(cfg: Config, p: Pool, s: Seq, others: multiset<nat>, done: History, ws: seq<Write>)
    requires Running(cfg, p, s, others, done + [ws]) && ws != []
    ensures Running(cfg, p, s.(tokens := s.tokens + 1), others, done + [ws] + [[]])
  {
    var all, bs: BlockSize, pages := done + [ws] + [[]], cfg.blockSize, Pages(p, s);
    BaseExtend(bs, done + [ws], []);
    assert Pages(p, s.(tokens := s.tokens + 1)) == pages;
    forall t: nat, j: nat | t < |all| && j < |all[t]| && Kept(bs, all, t, j) ensures Reads(cfg, pages, all, t, j) {
      assert all[t] == (done + [ws])[t] && all[..t] == (done + [ws])[..t];
      assert Kept(bs, done + [ws], t, j) && Reads(cfg, pages, done + [ws], t, j);
    }
    assert Proper(cfg, all) by {
      assert forall t | 0 <= t < |done + [ws]| :: all[t] == (done + [ws])[t];
    }
  }

  /** A history as the callers make it: every token is written at least once, at existing layers and heads. */
  ghost predicate Complete(cfg: Config, history: History) {
    forall t | 0 <= t < |history| :: history[t] != [] && forall j | 0 <= j < |history[t]| :: Fits(cfg, history[t][j])
  }

  lemma CompleteSnoc(cfg: Config, front: History, ws: seq<Write>)
    requires Complete(cfg, front + [ws])
    ensures Complete(cfg, front) && ws != [] && forall j | 0 <= j < |ws| :: Fits(cfg, ws[j])
  {
    var all := front + [ws];
    assert all[|front|] == ws && forall t | 0 <= t < |front| :: all[t] == front[t];
  }

  lemma GrowNothing(cfg: Config, p: Pool, others: multiset<nat>)
    requires 0 < cfg.blockSize && Consistent(p, others) && PoolShaped(cfg, p)
    ensures Running(cfg, p, EMPTY_SEQ, others, [[]])
  {
    assert others + multiset(EMPTY_SEQ.table) == others;
  }

  /** What growing by one token more does. */
  lemma GrowSnoc(bs: BlockSize, p: Pool, s: Seq, front: History, ws: seq<Write>)
    requires InTable(p, s)
    ensures var r := Grow(bs, p, s, front);
            Grow(bs, p, s, front + [ws])
            == if !r.ok then r
               else
                 var q := AppendAll(bs, r.pool, r.cache, ws);
                 if q.ok then q.(cache := q.cache.(tokens := q.cache.tokens + 1)) else q
  {
    hide AppendAll;
    assert (front + [ws])[..|front|] == front;
  }

  lemma {:induction false} GrowRuns(cfg: Config, p: Pool, others: multiset<nat>, history: History)
    requires 0 < cfg.blockSize && Consistent(p, others) && PoolShaped(cfg, p) && Complete(cfg, history)
    requires Grow(cfg.blockSize, p, EMPTY_SEQ, history).ok
    ensures var r := Grow(cfg.blockSize, p, EMPTY_SEQ, history);
            Running(cfg, r.pool, r.cache, others, history + [[]]) && Untouched(p, r.pool, others)
  {
    assert InTable(p, EMPTY_SEQ);
    hide Running, Complete, Consistent, PoolShaped, AppendAll;
    if history == [] {
      GrowNothing(cfg, p, others);
      assert history + [[]] == [[]];
    } else {
      hide Grow, Untouched;
      var bs: BlockSize, front, ws := cfg.blockSize, history[..|history| - 1], history[|history| - 1];
      SplitLast(history);
      CompleteSnoc(cfg, front, ws);
      GrowSnoc(bs, p, EMPTY_SEQ, front, ws);
      GrowRuns(cfg, p, others, front);
      var r := Grow(bs, p, EMPTY_SEQ, front);
      var q := AppendAll(bs, r.pool, r.cache, ws);
      AppendAllRuns(cfg, r.pool, r.cache, others, front, ws);
      NextToken(cfg, q.pool, q.cache, others, front, ws);
      UntouchedTwice(p, r.pool, q.pool, others);
    }
  }

  // ----- Exactly when a history fits -----

  /** A sequence none of whose blocks is prefix-registered, so that no append copies. */
  ghost predicate Unregistered(p: Pool, s: Seq, others: multiset<nat>) {
    && InTable(p, s) && Consistent(p, others + multiset(s.table))
    && forall i | 0 <= i < |s.table| :: p.blocks[s.table[i]].prefixHash.None?
  }

  lemma InPlace(p: Pool, held: multiset<nat>, b: nat)
    requires Consistent(p, held) && b < |p.blocks| && p.blocks[b].prefixHash.None?
    ensures CopyOnWrite(p, b) == Got(p, b)
  {
    assert Accounted(p, held, b);
  }

  lemma WriteUnregistered(bs: BlockSize, p: Pool, s: Seq, w: Write, others: multiset<nat>)
    requires Unregistered(p, s, others) && s.table != []
    ensures var r := WriteLast(bs, p, s, w);
            && r.ok && r.cache == s && r.pool.free == p.free
            && forall b: nat | b < |p.blocks| :: r.pool.blocks[b].prefixHash == p.blocks[b].prefixHash
  {
    var last := |s.table| - 1;
    InPlace(p, others + multiset(s.table), s.table[last]);
    assert s.table[last := s.table[last]] == s.table;
    hide Put, CopyOnWrite;
  }

  /** One append takes one free block at a token boundary and none inside a block. */
  lemma AppendTakes(bs: BlockSize, p: Pool, s: Seq, w: Write, others: multiset<nat>)
    requires Unregistered(p, s, others) && (s.tokens % bs != 0 ==> s.table != [])
    ensures var r := Append(bs, p, s, w);
            && (r.ok <==> s.tokens % bs != 0 || p.free != [])
            && (r.ok ==> && Unregistered(r.pool, r.cache, others) && r.cache.table != [] && r.cache.tokens == s.tokens
                         && |r.pool.free| == |p.free| - if s.tokens % bs == 0 then 1 else 0)
  {
    AppendIsolated(bs, p, s, w, others);
    if LastBlockFull(bs, s) {
      if Allocate(p).Got? { GrownUnregistered(bs, p, s, w, others); }
    } else {
      WriteUnregistered(bs, p, s, w, others);
    }
  }

  lemma GrownUnregistered(bs: BlockSize, p: Pool, s: Seq, w: Write, others: multiset<nat>)
    requires Unregistered(p, s, others) && LastBlockFull(bs, s) && Allocate(p).Got?
    ensures var r := Append(bs, p, s, w);
            && r.ok && |r.pool.free| == |p.free| - 1 && r.cache.table != [] && r.cache.tokens == s.tokens
            && forall i | 0 <= i < |r.cache.table| :: r.pool.blocks[r.cache.table[i]].prefixHash.None?
  {
    var held := others + multiset(s.table);
    TakeConsistent(p, None, held);
    var Got(q, id) := Allocate(p);
    var grown := s.(table := s.table + [id]);
    assert others + multiset(grown.table) == held + multiset{id};
    forall i | 0 <= i < |grown.table| ensures q.blocks[grown.table[i]].prefixHash.None? {
      if i < |s.table| { assert s.table[i] in held; }
    }
    WriteUnregistered(bs, q, grown, w, others);
  }

  lemma {:induction false} AppendAllTakes(bs: BlockSize, p: Pool, s: Seq, ws: seq<Write>, others: multiset<nat>)
    requires Unregistered(p, s, others) && (s.tokens % bs != 0 ==> s.table != [])
    ensures var r, need := AppendAll(bs, p, s, ws), if s.tokens % bs == 0 then |ws| else 0;
            && (r.ok <==> need <= |p.free|)
            && (r.ok ==> && Unregistered(r.pool, r.cache, others) && r.cache.tokens == s.tokens
                         && (ws != [] || s.table != [] ==> r.cache.table != [])
                         && |r.pool.free| == |p.free| - need)
  {
    if ws != [] {
      hide Unregistered, Append;
      var front, w := ws[..|ws| - 1], ws[|ws| - 1];
      AppendAllTakes(bs, p, s, front, others);
      var r := AppendAll(bs, p, s, front);
      if r.ok { AppendTakes(bs, r.pool, r.cache, w, others); }
    }
  }

  /** Growing by a history succeeds exactly when the pool has the blocks it takes. */
  lemma {:induction false} GrowExactly(bs: BlockSize, p: Pool, others: multiset<nat>, history: History)
    requires Consistent(p, others) && forall t | 0 <= t < |history| :: history[t] != []
    ensures InTable(p, EMPTY_SEQ)
    ensures var r := Grow(bs, p, EMPTY_SEQ, history);
            && (r.ok <==> Base(bs, history) <= |p.free|)
            && (r.ok ==> && Unregistered(r.pool, r.cache, others) && r.cache.tokens == |history|
                         && (history != [] ==> r.cache.table != [])
                         && |r.pool.free| == |p.free| - Base(bs, history))
  {
    assert others + multiset(EMPTY_SEQ.table) == others;
    if history != [] {
      hide Unregistered, AppendAll, Grow, Base;
      var front, ws := history[..|history| - 1], history[|history| - 1];
      SplitLast(history);
      GrowSnoc(bs, p, EMPTY_SEQ, front, ws);
      BaseExtend(bs, front, ws);
      assert forall t | 0 <= t < |front| :: front[t] == history[t];
      GrowExactly(bs, p, others, front);
      var r := Grow(bs, p, EMPTY_SEQ, front);
      if r.ok {
        SmallNat(|front|, bs);
        AppendAllTakes(bs, r.pool, r.cache, ws, others);
        UnregisteredNext(AppendAll(bs, r.pool, r.cache, ws), others);
      }
    }
  }

  lemma SmallNat(n: nat, bs: BlockSize)
    ensures n % bs != 0 ==> n > 0
  {}

  lemma UnregisteredNext(r: Outcome, others: multiset<nat>)
    ensures Unregistered(r.pool, r.cache.(tokens := r.cache.tokens + 1), others)
            == Unregistered(r.pool, r.cache, others)
  {}

  // ----- Reading back -----

  /** How many slots of table entry i get_kv returns. */
  function PageTokens(bs: BlockSize, s: Seq, i: nat): (r: nat)
    requires i < |s.table|
    ensures r <= bs
  {
    if i < |s.table| - 1 then bs
    else if TokensInLastBlock(bs, s) == 0 then bs else TokensInLastBlock(bs, s)
  }

  predicate HasRow(bs: BlockSize, t: Tensor, layer: nat, head: nat) {
    layer < |t| && head < |t[layer]| && |t[layer][head]| == bs
  }

  /** One head's row: all slots of every tensor, but only `last` of the final one. */
  function Gather(bs: BlockSize, ts: seq<Tensor>, last: nat, layer: nat, head: nat): (r: seq<Vec>)
    requires last <= bs && forall i | 0 <= i < |ts| :: HasRow(bs, ts[i], layer, head)
    ensures |r| == if ts == [] then 0 else (|ts| - 1) * bs + last
  {
    if ts == [] then []
    else
      assert HasRow(bs, ts[|ts| - 1], layer, head);
      Gather(bs, ts[..|ts| - 1], bs, layer, head) + ts[|ts| - 1][layer][head][..last]
  }

  lemma {:induction false} GatherAt(bs: BlockSize, ts: seq<Tensor>, last: nat, layer: nat, head: nat, i: nat, slot: nat)
    requires last <= bs && forall i | 0 <= i < |ts| :: HasRow(bs, ts[i], layer, head)
    requires i < |ts| && slot < if i < |ts| - 1 then bs else last
    ensures i * bs + slot < |Gather(bs, ts, last, layer, head)|
    ensures Gather(bs, ts, last, layer, head)[i * bs + slot] == ts[i][layer][head][slot]
  {
    if i < |ts| - 1 {
      GatherAt(bs, ts[..|ts| - 1], bs, layer, head, i, slot);
    }
  }

  /** torch.cat of one more block's slice, head by head. */
  function AppendRows(bs: BlockSize, rows: seq<seq<Vec>>, t: Tensor, layer: nat, n: nat): (r: seq<seq<Vec>>)
    requires n <= bs && forall h | 0 <= h < |rows| :: HasRow(bs, t, layer, h)
    ensures |r| == |rows|
  {
    seq(|rows|, h requires 0 <= h < |rows| => assert HasRow(bs, t, layer, h); rows[h] + t[layer][h][..n])
  }

  ghost predicate HasRows(bs: BlockSize, ts: seq<Tensor>, layer: nat, heads: nat) {
    forall i, h | 0 <= i < |ts| && 0 <= h < heads :: HasRow(bs, ts[i], layer, h)
  }

  /** Row h holds what get_kv returns for head h of these blocks. */
  ghost predicate Gathered(bs: BlockSize, rows: seq<seq<Vec>>, ts: seq<Tensor>, last: nat, layer: nat)
    requires last <= bs && HasRows(bs, ts, layer, |rows|)
  {
    forall h | 0 <= h < |rows| :: rows[h] == Gather(bs, ts, last, layer, h)
  }

  lemma GatherStep(bs: BlockSize, rows: seq<seq<Vec>>, ts: seq<Tensor>, i: nat, last: nat, layer: nat, n: nat)
    requires i < |ts| && n <= bs && HasRows(bs, ts, layer, |rows|) && last <= bs && (i > 0 ==> last == bs)
    requires HasRows(bs, ts[..i], layer, |rows|) && Gathered(bs, rows, ts[..i], last, layer)
    ensures HasRows(bs, ts[..i + 1], layer, |rows|)
    ensures forall h | 0 <= h < |rows| :: HasRow(bs, ts[i], layer, h)
    ensures Gathered(bs, AppendRows(bs, rows, ts[i], layer, n), ts[..i + 1], n, layer)
  {
    assert ts[..i + 1][..i] == ts[..i];
  }

  ghost predicate Readable(bs: BlockSize, p: Pool, s: Seq, layer: nat, head: nat) {
    && InTable(p, s)
    && forall i | 0 <= i < |s.table| ::
         HasRow(bs, p.blocks[s.table[i]].k, layer, head) && HasRow(bs, p.blocks[s.table[i]].v, layer, head)
  }

  /** The K and the V tensors of the table's blocks, in order. */
  function KTensors(p: Pool, s: Seq): (ts: seq<Tensor>)
    requires InTable(p, s)
    ensures |ts| == |s.table|
  {
    seq(|s.table|, i requires 0 <= i < |s.table| => p.blocks[s.table[i]].k)
  }

  function VTensors(p: Pool, s: Seq): (ts: seq<Tensor>)
    requires InTable(p, s)
    ensures |ts| == |s.table|
  {
    seq(|s.table|, i requires 0 <= i < |s.table| => p.blocks[s.table[i]].v)
  }

  function LastTokens(bs: BlockSize, s: Seq): (n: nat)
    ensures n <= bs
  {
    if s.table == [] then 0 else PageTokens(bs, s, |s.table| - 1)
  }

  /** What get_kv returns for one head: the K row and the V row. */
  function GetKV(bs: BlockSize, p: Pool, s: Seq, layer: nat, head: nat): (seq<Vec>, seq<Vec>)
    requires Readable(bs, p, s, layer, head)
  {
    (Gather(bs, KTensors(p, s), LastTokens(bs, s), layer, head),
        Gather(bs, VTensors(p, s), LastTokens(bs, s), layer, head))
  }

  lemma ReadableRows(bs: BlockSize, p: Pool, s: Seq, layer: nat, heads: nat)
    requires InTable(p, s) && forall h: nat | h < heads :: Readable(bs, p, s, layer, h)
    ensures HasRows(bs, KTensors(p, s), layer, heads) && HasRows(bs, VTensors(p, s), layer, heads)
  {
    forall i, h: nat | 0 <= i < |s.table| && h < heads
      ensures HasRow(bs, KTensors(p, s)[i], layer, h) && HasRow(bs, VTensors(p, s)[i], layer, h)
    {
      assert Readable(bs, p, s, layer, h);
    }
  }

  function CeilDiv(n: nat, bs: BlockSize): nat {
    (n + bs - 1) / bs
  }

  lemma CeilIs(bs: BlockSize, q: nat, r: nat)
    requires r < bs
    ensures CeilDiv(q * bs + r, bs) == if r == 0 then q else q + 1
  {
    assert (q + 1) * bs == q * bs + bs;
    if r == 0 { DivModUnique(bs, q, bs - 1); } else { DivModUnique(bs, q + 1, r - 1); }
  }

  lemma CeilStep(n: nat, bs: BlockSize)
    ensures CeilDiv(0, bs) == 0
    ensures CeilDiv(n, bs) == n / bs + if n % bs == 0 then 0 else 1
    ensures CeilDiv(n + 1, bs) == CeilDiv(n, bs) + if n % bs == 0 then 1 else 0
  {
    var q, r := n / bs, n % bs;
    assert n == q * bs + r;
    CeilIs(bs, 0, 0);
    CeilIs(bs, q, r);
    if r + 1 < bs {
      CeilIs(bs, q, r + 1);
    } else {
      CeilIs(bs, q + 1, 0);
      assert (q + 1) * bs == q * bs + bs;
    }
  }

  // ----- The laws -----

  /** The block where write j of token t lands is one of the history's. */
  lemma HomeBounds(bs: BlockSize, ws: History, t: nat, j: nat)
    requires t < |ws| && j < |ws[t]| && forall m | 0 <= m < |ws| :: ws[m] != []
    ensures 0 <= Home(bs, ws, t, j) < Base(bs, ws)
  {
    assert ws[..|ws|] == ws;
    BaseMonotone(bs, ws, t, |ws|);
    if t % bs != 0 {
      var m := GroupStart(bs, t);
      BaseMonotone(bs, ws, 0, t);
      assert Base(bs, ws[..0]) + |ws[m]| <= Base(bs, ws[..t]);
    }
  }

  /** A token of an earlier block group does not land in the last block. */
  lemma EarlierGroup(bs: BlockSize, ws: History, t: nat, j: nat)
    requires t < |ws| && j < |ws[t]| && forall m | 0 <= m < |ws| :: ws[m] != []
    requires |ws| % bs != 0 && t < |ws| - |ws| % bs
    ensures Home(bs, ws, t, j) < Base(bs, ws) - 1
  {
    var m := |ws| - |ws| % bs;
    Boundary(bs, |ws|);
    assert ws[..|ws|] == ws && ws[m] != [];
    BaseMonotone(bs, ws, m, |ws|);
    BaseMonotone(bs, ws, t, m);
  }

  lemma SameBlock(bs: BlockSize, t: nat, n: nat)
    requires t < n && n % bs != 0 && n - n % bs <= t
    ensures t % bs < n % bs
  {
    assert n == n / bs * bs + n % bs;
    DivModUnique(bs, n / bs, t - n / bs * bs);
  }

  /** The slot of token t is among those get_kv returns for its block. */
  lemma SlotReturned(bs: BlockSize, s: Seq, ws: History, t: nat, j: nat)
    requires t < |ws| && j < |ws[t]| && forall m | 0 <= m < |ws| :: ws[m] != []
    requires s.tokens == |ws| && |s.table| == Base(bs, ws)
    ensures 0 <= Home(bs, ws, t, j) < |s.table| && t % bs < PageTokens(bs, s, Home(bs, ws, t, j))
  {
    HomeBounds(bs, ws, t, j);
    if |ws| % bs != 0 {
      if t < |ws| - |ws| % bs { EarlierGroup(bs, ws, t, j); } else { SameBlock(bs, t, |ws|); }
    }
  }

  /**
   The first token of a group takes one block per write, so Base is at least CeilDiv; equal exactly for single
   writes.
   */
  lemma {:induction false} BaseAgainstCeil(bs: BlockSize, history: History)
    requires forall t | 0 <= t < |history| :: history[t] != []
    ensures CeilDiv(|history|, bs) <= Base(bs, history)
    ensures Base(bs, history) == CeilDiv(|history|, bs) <==> SingleAtBoundaries(bs, history)
  {
    CeilStep(0, bs);
    if history != [] {
      var n := |history| - 1;
      var front := history[..n];
      BaseAgainstCeil(bs, front);
      CeilStep(n, bs);
      assert forall t | 0 <= t < n :: front[t] == history[t];
    }
  }

  /** A caller's side of the bargain: one append for every token that starts a block. */
  ghost predicate SingleAtBoundaries(bs: BlockSize, history: History) {
    forall t: nat | t < |history| && t % bs == 0 :: |history[t]| == 1
  }

  lemma OneMore(w: nat, a: nat)
    ensures w * (a + 1) == w * a + w && w * 0 == 0
  {}

  /** w appends per token take w * ceil(n / block_size) blocks. */
  lemma {:induction false} BaseUniform(bs: BlockSize, history: History, w: nat)
    requires forall t | 0 <= t < |history| :: |history[t]| == w
    ensures Base(bs, history) == w * CeilDiv(|history|, bs)
  {
    CeilStep(0, bs);
    if history != [] {
      hide Base, CeilDiv;
      var n := |history| - 1;
      assert history == history[..n] + [history[n]];
      BaseUniform(bs, history[..n], w);
      BaseExtend(bs, history[..n], history[n]);
      CeilStep(n, bs);
      OneMore(w, CeilDiv(n, bs));
    } else {
      OneMore(w, 0);
    }
  }

  /** Every cell the history wrote can be read through get_kv, at a column fixed by the history alone. */
  ghost predicate ReadsBack(bs: BlockSize, p: Pool, s: Seq, history: History, t: nat, j: nat)
    requires t < |history| && j < |history[t]| && Readable(bs, p, s, history[t][j].layer, history[t][j].head)
  {
    var w := history[t][j];
    var (ks, vs) := GetKV(bs, p, s, w.layer, w.head);
    var column := Home(bs, history, t, j) * bs + t % bs;
    0 <= column < |ks| == |vs| && ks[column] == w.k && vs[column] == w.v
  }

  lemma RunningReadable(cfg: Config, p: Pool, s: Seq, others: multiset<nat>, ws: History, layer: nat, head: nat)
    requires Running(cfg, p, s, others, ws) && layer < cfg.numLayers && head < cfg.numHeads
    ensures Readable(cfg.blockSize, p, s, layer, head)
  {
    assert forall i | 0 <= i < |s.table| :: PageShaped(cfg, PageOf(p.blocks[s.table[i]]));
  }

  /** Columns in all blocks but the last, plus those of the last. */
  lemma WidthArithmetic(bs: BlockSize, n: nat, base: nat, last: nat)
    requires base > 0 && n > 0 && last == if n % bs == 0 then bs else n % bs
    ensures (base - 1) * bs + last == n + (base - CeilDiv(n, bs)) * bs
  {
    CeilStep(n, bs);
    var q := n / bs;
    assert n == q * bs + n % bs;
    assert (base - 1) * bs == base * bs - bs && (base - q) * bs == base * bs - q * bs;
    assert (base - (q + 1)) * bs == base * bs - q * bs - bs;
  }

  /** The number of columns get_kv returns. */
  lemma WidthLaw(bs: BlockSize, p: Pool, s: Seq, history: History, layer: nat, head: nat)
    requires Readable(bs, p, s, layer, head) && s.tokens == |history| && |s.table| == Base(bs, history)
    requires forall t | 0 <= t < |history| :: history[t] != []
    ensures |GetKV(bs, p, s, layer, head).0| == |history| + (Base(bs, history) - CeilDiv(|history|, bs)) * bs
    ensures |GetKV(bs, p, s, layer, head).1| == |GetKV(bs, p, s, layer, head).0|
  {
    CeilStep(0, bs);
    if history != [] {
      HomeBounds(bs, history, 0, 0);
      WidthArithmetic(bs, |history|, |s.table|, PageTokens(bs, s, |s.table| - 1));
    }
  }

  lemma CellRow(page: Page, layer: nat, head: nat, slot: nat, kv: (Vec, Vec))
    requires Cell(page, layer, head, slot) == Some(kv)
    ensures layer < |page.k| && head < |page.k[layer]| && slot < |page.k[layer][head]|
            && page.k[layer][head][slot] == kv.0
    ensures layer < |page.v| && head < |page.v[layer]| && slot < |page.v[layer][head]|
            && page.v[layer][head][slot] == kv.1
  {}

  /** Column i * block_size + slot of get_kv is that slot of table entry i. */
  lemma GetKVAt(bs: BlockSize, p: Pool, s: Seq, layer: nat, head: nat, i: nat, slot: nat, kv: (Vec, Vec))
    requires Readable(bs, p, s, layer, head) && i < |s.table| && slot < PageTokens(bs, s, i)
    requires Cell(Pages(p, s)[i], layer, head, slot) == Some(kv)
    ensures var (ks, vs) := GetKV(bs, p, s, layer, head);
            0 <= i * bs + slot < |ks| && i * bs + slot < |vs| && ks[i * bs + slot] == kv.0 && vs[i * bs + slot] == kv.1
  {
    CellRow(Pages(p, s)[i], layer, head, slot, kv);
    GatherAt(bs, KTensors(p, s), LastTokens(bs, s), layer, head, i, slot);
    GatherAt(bs, VTensors(p, s), LastTokens(bs, s), layer, head, i, slot);
  }

  lemma ReadsBackAt(cfg: Config, p: Pool, s: Seq, others: multiset<nat>, history: History, t: nat, j: nat)
    requires Running(cfg, p, s, others, history + [[]]) && Complete(cfg, history)
    requires t < |history| && j < |history[t]| && Kept(cfg.blockSize, history, t, j)
    requires Readable(cfg.blockSize, p, s, history[t][j].layer, history[t][j].head)
    ensures ReadsBack(cfg.blockSize, p, s, history, t, j)
  {
    var bs: BlockSize, all, w := cfg.blockSize, history + [[]], history[t][j];
    assert all[t] == history[t] && all[..t] == history[..t];
    assert Kept(bs, all, t, j) && Reads(cfg, Pages(p, s), all, t, j);
    BaseExtend(bs, history, []);
    SlotReturned(bs, s, history, t, j);
    GetKVAt(bs, p, s, w.layer, w.head, Home(bs, history, t, j), t % bs, (w.k, w.v));
    WidthLaw(bs, p, s, history, w.layer, w.head);
  }

  /** get_kv on (layer, head) can be taken and has the width the history fixes. */
  ghost predicate Wide(cfg: Config, p: Pool, s: Seq, history: History, layer: nat, head: nat)
    requires 0 < cfg.blockSize
  {
    && Readable(cfg.blockSize, p, s, layer, head)
    && var (ks, vs) := GetKV(cfg.blockSize, p, s, layer, head);
       |ks| == |vs| == |history| + (Base(cfg.blockSize, history) - CeilDiv(|history|, cfg.blockSize)) * cfg.blockSize
  }

  /** Write j of token t can be read back. */
  ghost predicate Back(cfg: Config, p: Pool, s: Seq, history: History, t: nat, j: nat)
    requires 0 < cfg.blockSize && t < |history| && j < |history[t]|
  {
    && Readable(cfg.blockSize, p, s, history[t][j].layer, history[t][j].head)
    && ReadsBack(cfg.blockSize, p, s, history, t, j)
  }

  /**
   The state a history leaves: how many blocks it takes, how wide get_kv is, and where every write not
   overwritten within its own token reads back.
   */
  ghost predicate Paged(cfg: Config, p: Pool, s: Seq, history: History) {
    && 0 < cfg.blockSize
    && s.tokens == |history| && |s.table| == Base(cfg.blockSize, history)
    && (forall layer: nat, head: nat | layer < cfg.numLayers && head < cfg.numHeads ::
        Wide(cfg, p, s, history, layer, head))
    && (forall t: nat, j: nat | t < |history| && j < |history[t]| && Kept(cfg.blockSize, history, t, j) ::
          Back(cfg, p, s, history, t, j))
  }

  lemma RunningPaged(cfg: Config, p: Pool, s: Seq, others: multiset<nat>, history: History)
    requires Running(cfg, p, s, others, history + [[]]) && Complete(cfg, history)
    ensures Paged(cfg, p, s, history)
  {
    var bs: BlockSize := cfg.blockSize;
    BaseExtend(bs, history, []);
    forall layer: nat, head: nat | layer < cfg.numLayers && head < cfg.numHeads
      ensures Wide(cfg, p, s, history, layer, head)
    {
      RunningReadable(cfg, p, s, others, history + [[]], layer, head);
      WidthLaw(bs, p, s, history, layer, head);
    }
    forall t: nat, j: nat | t < |history| && j < |history[t]| && Kept(bs, history, t, j)
      ensures Back(cfg, p, s, history, t, j)
    {
      assert Fits(cfg, history[t][j]);
      RunningReadable(cfg, p, s, others, history + [[]], history[t][j].layer, history[t][j].head);
      ReadsBackAt(cfg, p, s, others, history, t, j);
    }
  }

  /**
   The paged layout, for every history of nonempty tokens grown in any consistent pool with room for it; the
   blocks of every other holder keep their contents.
   */
  lemma {:induction false} PagedLaw(cfg: Config, p: Pool, others: multiset<nat>, history: History)
    requires 0 < cfg.blockSize && Consistent(p, others) && PoolShaped(cfg, p) && Complete(cfg, history)
    requires Base(cfg.blockSize, history) <= |p.free|
    ensures var r := Grow(cfg.blockSize, p, EMPTY_SEQ, history);
            && r.ok && Paged(cfg, r.pool, r.cache, history)
            && Consistent(r.pool, others + multiset(r.cache.table))
            && Untouched(p, r.pool, others)
  {
    GrowExactly(cfg.blockSize, p, others, history);
    hide *;
    var r := Grow(cfg.blockSize, p, EMPTY_SEQ, history);
    GrowRuns(cfg, p, others, history);
    RunningPaged(cfg, r.pool, r.cache, others, history);
  }

  /**
   get_kv's stated shape, num_cached_tokens columns, holds exactly when every token that starts a block is
   appended once; a second append before increment_token_count there already breaks it.
   */
  lemma {:induction false} ShapeExactly(cfg: Config, p: Pool, s: Seq, history: History, layer: nat, head: nat)
    requires Paged(cfg, p, s, history) && Complete(cfg, history) && layer < cfg.numLayers && head < cfg.numHeads
    ensures Readable(cfg.blockSize, p, s, layer, head)
    ensures |GetKV(cfg.blockSize, p, s, layer, head).0| == s.tokens <==> SingleAtBoundaries(cfg.blockSize, history)
  {
    assert Wide(cfg, p, s, history, layer, head);
    BaseAgainstCeil(cfg.blockSize, history);
    Multiple(Base(cfg.blockSize, history) - CeilDiv(|history|, cfg.blockSize), cfg.blockSize);
  }

  /** One token, appended to each of two heads. */
  function TwoHeads(a: Write, b: Write): History {
    [[a, b]]
  }

  /**
   The documented shape fails at the first token of a model with two heads: in a fresh pool its two appends
   take two blocks, and get_kv returns 1 + block_size columns for one cached token.
   */
  lemma ShapeFails(cfg: Config, a: Write, b: Write)
    requires 0 < cfg.blockSize && 2 <= cfg.numBlocks && Fits(cfg, a) && Fits(cfg, b) && a.head == 0 && b.head == 1
    ensures var r := Grow(cfg.blockSize, EmptyPool(cfg), EMPTY_SEQ, TwoHeads(a, b));
            && r.ok && r.cache.tokens == 1 && |r.cache.table| == 2
            && Readable(cfg.blockSize, r.pool, r.cache, a.layer, a.head)
            && |GetKV(cfg.blockSize, r.pool, r.cache, a.layer, a.head).0| == 1 + cfg.blockSize
  {
    var bs: BlockSize, history := cfg.blockSize, TwoHeads(a, b);
    EmptyPoolConsistent(cfg);
    assert history[..0] == [] && Base(bs, history) == 2;
    assert PoolShaped(cfg, EmptyPool(cfg));
    hide Base, Grow, GetKV, Readable, CeilDiv;
    PagedLaw(cfg, EmptyPool(cfg), multiset{}, history);
    var r := Grow(bs, EmptyPool(cfg), EMPTY_SEQ, history);
    CeilStep(0, bs);
    UniformLaw(cfg, r.pool, r.cache, history, 2, a.layer, a.head);
  }

  /** w appends per token take w * ceil(n / block_size) blocks and widen get_kv accordingly. */
  lemma {:induction false} UniformLaw(cfg: Config, p: Pool, s: Seq, history: History, w: nat, layer: nat, head: nat)
    requires Paged(cfg, p, s, history) && layer < cfg.numLayers && head < cfg.numHeads
    requires forall t | 0 <= t < |history| :: |history[t]| == w
    ensures var bs: BlockSize, n := cfg.blockSize, |history|;
            && |s.table| == w * CeilDiv(n, bs)
            && Readable(bs, p, s, layer, head)
            && |GetKV(bs, p, s, layer, head).0| == n + (w - 1) * CeilDiv(n, bs) * bs
  {
    assert Wide(cfg, p, s, history, layer, head);
    BaseUniform(cfg.blockSize, history, w);
  }

  /** With single writes at block starts, column t is token t. */
  lemma ColumnIsToken(bs: BlockSize, history: History, t: nat, j: nat)
    requires t < |history| && j < |history[t]| && SingleAtBoundaries(bs, history)
    requires forall m | 0 <= m < |history| :: history[m] != []
    ensures Home(bs, history, t, j) * bs + t % bs == t
  {
    BaseAgainstCeil(bs, history[..t]);
    CeilStep(t, bs);
  }

  /**
   Round trip: n tokens, each one append to (layer, head) followed by increment_token_count, read back as
   exactly the n written K and V vectors in order, from ceil(n / block_size) blocks.
   */
  lemma {:induction false} RoundTrip(cfg: Config, p: Pool, others: multiset<nat>, layer: nat, head: nat,
      kvs: seq<(Vec, Vec)>)
    requires 0 < cfg.blockSize && Consistent(p, others) && PoolShaped(cfg, p) && layer < cfg.numLayers
             && head < cfg.numHeads
    requires CeilDiv(|kvs|, cfg.blockSize) <= |p.free|
    ensures var r := Grow(cfg.blockSize, p, EMPTY_SEQ, OneEach(layer, head, kvs));
            && r.ok && Readable(cfg.blockSize, r.pool, r.cache, layer, head)
            && |r.cache.table| == CeilDiv(|kvs|, cfg.blockSize)
            && GetKV(cfg.blockSize, r.pool, r.cache, layer, head) == Unzipped(kvs)
  {
    var history := OneEach(layer, head, kvs);
    BaseAgainstCeil(cfg.blockSize, history);
    hide Base, CeilDiv, Paged, Grow;
    PagedLaw(cfg, p, others, history);
    var r := Grow(cfg.blockSize, p, EMPTY_SEQ, history);
    RowIsTokens(cfg, r.pool, r.cache, layer, head, kvs);
  }

  lemma TokenReadsBack(cfg: Config, p: Pool, s: Seq, layer: nat, head: nat, kvs: seq<(Vec, Vec)>, t: nat)
    requires Paged(cfg, p, s, OneEach(layer, head, kvs)) && Readable(cfg.blockSize, p, s, layer, head) && t < |kvs|
    ensures var (ks, vs) := GetKV(cfg.blockSize, p, s, layer, head);
            t < |ks| && t < |vs| && ks[t] == kvs[t].0 && vs[t] == kvs[t].1
  {
    var history := OneEach(layer, head, kvs);
    ColumnIsToken(cfg.blockSize, history, t, 0);
    assert Kept(cfg.blockSize, history, t, 0);
    assert Back(cfg, p, s, history, t, 0);
  }

  lemma RowWidth(cfg: Config, p: Pool, s: Seq, layer: nat, head: nat, kvs: seq<(Vec, Vec)>)
    requires Paged(cfg, p, s, OneEach(layer, head, kvs)) && layer < cfg.numLayers && head < cfg.numHeads
    ensures Readable(cfg.blockSize, p, s, layer, head)
    ensures |s.table| == CeilDiv(|kvs|, cfg.blockSize)
    ensures |GetKV(cfg.blockSize, p, s, layer, head).0| == |GetKV(cfg.blockSize, p, s, layer, head).1| == |kvs|
  {
    var history := OneEach(layer, head, kvs);
    assert Wide(cfg, p, s, history, layer, head);
    hide Base, CeilDiv, Readable, GetKV;
    BaseAgainstCeil(cfg.blockSize, history);
  }

  lemma {:induction false} RowIsTokens(cfg: Config, p: Pool, s: Seq, layer: nat, head: nat, kvs: seq<(Vec, Vec)>)
    requires Paged(cfg, p, s, OneEach(layer, head, kvs)) && layer < cfg.numLayers && head < cfg.numHeads
    ensures Readable(cfg.blockSize, p, s, layer, head)
    ensures |s.table| == CeilDiv(|kvs|, cfg.blockSize)
    ensures GetKV(cfg.blockSize, p, s, layer, head) == Unzipped(kvs)
  {
    RowWidth(cfg, p, s, layer, head, kvs);
    hide *;
    var (ks, vs) := GetKV(cfg.blockSize, p, s, layer, head);
    forall t: nat | t < |kvs| ensures ks[t] == kvs[t].0 && vs[t] == kvs[t].1 {
      TokenReadsBack(cfg, p, s, layer, head, kvs, t);
    }
    UnzippedIs(kvs, ks, vs);
  }

  lemma UnzippedIs(kvs: seq<(Vec, Vec)>, ks: seq<Vec>, vs: seq<Vec>)
    requires |ks| == |vs| == |kvs| && forall t: nat | t < |kvs| :: ks[t] == kvs[t].0 && vs[t] == kvs[t].1
    ensures (ks, vs) == Unzipped(kvs)
  {
    assert ks == Unzipped(kvs).0 && vs == Unzipped(kvs).1;
  }

  function Unzipped(kvs: seq<(Vec, Vec)>): (seq<Vec>, seq<Vec>) {
    (seq(|kvs|, t requires 0 <= t < |kvs| => kvs[t].0), seq(|kvs|, t requires 0 <= t < |kvs| => kvs[t].1))
  }

  function OneEach(layer: nat, head: nat, kvs: seq<(Vec, Vec)>): (h: History)
    ensures |h| == |kvs|
  {
    seq(|kvs|, t requires 0 <= t < |kvs| => [Write(layer, head, kvs[t].0, kvs[t].1)])
  }
}
