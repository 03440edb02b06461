/**
 The consistent-hash ring as a value (router/hash_ring.py): a sorted list of (position, node_id) pairs
 and the table of registered nodes. The hash is an arbitrary function onto 32-bit positions, collisions
 included.
 */
module HashRing {
  import opened Wrappers
  import opened Seqs
  import Decimal

  type Position = n: nat | n < 0x1_0000_0000

  type Hash = string -> Position

  datatype Node = Node(nodeId: string, host: string, port: int, weight: int)

  datatype Entry = Entry(position: Position, nodeId: string)

  // ----- The order Python's tuples and strings have -----

  predicate StringLeq(a: string, b: string) {
    a == [] || (b != [] && (a[0] < b[0] || (a[0] == b[0] && StringLeq(a[1..], b[1..]))))
  }

  lemma {:induction false} StringAntisymmetric(a: string, b: string)
    requires StringLeq(a, b) && StringLeq(b, a)
    ensures a == b
  {
    if a != [] {
      StringAntisymmetric(a[1..], b[1..]);
      assert a == [a[0]] + a[1..] && b == [b[0]] + b[1..];
    }
  }

  lemma {:induction false} StringTransitive(a: string, b: string, c: string)
    requires StringLeq(a, b) && StringLeq(b, c)
    ensures StringLeq(a, c)
  {
    if a != [] && a[0] == b[0] && b[0] == c[0] { StringTransitive(a[1..], b[1..], c[1..]); }
  }

  lemma {:induction false} StringTotal(a: string, b: string)
    ensures StringLeq(a, b) || StringLeq(b, a)
    ensures StringLeq(a, a)
  {
    if a != [] {
      StringTotal(a[1..], if b != [] then b[1..] else []);
    }
  }

  /** At i the strings differ for the first time, and a has the smaller character. */
  ghost predicate LessAt(a: string, b: string, i: nat) {
    i < |a| && i < |b| && a[..i] == b[..i] && a[i] < b[i]
  }

  lemma LessAtNext(x: char, s: string, t: string, i: nat)
    ensures LessAt([x] + s, [x] + t, i + 1) <==> LessAt(s, t, i)
    ensures !LessAt([x] + s, [x] + t, 0)
    ensures [x] + s <= [x] + t <==> s <= t
  {
    var a, b := [x] + s, [x] + t;
    if i < |s| && i < |t| {
      assert a[..i + 1] == [x] + s[..i] && b[..i + 1] == [x] + t[..i];
      assert a[..i + 1][1..] == s[..i] && b[..i + 1][1..] == t[..i];
    }
    assert a[1..] == s && b[1..] == t;
  }

  lemma LessAtFirst(a: string, b: string)
    requires a != [] && b != [] && a[0] != b[0]
    ensures (exists i :: LessAt(a, b, i)) <==> a[0] < b[0]
    ensures !(a <= b)
  {
    assert LessAt(a, b, 0) <==> a[0] < b[0];
    forall i: nat | i > 0 ensures !LessAt(a, b, i) {
      if i < |a| && i < |b| { assert a[..i][0] == a[0] && b[..i][0] == b[0]; }
    }
  }

  /** That is the order of dictionaries: a prefix comes first, otherwise the first difference decides. */
  lemma {:induction false} StringLeqIs(a: string, b: string)
    ensures StringLeq(a, b) <==> a <= b || exists i: nat :: LessAt(a, b, i)
  {
    if a != [] && b != [] {
      var x, s, t := a[0], a[1..], b[1..];
      if b[0] == x {
        assert a == [x] + s && b == [x] + t;
        StringLeqIs(s, t);
        forall i: nat ensures LessAt(a, b, i + 1) <==> LessAt(s, t, i) { LessAtNext(x, s, t, i); }
        LessAtNext(x, s, t, 0);
        hide LessAt;
        if i: nat :| LessAt(s, t, i) { assert LessAt(a, b, i + 1); }
        if i: nat :| LessAt(a, b, i) { assert LessAt(s, t, i - 1) by { assert LessAt(a, b, i - 1 + 1); } }
      } else {
        LessAtFirst(a, b);
      }
    }
  }

  predicate Leq(x: Entry, y: Entry) {
    x.position < y.position || (x.position == y.position && StringLeq(x.nodeId, y.nodeId))
  }

  lemma LeqOrder(x: Entry, y: Entry, z: Entry)
    ensures Leq(x, x)
    ensures Leq(x, y) || Leq(y, x)
    ensures Leq(x, y) && Leq(y, x) ==> x == y
    ensures Leq(x, y) && Leq(y, z) ==> Leq(x, z)
  {
    StringTotal(x.nodeId, x.nodeId);
    StringTotal(x.nodeId, y.nodeId);
    if Leq(x, y) && Leq(y, x) { StringAntisymmetric(x.nodeId, y.nodeId); }
    if x.position == y.position == z.position && Leq(x, y) && Leq(y, z) {
      StringTransitive(x.nodeId, y.nodeId, z.nodeId);
    }
  }

  ghost predicate Sorted(s: seq<Entry>) {
    forall i, j | 0 <= i < j < |s| :: Leq(s[i], s[j])
  }

  lemma SortedHead(s: seq<Entry>, t: seq<Entry>)
    requires s != [] && t != [] && Sorted(s) && Sorted(t) && s[0] in t && t[0] in s
    ensures s[0] == t[0]
  {
    var i, j :| 0 <= i < |t| && t[i] == s[0] && 0 <= j < |s| && s[j] == t[0];
    LeqOrder(s[0], t[0], t[0]);
  }

  /** Two sorted lists with the same elements are the same list. */
  lemma {:induction false} SortedUnique(s: seq<Entry>, t: seq<Entry>)
    requires Sorted(s) && Sorted(t) && multiset(s) == multiset(t)
    ensures s == t
  {
    assert |multiset(t)| == |t| && |multiset(s)| == |s|;
    if s != [] {
      assert s[0] in multiset(s) && t[0] in multiset(t);
      SortedHead(s, t);
      hide Leq;
      BagOfRest(s);
      BagOfRest(t);
      SortedUnique(s[1..], t[1..]);
    }
  }

  lemma BagOfRest(s: seq<Entry>)
    requires s != []
    ensures multiset(s[1..]) == multiset(s) - multiset{s[0]} && s == [s[0]] + s[1..]
  {
    assert s == [s[0]] + s[1..];
  }

  // ----- bisect -----

  /** How many entries come before `position`: bisect_left of (position, ""). */
  function BisectLeft(s: seq<Entry>, position: Position): (i: nat)
    ensures i <= |s|
  {
    if s != [] && s[0].position < position then 1 + BisectLeft(s[1..], position) else 0
  }

  lemma {:induction false} BisectLeftSplits(s: seq<Entry>, position: Position)
    requires Sorted(s)
    ensures var i := BisectLeft(s, position);
            && (forall k | 0 <= k < i :: s[k].position < position)
            && (forall k | i <= k < |s| :: position <= s[k].position)
  {
    if s != [] && s[0].position < position {
      BisectLeftSplits(s[1..], position);
      assert forall k | 0 < k < |s| :: s[k] == s[1..][k - 1];
    } else if s != [] {
      assert forall k | 0 < k < |s| :: Leq(s[0], s[k]);
    }
  }

  /** The split point is the only one there is. */
  lemma BisectLeftIs(s: seq<Entry>, position: Position, i: nat)
    requires Sorted(s) && i <= |s|
    requires forall k | 0 <= k < i :: s[k].position < position
    requires forall k | i <= k < |s| :: position <= s[k].position
    ensures BisectLeft(s, position) == i
  {
    BisectLeftSplits(s, position);
    var j := BisectLeft(s, position);
    if i < |s| { var here := s[i]; }
    if j < |s| { var there := s[j]; }
  }

  /** insort: after every entry not greater than x. */
  function Insort(s: seq<Entry>, x: Entry): seq<Entry> {
    if s != [] && Leq(s[0], x) then [s[0]] + Insort(s[1..], x) else [x] + s
  }

  lemma {:induction false} InsortSorts(s: seq<Entry>, x: Entry)
    requires Sorted(s)
    ensures Sorted(Insort(s, x))
    ensures multiset(Insort(s, x)) == multiset(s) + multiset{x}
  {
    var r := Insort(s, x);
    if s != [] && Leq(s[0], x) {
      InsortSorts(s[1..], x);
      assert s == [s[0]] + s[1..];
      forall j | 1 <= j < |r| ensures Leq(r[0], r[j]) {
        assert r[j] in multiset(Insort(s[1..], x));
        assert r[j] in multiset(s[1..]) || r[j] == x;
      }
    } else {
      assert r == [x] + s;
      forall j | 1 <= j < |r| ensures Leq(r[0], r[j]) {
        LeqOrder(x, s[0], s[j - 1]);
        LeqOrder(s[0], s[0], s[0]);
      }
    }
  }

  // ----- The ring -----

  /** The node table and the sorted list of virtual nodes. */
  datatype Ring = Ring(entries: seq<Entry>, nodes: map<string, Node>)

  /** What is fixed for a ring's lifetime. */
  datatype Params = Params(hash: Hash, vnodesPerNode: int)

  const EMPTY_RING := Ring([], map[])

  function Vnode(c: Params, nodeId: string, i: nat): (e: Entry)
    ensures e.nodeId == nodeId
  {
    Entry(c.hash(nodeId + ":vnode:" + Decimal.Render(i)), nodeId)
  }

  /** How many virtual nodes a node gets: none when the product is negative. */
  function TotalVnodes(c: Params, node: Node): nat {
    if c.vnodesPerNode * node.weight < 0 then 0 else c.vnodesPerNode * node.weight
  }

  function AddVnodes(c: Params, entries: seq<Entry>, nodeId: string, n: nat): seq<Entry> {
    if n == 0 then entries else Insort(AddVnodes(c, entries, nodeId, n - 1), Vnode(c, nodeId, n - 1))
  }

  function AddNode(c: Params, r: Ring, node: Node): Ring {
    if node.nodeId in r.nodes then r
    else Ring(AddVnodes(c, r.entries, node.nodeId, TotalVnodes(c, node)), r.nodes[node.nodeId := node])
  }

  function VnodeSet(c: Params, nodeId: string, n: nat): (s: set<Entry>)
    ensures forall e :: e in s <==> exists i: nat :: i < n && e == Vnode(c, nodeId, i)
  {
    if n == 0 then {} else VnodeSet(c, nodeId, n - 1) + {Vnode(c, nodeId, n - 1)}
  }

  function RemoveNode(c: Params, r: Ring, nodeId: string): Ring {
    if nodeId !in r.nodes then r
    else
      var gone := VnodeSet(c, nodeId, TotalVnodes(c, r.nodes[nodeId]));
      Ring(Filter(r.entries, (e: Entry) => e !in gone), r.nodes - {nodeId})
  }

  // ----- The ring is a function of its registered nodes -----

  /** How many of the first n virtual nodes of a node are e: more than one when its own hashes collide. */
  function Count(c: Params, nodeId: string, n: nat, e: Entry): nat {
    if n == 0 then 0 else Count(c, nodeId, n - 1, e) + if e == Vnode(c, nodeId, n - 1) then 1 else 0
  }

  /** How often e occurs among the virtual nodes of all registered nodes. */
  function Multiplicity(c: Params, nodes: map<string, Node>, e: Entry): nat {
    if e.nodeId in nodes then Count(c, e.nodeId, TotalVnodes(c, nodes[e.nodeId]), e) else 0
  }

  /** The list is the sorted multiset of all virtual-node pairs of the registered nodes. */
  ghost predicate RingInv(c: Params, r: Ring) {
    && Sorted(r.entries)
    && (forall e: Entry :: multiset(r.entries)[e] == Multiplicity(c, r.nodes, e))
    && (forall id | id in r.nodes :: r.nodes[id].nodeId == id)
  }

  lemma {:induction false} CountPositive(c: Params, nodeId: string, n: nat, e: Entry)
    ensures Count(c, nodeId, n, e) > 0 <==> e in VnodeSet(c, nodeId, n)
  {
    if n != 0 { CountPositive(c, nodeId, n - 1, e); }
  }

  lemma {:induction false} AddVnodesCount(c: Params, entries: seq<Entry>, nodeId: string, n: nat)
    requires Sorted(entries)
    ensures Sorted(AddVnodes(c, entries, nodeId, n))
    ensures forall e: Entry ::
            multiset(AddVnodes(c, entries, nodeId, n))[e] == multiset(entries)[e] + Count(c, nodeId, n, e)
  {
    hide Sorted, Insort, Vnode;
    if n != 0 {
      AddVnodesCount(c, entries, nodeId, n - 1);
      InsortSorts(AddVnodes(c, entries, nodeId, n - 1), Vnode(c, nodeId, n - 1));
    }
  }

  lemma {:induction false} CountOther(c: Params, nodeId: string, n: nat, e: Entry)
    requires e.nodeId != nodeId
    ensures Count(c, nodeId, n, e) == 0
  {
    if n != 0 { CountOther(c, nodeId, n - 1, e); }
  }

  lemma AddNodeInv(c: Params, r: Ring, node: Node)
    requires RingInv(c, r)
    ensures RingInv(c, AddNode(c, r, node))
  {
    if node.nodeId !in r.nodes {
      var q, n := AddNode(c, r, node), TotalVnodes(c, node);
      AddVnodesCount(c, r.entries, node.nodeId, n);
      forall e: Entry ensures multiset(q.entries)[e] == Multiplicity(c, q.nodes, e) {
        if e.nodeId != node.nodeId { CountOther(c, node.nodeId, n, e); }
      }
    }
  }

  lemma {:induction false} AddVnodesBag(c: Params, entries: seq<Entry>, nodeId: string, n: nat)
    requires Sorted(entries)
    ensures Sorted(AddVnodes(c, entries, nodeId, n))
    ensures multiset(AddVnodes(c, entries, nodeId, n))
            == multiset(entries) + multiset(seq(n, (i: nat) => Vnode(c, nodeId, i)))
  {
    hide Sorted, Insort, Vnode;
    if n != 0 {
      AddVnodesBag(c, entries, nodeId, n - 1);
      InsortSorts(AddVnodes(c, entries, nodeId, n - 1), Vnode(c, nodeId, n - 1));
      assert seq(n, (i: nat) => Vnode(c, nodeId, i))
          == seq(n - 1, (i: nat) => Vnode(c, nodeId, i)) + [Vnode(c, nodeId, n - 1)];
    }
  }

  /**
   A new node brings exactly its own entries to the list: vnodes_per_node * weight of them (none when that is
   negative), the i-th at the hash of "<node_id>:vnode:<i>".
   */
  lemma {:induction false} AddedEntries(c: Params, r: Ring, node: Node)
    requires RingInv(c, r) && node.nodeId !in r.nodes
    ensures var n := if c.vnodesPerNode * node.weight < 0 then 0 else c.vnodesPerNode * node.weight;
            var q := AddNode(c, r, node);
            && multiset(q.entries) == multiset(r.entries)
                + multiset(seq(n, (i: nat) => Entry(c.hash(node.nodeId + ":vnode:" + Decimal.Render(i)), node.nodeId)))
            && q.nodes == r.nodes[node.nodeId := node]
  {
    var n := TotalVnodes(c, node);
    AddVnodesBag(c, r.entries, node.nodeId, n);
    assert seq(n, (i: nat) => Vnode(c, node.nodeId, i))
        == seq(n, (i: nat) => Entry(c.hash(node.nodeId + ":vnode:" + Decimal.Render(i)), node.nodeId));
    hide AddVnodes, Sorted;
  }

  lemma {:induction false} FilterSorted(s: seq<Entry>, keep: Entry -> bool)
    requires Sorted(s)
    ensures Sorted(Filter(s, keep))
  {
    if s != [] {
      var n := |s| - 1;
      FilterSorted(s[..n], keep);
      forall x | x in Filter(s[..n], keep) ensures Leq(x, s[n]) {
        FilterIn(s[..n], keep, x);
      }
    }
  }

  /** remove_node keeps exactly the other nodes' entries. */
  lemma RemoveNodeFilters(c: Params, r: Ring, nodeId: string)
    requires RingInv(c, r) && nodeId in r.nodes
    ensures RemoveNode(c, r, nodeId).entries == Filter(r.entries, (e: Entry) => e.nodeId != nodeId)
  {
    var n := TotalVnodes(c, r.nodes[nodeId]);
    var gone := VnodeSet(c, nodeId, n);
    forall e | e in r.entries ensures (e !in gone) == (e.nodeId != nodeId) {
      assert multiset(r.entries)[e] > 0;
      CountPositive(c, nodeId, n, e);
    }
    FilterAgree(r.entries, (e: Entry) => e !in gone, (e: Entry) => e.nodeId != nodeId);
  }

  lemma RemoveNodeInv(c: Params, r: Ring, nodeId: string)
    requires RingInv(c, r)
    ensures RingInv(c, RemoveNode(c, r, nodeId))
  {
    if nodeId in r.nodes {
      var q, keep := RemoveNode(c, r, nodeId), (e: Entry) => e.nodeId != nodeId;
      RemoveNodeFilters(c, r, nodeId);
      FilterSorted(r.entries, keep);
      forall e: Entry ensures multiset(q.entries)[e] == Multiplicity(c, q.nodes, e) {
        FilterCount(r.entries, keep, e);
      }
    }
  }

  datatype Op = Add(node: Node) | Remove(nodeId: string)

  function Apply(c: Params, r: Ring, op: Op): Ring {
    match op
    case Add(node) => AddNode(c, r, node)
    case Remove(nodeId) => RemoveNode(c, r, nodeId)
  }

  function Run(c: Params, ops: seq<Op>): Ring {
    if ops == [] then EMPTY_RING else Apply(c, Run(c, ops[..|ops| - 1]), ops[|ops| - 1])
  }

  lemma {:induction false} RunInv(c: Params, ops: seq<Op>)
    ensures RingInv(c, Run(c, ops))
  {
    if ops != [] {
      RunInv(c, ops[..|ops| - 1]);
      match ops[|ops| - 1]
      case Add(node) => AddNodeInv(c, Run(c, ops[..|ops| - 1]), node);
      case Remove(nodeId) => RemoveNodeInv(c, Run(c, ops[..|ops| - 1]), nodeId);
    }
  }

  lemma SameNodesSameRing(c: Params, q: Ring, r: Ring)
    requires RingInv(c, q) && RingInv(c, r) && q.nodes == r.nodes
    ensures q == r
  {
    assert multiset(q.entries) == multiset(r.entries);
    SortedUnique(q.entries, r.entries);
  }

  /**
   History independence: whatever add_node and remove_node calls led there, rings with the same registered
   nodes are the same ring.
   */
  lemma {:induction false} HistoryIndependence(c: Params, ops1: seq<Op>, ops2: seq<Op>)
    requires Run(c, ops1).nodes == Run(c, ops2).nodes
    ensures Run(c, ops1) == Run(c, ops2)
  {
    RunInv(c, ops1);
    RunInv(c, ops2);
    SameNodesSameRing(c, Run(c, ops1), Run(c, ops2));
  }

  /** Adding a new node and removing it again restores the ring exactly; so does the reverse. */
  lemma AddThenRemove(c: Params, r: Ring, node: Node)
    requires RingInv(c, r)
    ensures node.nodeId !in r.nodes ==> RemoveNode(c, AddNode(c, r, node), node.nodeId) == r
    ensures node.nodeId in r.nodes ==> AddNode(c, RemoveNode(c, r, node.nodeId), r.nodes[node.nodeId]) == r
  {
    if node.nodeId !in r.nodes {
      var q := AddNode(c, r, node);
      AddNodeInv(c, r, node);
      RemoveNodeInv(c, q, node.nodeId);
      assert q.nodes - {node.nodeId} == r.nodes;
      SameNodesSameRing(c, RemoveNode(c, q, node.nodeId), r);
    } else {
      var n, q := r.nodes[node.nodeId], RemoveNode(c, r, node.nodeId);
      RemoveNodeInv(c, r, node.nodeId);
      AddNodeInv(c, q, n);
      assert q.nodes[node.nodeId := n] == r.nodes;
      SameNodesSameRing(c, AddNode(c, q, n), r);
    }
  }

  /** No entry names an unregistered node, so no lookup misses the node table. */
  lemma EntriesRegistered(c: Params, r: Ring, e: Entry)
    requires RingInv(c, r) && e in r.entries
    ensures e.nodeId in r.nodes
  {
    assert multiset(r.entries)[e] > 0;
  }

  function VnodeBag(c: Params, nodeId: string, n: nat): (b: multiset<Entry>)
    ensures |b| == n
  {
    if n == 0 then multiset{} else VnodeBag(c, nodeId, n - 1) + multiset{Vnode(c, nodeId, n - 1)}
  }

  lemma {:induction false} VnodeBagCount(c: Params, nodeId: string, n: nat, e: Entry)
    ensures VnodeBag(c, nodeId, n)[e] == Count(c, nodeId, n, e)
  {
    if n != 0 { VnodeBagCount(c, nodeId, n - 1, e); }
  }

  /**
   A registered node owns weight * vnodes_per_node entries of the list, hash collisions with itself and with
   other nodes included: a heavier node gets proportionally more of them.
   */
  lemma EntriesPerNode(c: Params, r: Ring, nodeId: string)
    requires RingInv(c, r)
    ensures |Filter(r.entries, (e: Entry) => e.nodeId == nodeId)|
            == if nodeId in r.nodes && c.vnodesPerNode * r.nodes[nodeId].weight > 0
                then c.vnodesPerNode * r.nodes[nodeId].weight else 0
  {
    var keep := (e: Entry) => e.nodeId == nodeId;
    var n := if nodeId in r.nodes then TotalVnodes(c, r.nodes[nodeId]) else 0;
    forall e: Entry ensures multiset(Filter(r.entries, keep))[e] == VnodeBag(c, nodeId, n)[e] {
      FilterCount(r.entries, keep, e);
      VnodeBagCount(c, nodeId, n, e);
      if e.nodeId != nodeId { CountOther(c, nodeId, n, e); }
    }
    assert multiset(Filter(r.entries, keep)) == VnodeBag(c, nodeId, n);
    assert |multiset(Filter(r.entries, keep))| == |Filter(r.entries, keep)|;
  }

  // ----- Lookup -----

  /** The whole ring, clockwise from a position. */
  function Clockwise(s: seq<Entry>, position: Position): seq<Entry> {
    s[BisectLeft(s, position)..] + s[..BisectLeft(s, position)]
  }

  function Owners(s: seq<Entry>): (ids: seq<string>)
    ensures |ids| == |s|
  {
    seq(|s|, i requires 0 <= i < |s| => s[i].nodeId)
  }

  /** A key's preference order: the distinct nodes met clockwise from its hash. */
  function Order(c: Params, r: Ring, key: string): seq<string> {
    Firsts(Owners(Clockwise(r.entries, c.hash(key))))
  }

  /** Responsible node of a key: that of the first entry clockwise. OwnerIsFirst shows the table never lacks it. */
  function GetNode(c: Params, r: Ring, key: string): Option<Node> {
    var s := Clockwise(r.entries, c.hash(key));
    if s == [] || s[0].nodeId !in r.nodes then None else Some(r.nodes[s[0].nodeId])
  }

  /** get_nodes_for_key stops when it has n nodes; an n below one never stops it early. */
  function Limit(order: seq<string>, n: int): seq<string> {
    if 0 < n <= |order| then order[..n] else order
  }

  /** e is the least entry at or after the position, or the least of all when there is none. */
  ghost predicate FirstClockwise(s: seq<Entry>, position: Position, e: Entry) {
    && e in s
    && (if exists x | x in s :: position <= x.position
        then position <= e.position && forall x | x in s && position <= x.position :: Leq(e, x)
        else forall x | x in s :: Leq(e, x))
  }

  /** The bisect lookup is the simple definition, and is unambiguous. */
  lemma LookupIsLeast(c: Params, r: Ring, key: string)
    requires RingInv(c, r) && r.entries != []
    ensures var s := Clockwise(r.entries, c.hash(key));
            && s != []
            && FirstClockwise(r.entries, c.hash(key), s[0])
            && s[0].nodeId in r.nodes && GetNode(c, r, key) == Some(r.nodes[s[0].nodeId])
            && (forall e | FirstClockwise(r.entries, c.hash(key), e) :: e == s[0])
            && var past := exists x :: x in r.entries && c.hash(key) <= x.position;
               && (past ==> c.hash(key) <= s[0].position)
               && forall x | x in r.entries && (past ==> c.hash(key) <= x.position) ::
                    s[0].position < x.position
                    || (s[0].position == x.position && StringLeq(s[0].nodeId, x.nodeId))
  {
    var p, s := c.hash(key), Clockwise(r.entries, c.hash(key));
    var i := BisectLeft(r.entries, p);
    BisectLeftSplits(r.entries, p);
    var first := if i < |r.entries| then i else 0;
    assert s[0] == r.entries[first];
    EntriesRegistered(c, r, s[0]);
    forall x | x in r.entries && (p <= x.position || i == |r.entries|) ensures Leq(s[0], x) {
      var k :| 0 <= k < |r.entries| && r.entries[k] == x;
      LeqOrder(x, x, x);
    }
    forall e | FirstClockwise(r.entries, p, e) ensures e == s[0] {
      LeqOrder(e, s[0], s[0]);
    }
  }

  lemma OwnersConcat(s: seq<Entry>, t: seq<Entry>)
    ensures Owners(s + t) == Owners(s) + Owners(t)
  {}

  lemma {:induction false} OwnersFilter(s: seq<Entry>, id: string)
    ensures Owners(Filter(s, (e: Entry) => e.nodeId != id)) == Filter(Owners(s), (x: string) => x != id)
  {
    if s != [] {
      var front, e := s[..|s| - 1], s[|s| - 1];
      SplitLast(s);
      OwnersFilter(front, id);
      FilterSnoc(front, e, (x: Entry) => x.nodeId != id);
      FilterSnoc(Owners(front), e.nodeId, (x: string) => x != id);
      OwnersConcat(front, [e]);
      assert Owners([e]) == [e.nodeId];
      if e.nodeId != id { OwnersConcat(Filter(front, (x: Entry) => x.nodeId != id), [e]); }
    }
  }

  /** Filtering a sorted list and walking it clockwise commute. */
  lemma ClockwiseFilter(s: seq<Entry>, position: Position, keep: Entry -> bool)
    requires Sorted(s)
    ensures Clockwise(Filter(s, keep), position) == Filter(Clockwise(s, position), keep)
  {
    var i := BisectLeft(s, position);
    var low, high := Filter(s[..i], keep), Filter(s[i..], keep);
    BisectLeftSplits(s, position);
    assert s == s[..i] + s[i..];
    FilterConcat(s[..i], s[i..], keep);
    FilterSorted(s, keep);
    var f := Filter(s, keep);
    assert f == low + high;
    forall k | 0 <= k < |f| ensures (k < |low|) == (f[k].position < position) {
      if k < |low| {
        FilterIn(s[..i], keep, low[k]);
      } else {
        assert f[k] == high[k - |low|];
        FilterIn(s[i..], keep, f[k]);
      }
    }
    BisectLeftIs(f, position, |low|);
    FilterConcat(s[i..], s[..i], keep);
  }

  /**
   Removing a node deletes it from every key's preference order and changes nothing else.
   */
  lemma RemoveDeletes(c: Params, r: Ring, nodeId: string, key: string)
    requires RingInv(c, r)
    ensures Order(c, RemoveNode(c, r, nodeId), key) == Filter(Order(c, r, key), (x: string) => x != nodeId)
  {
    var walk, keep, keepId := Clockwise(r.entries, c.hash(key)), (e: Entry) => e.nodeId != nodeId,
        (x: string) => x != nodeId;
    if nodeId in r.nodes {
      RemoveNodeFilters(c, r, nodeId);
      ClockwiseFilter(r.entries, c.hash(key), keep);
      OwnersFilter(walk, nodeId);
      FirstsFilter(Owners(walk), keepId);
    } else {
      forall x | x in Order(c, r, key) ensures x != nodeId { OrderElements(c, r, key, x); }
      FilterAll(Order(c, r, key), keepId);
    }
  }

  /** Walking clockwise meets every entry. */
  lemma ClockwiseMeets(s: seq<Entry>, position: Position, e: Entry)
    ensures e in Clockwise(s, position) <==> e in s
  {
    var i := BisectLeft(s, position);
    assert s == s[..i] + s[i..];
  }

  lemma OwnerIn(s: seq<Entry>, id: string)
    ensures id in Owners(s) <==> exists e :: e in s && e.nodeId == id
  {
    if id in Owners(s) {
      var k :| 0 <= k < |s| && Owners(s)[k] == id;
      assert s[k] in s;
    }
    if e :| e in s && e.nodeId == id {
      var k :| 0 <= k < |s| && s[k] == e;
      assert Owners(s)[k] == id;
    }
  }

  lemma OrderElements(c: Params, r: Ring, key: string, id: string)
    ensures Distinct(Order(c, r, key))
    ensures id in Order(c, r, key) <==> exists e :: e in r.entries && e.nodeId == id
    ensures RingInv(c, r) && id in Order(c, r, key) ==> id in r.nodes
  {
    hide Firsts, Owners, Clockwise, RingInv, Distinct;
    var walk := Clockwise(r.entries, c.hash(key));
    FirstsElements(Owners(walk));
    OwnerIn(walk, id);
    forall e ensures e in walk <==> e in r.entries { ClockwiseMeets(r.entries, c.hash(key), e); }
    if id in Order(c, r, key) {
      var e :| e in walk && e.nodeId == id;
      if RingInv(c, r) { EntriesRegistered(c, r, e); }
    }
  }

  /** Weights and vnodes_per_node of at least one: every registered node is on the ring. */
  ghost predicate AllPresent(c: Params, r: Ring) {
    forall id | id in r.nodes :: TotalVnodes(c, r.nodes[id]) >= 1
  }

  /** The preference order then holds every registered node exactly once. */
  lemma OrderIsAllNodes(c: Params, r: Ring, key: string)
    requires RingInv(c, r) && AllPresent(c, r)
    ensures forall id :: id in Order(c, r, key) <==> id in r.nodes
    ensures |Order(c, r, key)| == |r.nodes|
  {
    forall id ensures id in Order(c, r, key) <==> id in r.nodes {
      OrderElements(c, r, key, id);
      if id in r.nodes {
        var e, n := Vnode(c, id, 0), TotalVnodes(c, r.nodes[id]);
        CountPositive(c, id, n, e);
        assert e in VnodeSet(c, id, n);
        assert multiset(r.entries)[e] > 0;
      }
    }
    OrderElements(c, r, key, "");
    DistinctSize(Order(c, r, key), r.nodes.Keys);
  }

  /** get_node's answer is the first of the preference order; it is None only on an empty ring. */
  lemma OwnerIsFirst(c: Params, r: Ring, key: string)
    requires RingInv(c, r)
    ensures var order := Order(c, r, key);
            && (order == [] <==> r.entries == [])
            && (forall id | id in order :: id in r.nodes)
            && GetNode(c, r, key) == if order == [] then None else Some(r.nodes[order[0]])
  {
    FirstsElements(Owners(Clockwise(r.entries, c.hash(key))));
    forall id | id in Order(c, r, key) ensures id in r.nodes { OrderElements(c, r, key, id); }
    if r.entries != [] { LookupIsLeast(c, r, key); }
  }

  /** A longer answer extends a shorter one, and each has min(n, number of nodes) nodes. */
  lemma LimitLaw(c: Params, r: Ring, key: string, m: int, n: int)
    requires RingInv(c, r) && AllPresent(c, r) && 1 <= m <= n
    ensures var short, long := Limit(Order(c, r, key), m), Limit(Order(c, r, key), n);
            && short <= long
            && |long| == (if n <= |r.nodes| then n else |r.nodes|)
            && Distinct(long)
            && (long != [] ==> GetNode(c, r, key).Some? && GetNode(c, r, key).value.nodeId == long[0])
  {
    OrderIsAllNodes(c, r, key);
    OrderElements(c, r, key, "");
    OwnerIsFirst(c, r, key);
  }

  /**
   How many nodes get_nodes_for_key returns, for every n: all of them when n is below one, where the
   documentation has it return n.
   */
  lemma AnswerSize(c: Params, r: Ring, key: string, n: int)
    requires RingInv(c, r) && AllPresent(c, r)
    ensures |Limit(Order(c, r, key), n)| == if n < 1 || |r.nodes| <= n then |r.nodes| else n
    ensures |Limit(Order(c, r, key), n)| == n <==> 1 <= n <= |r.nodes| || (n == 0 && r.nodes == map[])
  {
    OrderIsAllNodes(c, r, key);
  }

  /**
   Minimal remapping on removal: keys of the removed node go to the old second entry of
   get_nodes_for_key, and every other key keeps its owner.
   */
  lemma RemoveRemaps(c: Params, r: Ring, nodeId: string, key: string)
    requires RingInv(c, r)
    ensures var before, after := Limit(Order(c, r, key), 2), GetNode(c, RemoveNode(c, r, nodeId), key);
            match GetNode(c, r, key)
            case None => after.None?
            case Some(owner) =>
              if owner.nodeId != nodeId then after == Some(owner)
              else if |before| < 2 then after.None?
              else before[1] in r.nodes && after == Some(r.nodes[before[1]])
  {
    RemoveNodeInv(c, r, nodeId);
    RemoveDeletes(c, r, nodeId, key);
    OwnerIsFirst(c, r, key);
    OwnerIsFirst(c, RemoveNode(c, r, nodeId), key);
    OrderElements(c, r, key, "");
    HeadAfterDelete(Order(c, r, key), nodeId);
  }

  lemma HeadAfterDelete(order: seq<string>, id: string)
    requires Distinct(order)
    ensures var f := Filter(order, (x: string) => x != id);
            if order == [] then f == []
            else if order[0] != id then f != [] && f[0] == order[0]
            else if |order| == 1 then f == []
            else f != [] && f[0] == order[1]
  {
    var keep := (x: string) => x != id;
    if order != [] && order[0] != id {
      FilterFirst(order, keep);
    } else if |order| >= 2 {
      FilterSecond(order, keep);
    } else if |order| == 1 {
      assert order == [] + [id];
      FilterSnoc([], id, keep);
    }
  }

  /** Adding a node moves a key only to the added node. */
  lemma AddRemaps(c: Params, r: Ring, node: Node, key: string)
    requires RingInv(c, r)
    ensures var after := GetNode(c, AddNode(c, r, node), key);
            after == GetNode(c, r, key) || (after.Some? && after.value == node)
  {
    if node.nodeId !in r.nodes {
      var q := AddNode(c, r, node);
      AddNodeInv(c, r, node);
      AddThenRemove(c, r, node);
      RemoveRemaps(c, q, node.nodeId, key);
      OwnerIsFirst(c, q, key);
    }
  }
}
