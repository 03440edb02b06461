/**
 route (router/router.py): the first healthy candidate of a key, given one snapshot of ring and health, and
 what two snapshots have to do with each other.
 */
module Router {
  import opened Wrappers
  import opened Seqs
  import opened HashRing

  // ----- route -----

  function FirstIn(ids: seq<string>, healthy: set<string>): Option<string> {
    if ids == [] then None
    else if ids[0] in healthy then Some(ids[0])
    else FirstIn(ids[1..], healthy)
  }

  /** The first healthy candidate for a key; None stands for the 503 error. */
  function Route(p: Params, r: Ring, healthy: set<string>, n: int, key: string): Option<Node> {
    match FirstIn(Limit(Order(p, r, key), n), healthy)
    case None => None
    case Some(id) => if id in r.nodes then Some(r.nodes[id]) else None
  }

  function RemoveAll(p: Params, r: Ring, ids: seq<string>): Ring {
    if ids == [] then r else RemoveNode(p, RemoveAll(p, r, ids[..|ids| - 1]), ids[|ids| - 1])
  }

  lemma {:induction false} FilterTwice(s: seq<string>, f: string -> bool, g: string -> bool, both: string -> bool)
    requires forall x :: both(x) <==> f(x) && g(x)
    ensures Filter(Filter(s, f), g) == Filter(s, both)
  {
    if s != [] {
      var front, x := s[..|s| - 1], s[|s| - 1];
      FilterTwice(front, f, g, both);
      assert both(x) <==> f(x) && g(x);
      assert Filter(s, f) == if f(x) then Filter(front, f) + [x] else Filter(front, f);
      FilterSnoc(Filter(front, f), x, g);
    }
  }

  lemma {:induction false} RemoveAllOrder(p: Params, r: Ring, ids: seq<string>, key: string)
    requires RingInv(p, r)
    ensures RingInv(p, RemoveAll(p, r, ids))
    ensures RemoveAll(p, r, ids).nodes == map id | id in r.nodes && id !in ids :: r.nodes[id]
    ensures Order(p, RemoveAll(p, r, ids), key) == Filter(Order(p, r, key), (x: string) => x !in ids)
  {
    hide RingInv, Order;
    if ids == [] {
      FilterAll(Order(p, r, key), (x: string) => x !in ids);
    } else {
      var front, last := ids[..|ids| - 1], ids[|ids| - 1];
      SplitLast(ids);
      assert forall x :: x in ids <==> x in front || x == last;
      RemoveAllOrder(p, r, front, key);
      RemoveNodeInv(p, RemoveAll(p, r, front), last);
      RemoveDeletes(p, RemoveAll(p, r, front), last, key);
      FilterTwice(Order(p, r, key), (x: string) => x !in front, (x: string) => x != last, (x: string) => x !in ids);
    }
  }

  /** The search finds the head of the healthy part of the list. */
  lemma {:induction false} FirstInIsHead(ids: seq<string>, healthy: set<string>)
    ensures var f := Filter(ids, (x: string) => x in healthy);
            && FirstIn(ids, healthy) == (if f == [] then None else Some(f[0]))
            && (f == [] <==> forall id | id in ids :: id !in healthy)
  {
    var keep := (x: string) => x in healthy;
    if ids != [] {
      var rest := ids[1..];
      FirstInIsHead(rest, healthy);
      assert ids == [ids[0]] + rest;
      FilterConcat([ids[0]], rest, keep);
      assert [ids[0]][..0] == [];
      assert forall id :: id in ids <==> id == ids[0] || id in rest;
    }
  }

  lemma {:induction false} FirstInPrefix(ids: seq<string>, healthy: set<string>, n: nat)
    requires n <= |ids|
    ensures FirstIn(ids[..n], healthy).Some? ==> FirstIn(ids[..n], healthy) == FirstIn(ids, healthy)
    ensures FirstIn(ids[..n], healthy).None? <==> forall i | 0 <= i < n :: ids[i] !in healthy
  {
    if n > 0 {
      assert ids[..n][1..] == ids[1..][..n - 1];
      FirstInPrefix(ids[1..], healthy, n - 1);
      assert forall i | 1 <= i < n :: ids[i] == ids[1..][i - 1];
    }
  }

  /**
   Given one snapshot of ring and health, route returns exactly the owner the key would have in the ring
   with every node that is not healthy removed, whenever one of the candidates is healthy; otherwise it fails.
   */
  lemma RouteIsHealthyOwner(p: Params, r: Ring, healthy: set<string>, n: int, key: string, gone: seq<string>)
    requires RingInv(p, r)
    requires forall id | id in r.nodes :: id in healthy <==> id !in gone
    ensures var candidates := Limit(Order(p, r, key), n);
            Route(p, r, healthy, n, key)
            == if exists id :: id in candidates && id in healthy then GetNode(p, RemoveAll(p, r, gone), key) else None
  {
    var order, candidates := Order(p, r, key), Limit(Order(p, r, key), n);
    var q := RemoveAll(p, r, gone);
    RemoveAllOrder(p, r, gone, key);
    OwnerIsFirst(p, r, key);
    OwnerIsFirst(p, q, key);
    hide RingInv, Order, GetNode, RemoveAll;
    FirstInIsHead(order, healthy);
    FirstInIsHead(candidates, healthy);
    FilterAgree(order, (x: string) => x !in gone, (x: string) => x in healthy);
    if 0 < n <= |order| { FirstInPrefix(order, healthy, n); }
    FilterHeadIn(order, healthy);
  }

  lemma FilterHeadIn(order: seq<string>, healthy: set<string>)
    ensures var f := Filter(order, (x: string) => x in healthy);
            f != [] ==> f[0] in order && f[0] in healthy
  {
    var f := Filter(order, (x: string) => x in healthy);
    if f != [] { FilterIn(order, (x: string) => x in healthy, f[0]); }
  }

  /** With this n, route answers every snapshot of health in which some node of the ring is healthy. */
  ghost predicate Serves(p: Params, r: Ring, n: int, key: string) {
    forall healthy: set<string> ::
      Route(p, r, healthy, n, key).None? ==> forall id | id in Order(p, r, key) :: id !in healthy
  }

  /** That is so exactly when the ring holds at most n nodes (or n is below one, which sets no bound). */
  lemma ServesExactly(p: Params, r: Ring, n: int, key: string)
    requires RingInv(p, r)
    ensures Serves(p, r, n, key) <==> n < 1 || |Order(p, r, key)| <= n
  {
    var order := Order(p, r, key);
    OwnerIsFirst(p, r, key);
    OrderElements(p, r, key, "");
    hide RingInv, Order;
    if 0 < n < |order| {
      var id := order[n];
      FirstInPrefix(order, {id}, n);
      assert Route(p, r, {id}, n, key).None?;
    } else {
      forall healthy: set<string> | Route(p, r, healthy, n, key).None?
        ensures forall id | id in order :: id !in healthy
      {
        assert Limit(order, n) == order;
        FirstInIsHead(order, healthy);
        FilterHeadIn(order, healthy);
      }
    }
  }

  // ----- Session affinity -----

  lemma {:induction false} Listing(ids: set<string>) returns (list: seq<string>)
    ensures forall x :: x in list <==> x in ids
    decreases |ids|
  {
    if ids == {} { return []; }
    var x :| x in ids;
    var rest := Listing(ids - {x});
    list := rest + [x];
  }

  /** A ring whose nodes are some of another's is what is left of the other when the rest is removed. */
  lemma SubRing(p: Params, q: Ring, r: Ring, rest: seq<string>, key: string)
    requires RingInv(p, q) && RingInv(p, r)
    requires forall id | id in r.nodes :: id in q.nodes && q.nodes[id] == r.nodes[id]
    requires forall id | id in q.nodes :: id in rest <==> id !in r.nodes
    ensures Order(p, r, key) == Filter(Order(p, q, key), (x: string) => x !in rest)
  {
    RemoveAllOrder(p, q, rest, key);
    assert RemoveAll(p, q, rest).nodes == r.nodes;
    SameNodesSameRing(p, RemoveAll(p, q, rest), r);
  }

  /** The owner on one ring is the owner on any smaller ring it is still on. */
  lemma OwnerStays(p: Params, q: Ring, r: Ring, key: string, w: Node)
    requires RingInv(p, q) && RingInv(p, r) && GetNode(p, q, key) == Some(w)
    requires forall id | id in r.nodes :: id in q.nodes && q.nodes[id] == r.nodes[id]
    requires w.nodeId in r.nodes
    ensures GetNode(p, r, key) == Some(w)
  {
    var rest := Listing(q.nodes.Keys - r.nodes.Keys);
    OwnerIsFirst(p, q, key);
    SubRing(p, q, r, rest, key);
    OwnerIsFirst(p, r, key);
    OwnerNamed(p, q, key);
    hide RingInv, Order, GetNode;
    FilterFirst(Order(p, q, key), (x: string) => x !in rest);
  }

  lemma OwnerNamed(p: Params, r: Ring, key: string)
    requires RingInv(p, r) && GetNode(p, r, key).Some?
    ensures Order(p, r, key) != [] && Order(p, r, key)[0] == GetNode(p, r, key).value.nodeId
  {
    OwnerIsFirst(p, r, key);
  }

  /** The ring without its unhealthy nodes. */
  lemma Sound(p: Params, r: Ring, healthy: set<string>) returns (q: Ring, gone: seq<string>)
    requires RingInv(p, r)
    ensures forall id | id in r.nodes :: id in healthy <==> id !in gone
    ensures q == RemoveAll(p, r, gone) && RingInv(p, q)
    ensures forall id :: id in q.nodes <==> id in r.nodes && id in healthy
    ensures forall id | id in q.nodes :: q.nodes[id] == r.nodes[id]
  {
    gone := Listing(r.nodes.Keys - healthy);
    q := RemoveAll(p, r, gone);
    RemoveAllOrder(p, r, gone, "");
  }

  /**
   Session affinity: if w served a key in one snapshot, is on the ring and healthy in a second, and every
   healthy ring node of the second was one of the first, then whatever the second snapshot answers is w.
   */
  lemma Affinity(p: Params, r1: Ring, healthy1: set<string>, n1: int, r2: Ring, healthy2: set<string>, n2: int,
      key: string, w: Node)
    requires RingInv(p, r1) && RingInv(p, r2)
    requires Route(p, r1, healthy1, n1, key) == Some(w)
    requires w.nodeId in r2.nodes && w.nodeId in healthy2
    requires forall id | id in r2.nodes && id in healthy2 ::
               id in r1.nodes && id in healthy1 && r1.nodes[id] == r2.nodes[id]
    ensures Route(p, r2, healthy2, n2, key) == Some(w)
            || forall id | id in Limit(Order(p, r2, key), n2) :: id !in healthy2
    ensures n2 < 1 || |Order(p, r2, key)| <= n2 ==> Route(p, r2, healthy2, n2, key) == Some(w)
  {
    var q1, gone1 := Sound(p, r1, healthy1);
    var q2, gone2 := Sound(p, r2, healthy2);
    hide RingInv, Order, GetNode, Route, RemoveAll;
    RouteIsHealthyOwner(p, r1, healthy1, n1, key, gone1);
    RouteIsHealthyOwner(p, r2, healthy2, n2, key, gone2);
    OwnerStays(p, q1, q2, key, w);
    OwnerNamed(p, q2, key);
    RemoveAllOrder(p, r2, gone2, key);
    FilterIn(Order(p, r2, key), (x: string) => x !in gone2, w.nodeId);
    OwnerIsFirst(p, r2, key);
  }
}
