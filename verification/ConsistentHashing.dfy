/** The ring object of router/hash_ring.py, updated in place and proved against module HashRing. */
module ConsistentHashing {
  import opened Wrappers
  import opened Seqs
  import opened HashRing
  import Decimal

  lemma Wrap(i: nat, n: nat)
    requires 0 < n && i < 2 * n
    ensures i % n == if i < n then i else i - n
  {}

  lemma RotationAt(s: seq<Entry>, idx: nat, i: nat)
    requires idx <= |s| && i < |s|
    ensures Owners(s[idx..] + s[..idx])[i] == s[(idx + i) % |s|].nodeId
  {
    Wrap(idx + i, |s|);
  }

  ghost predicate Records(nodes: map<string, Node>, ids: seq<string>, result: seq<Node>) {
    |result| == |ids| && forall i | 0 <= i < |ids| :: ids[i] in nodes && result[i] == nodes[ids[i]]
  }

  class ConsistentHashRing {
    const params: Params
    var ring: seq<Entry>
    var nodes: map<string, Node>

    ghost function View(): Ring
      reads this
    {
      Ring(ring, nodes)
    }

    ghost predicate Valid()
      reads this
    {
      RingInv(params, View())
    }

    constructor (params: Params)
      ensures Valid() && this.params == params && View() == EMPTY_RING
    {
      this.params := params;
      ring, nodes := [], map[];
      new;
      RunInv(params, []);
    }

    method AddNode(node: Node)
      requires Valid()
      modifies this
      ensures Valid() && View() == HashRing.AddNode(params, old(View()), node)
      ensures node.nodeId in old(nodes) ==> ring == old(ring) && nodes == old(nodes)
      ensures node.nodeId !in old(nodes) ==>
                var n := if params.vnodesPerNode * node.weight < 0 then 0 else params.vnodesPerNode * node.weight;
                && nodes == old(nodes)[node.nodeId := node]
                && multiset(ring) == old(multiset(ring)) + multiset(
                     seq(n, (i: nat) => Entry(params.hash(node.nodeId + ":vnode:" + Decimal.Render(i)), node.nodeId)))
    {
      AddNodeInv(params, View(), node);
      if node.nodeId !in nodes { AddedEntries(params, View(), node); }
      if node.nodeId in nodes { return; }
      nodes := nodes[node.nodeId := node];
      InsertVnodes(node);
    }

    /** The insort loop of add_node. */
    method InsertVnodes(node: Node)
      modifies this`ring
      ensures ring == AddVnodes(params, old(ring), node.nodeId, TotalVnodes(params, node))
    {
      var totalVnodes := params.vnodesPerNode * node.weight;
      var i := 0;
      while i < totalVnodes
        invariant 0 <= i <= TotalVnodes(params, node)
        invariant ring == AddVnodes(params, old(ring), node.nodeId, i)
      {
        ring := Insort(ring, Vnode(params, node.nodeId, i));
        i := i + 1;
      }
    }

    method RemoveNode(nodeId: string)
      requires Valid()
      modifies this
      ensures Valid() && View() == HashRing.RemoveNode(params, old(View()), nodeId)
    {
      RemoveNodeInv(params, View(), nodeId);
      if nodeId !in nodes { return; }
      var node := nodes[nodeId];
      nodes := nodes - {nodeId};
      var totalVnodes := params.vnodesPerNode * node.weight;
      var toRemove: set<Entry> := {};
      var i := 0;
      while i < totalVnodes
        invariant 0 <= i <= TotalVnodes(params, node)
        invariant toRemove == VnodeSet(params, nodeId, i)
      {
        toRemove := toRemove + {Vnode(params, nodeId, i)};
        i := i + 1;
      }
      ghost var gone := VnodeSet(params, nodeId, TotalVnodes(params, node));
      FilterAgree(ring, (e: Entry) => e !in toRemove, (e: Entry) => e !in gone);
      ring := Filter(ring, (e: Entry) => e !in toRemove);
    }

    method GetNode(key: string) returns (r: Option<Node>)
      requires Valid()
      ensures r == HashRing.GetNode(params, View(), key)
    {
      if |ring| == 0 { return None; }
      var idx := BisectLeft(ring, params.hash(key));
      if idx >= |ring| { idx := 0; }
      EntriesRegistered(params, View(), ring[idx]);
      return Some(nodes[ring[idx].nodeId]);
    }

    /** The first n distinct nodes clockwise from the key's hash. */
    method GetNodesForKey(key: string, n: int) returns (result: seq<Node>)
      requires Valid()
      ensures Records(nodes, Limit(Order(params, View(), key), n), result)
    {
      if |ring| == 0 { return []; }
      forall e | e in ring ensures e.nodeId in nodes { EntriesRegistered(params, View(), e); }
      result := WalkFrom(BisectLeft(ring, params.hash(key)), n);
    }

    /** The distinct-node walk from one index of the list. */
    method WalkFrom(idx: nat, n: int) returns (result: seq<Node>)
      requires idx <= |ring| && ring != [] && forall e | e in ring :: e.nodeId in nodes
      ensures Records(nodes, Limit(Firsts(Owners(ring[idx..] + ring[..idx])), n), result)
    {
      hide Firsts, Owners;
      ghost var owners := Owners(ring[idx..] + ring[..idx]);
      FirstsEmpty(owners);
      result := [];
      var seen: set<string> := {};
      for i := 0 to |ring|
        invariant n <= 0 || |result| < n
        invariant forall id :: id in seen <==> id in Firsts(owners[..i])
        invariant Records(nodes, Firsts(owners[..i]), result)
      {
        var nodeId := ring[(idx + i) % |ring|].nodeId;
        RotationAt(ring, idx, i);
        FirstsNext(owners, i);
        if nodeId !in seen {
          seen := seen + {nodeId};
          result := result + [nodes[nodeId]];
        }
        if |result| == n { return; }
      }
      assert owners[..|ring|] == owners;
    }
  }
}
