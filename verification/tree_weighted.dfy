/** The edge-set tree of the linear-scan search (Assets/Scripts/Graph/TreeWeighted.cs).

    An edge (Assets/Scripts/Graph/EdgeWeighted.cs) goes from `inNode` to
    `outNode`, and the search reads `inNode` as the parent of `outNode`.  Edges
    are distinct objects in the source, so two edges with equal fields may both
    be present: the edge set is a sequence, in enumeration order. */
module TreeWeighted {
  import opened Wrappers

  /** `EdgeWeighted(_in, _out, cost = 0)`. */
  datatype Edge<N> = Edge(inNode: N, outNode: N, weight: int)

  datatype Tree<N> = Tree(nodes: set<N>, edges: seq<Edge<N>>)

  /** `Clear()`: no nodes and no edges. */
  function Clear<N>(t: Tree<N>): (r: Tree<N>)
    ensures r.nodes == {} && r.edges == []
  {
    Tree({}, [])
  }

  /** Position of the first edge whose `outNode` is `n`. */
  function FirstInto<N(==)>(edges: seq<Edge<N>>, n: N): (r: Option<nat>)
    ensures r.None? <==> forall i :: 0 <= i < |edges| ==> edges[i].outNode != n
    ensures r.Some? ==> r.value < |edges| && edges[r.value].outNode == n
    ensures r.Some? ==> forall i :: 0 <= i < r.value ==> edges[i].outNode != n
  {
    if |edges| == 0 then None
    else if edges[0].outNode == n then Some(0)
    else match FirstInto(edges[1..], n)
      case None => None
      case Some(i) => Some(i + 1)
  }

  /** `GetParentEdge(n)`: the first edge into `n`, or null. */
  function GetParentEdge<N(==)>(t: Tree<N>, n: N): (r: Option<Edge<N>>)
    ensures r.None? <==> forall e :: e in t.edges ==> e.outNode != n
    ensures r.Some? ==> r.value in t.edges && r.value.outNode == n
  {
    match FirstInto(t.edges, n)
    case None => None
    case Some(i) => Some(t.edges[i])
  }

  /** `GetParentNode(n)`: the `inNode` of the first edge into `n`, or null. */
  function GetParentNode<N(==)>(t: Tree<N>, n: N): (r: Option<N>)
    ensures r.None? <==> forall e :: e in t.edges ==> e.outNode != n
    ensures r.Some? ==> exists e :: e in t.edges && e.inNode == r.value && e.outNode == n
  {
    match GetParentEdge(t, n)
    case None => None
    case Some(e) => Some(e.inNode)
  }

  /** `UpdateParent(node, newParent)`: drop the first edge into `node` (if any)
      and add an edge whose `inNode` is `node` and whose `outNode` is
      `newParent`, the reverse of the parent convention. */
  function UpdateParent<N(==)>(t: Tree<N>, node: N, newParent: N): (r: Tree<N>)
    ensures r.nodes == t.nodes
    ensures forall e :: e in r.edges ==> e in t.edges || e == Edge(node, newParent, 0)
    ensures |r.edges| > 0 && r.edges[|r.edges| - 1] == Edge(node, newParent, 0)
    ensures GetParentEdge(t, node).None? ==> r.edges == t.edges + [Edge(node, newParent, 0)]
    ensures GetParentEdge(t, node).Some? ==>
      && |r.edges| == |t.edges|
      && multiset(r.edges) == multiset(t.edges) - multiset{GetParentEdge(t, node).value} + multiset{Edge(node, newParent, 0)}
  {
    var kept := match FirstInto(t.edges, node)
      case None => t.edges
      case Some(i) => t.edges[..i] + t.edges[i + 1..];
    assert FirstInto(t.edges, node).Some? ==> t.edges == t.edges[..FirstInto(t.edges, node).value] + [t.edges[FirstInto(t.edges, node).value]] + t.edges[FirstInto(t.edges, node).value + 1..];
    Tree(t.nodes, kept + [Edge(node, newParent, 0)])
  }

  /** After `Clear()` no node has a parent. */
  lemma ClearedHasNoParents<N>(t: Tree<N>, n: N)
    ensures GetParentNode(Clear(t), n).None?
  {
  }

  /** Dropping the only edge into `node` leaves no edge into it. */
  lemma DropOnlyEdgeInto<N>(edges: seq<Edge<N>>, node: N, i: nat)
    requires i < |edges| && edges[i].outNode == node
    requires forall k :: 0 <= k < i ==> edges[k].outNode != node
    requires forall a, b :: 0 <= a < b < |edges| ==> edges[a].outNode != node || edges[b].outNode != node
    ensures forall e :: e in edges[..i] + edges[i + 1..] ==> e.outNode != node
  {
    var kept := edges[..i] + edges[i + 1..];
    forall k | 0 <= k < |kept|
      ensures kept[k].outNode != node
    {
      if k < i {
        assert kept[k] == edges[k];
      } else {
        assert kept[k] == edges[k + 1];
      }
    }
  }

  /** A node with a single edge into it and a new parent other than itself is
      left with no parent at all: the reversed edge goes out of it. */
  lemma UpdateParentOrphans<N>(t: Tree<N>, node: N, newParent: N)
    requires forall i, j :: 0 <= i < j < |t.edges| ==> t.edges[i].outNode != node || t.edges[j].outNode != node
    requires node != newParent
    ensures GetParentNode(UpdateParent(t, node, newParent), node).None?
  {
    var r := UpdateParent(t, node, newParent);
    match FirstInto(t.edges, node)
    case None =>
      assert r.edges == t.edges + [Edge(node, newParent, 0)];
    case Some(i) =>
      DropOnlyEdgeInto(t.edges, node, i);
      assert r.edges == t.edges[..i] + t.edges[i + 1..] + [Edge(node, newParent, 0)];
  }

  /** An edge into `n` preceded by none is the first one. */
  lemma FirstIntoAt<N>(edges: seq<Edge<N>>, n: N, last: nat)
    requires last < |edges| && edges[last].outNode == n
    requires forall k :: 0 <= k < last ==> edges[k].outNode != n
    ensures FirstInto(edges, n) == Some(last)
  {
  }

  /** A new parent that had no edge into it now has `node` as its parent. */
  lemma UpdateParentAdoptsChild<N>(t: Tree<N>, node: N, newParent: N)
    requires forall e :: e in t.edges ==> e.outNode != newParent
    ensures GetParentNode(UpdateParent(t, node, newParent), newParent) == Some(node)
  {
    var r := UpdateParent(t, node, newParent);
    var last := |r.edges| - 1;
    forall k | 0 <= k < last
      ensures r.edges[k].outNode != newParent
    {
      match FirstInto(t.edges, node)
      case None =>
        assert r.edges[k] == t.edges[k];
      case Some(i) =>
        var kept := t.edges[..i] + t.edges[i + 1..];
        assert r.edges == kept + [Edge(node, newParent, 0)];
        assert r.edges[k] == kept[k];
        if k < i {
          assert kept[k] == t.edges[k];
        } else {
          assert kept[k] == t.edges[k + 1];
        }
    }
    FirstIntoAt(r.edges, newParent, last);
  }
}
