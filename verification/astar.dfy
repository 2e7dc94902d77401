/** The first-generation search of Assets/Scripts/AStar.cs: a linear scan of
    an open dictionary instead of a heap, and an edge-set tree
    (`TreeWeighted`) instead of a parent map.

    The source wraps every location it meets in a fresh `NodeAnnotated`
    object and compares those objects by reference.  Every object ever made is
    a key of `G`, which is never shrunk during a search, so a node is modelled
    by its creation number: `labels[i]` is the location of node `i` and
    `g[i]` its cost `G[node]`.  Node 0 is the origin.  The open dictionary is a
    sequence of entries in enumeration order. */
module AStar {
  import opened Wrappers
  import opened Worlds
  import opened TreeWeighted
  import PathTrees

  /** One entry `node ↦ edge` of `OpenNodes`: the edge the node would enter the tree with. */
  datatype OpenEntry = OpenEntry(node: nat, edge: Edge<nat>)

  /** The private `State` of the algorithm. */
  datatype State<T> = State(labels: seq<T>, g: seq<int>, open: seq<OpenEntry>, tree: Tree<nat>, current: nat)

  /** What `Calculate` does: return a path, return null, or fail while walking
      the tree back (a node without a parent edge dereferences null; a cycle
      of parent edges never ends). */
  datatype Outcome<T> = Found(path: seq<T>) | NotFound | NullParent | Diverges

  predicate Sized<T>(s: State<T>)
  {
    |s.g| == |s.labels| && s.current < |s.labels|
  }

  function LabelSet<T>(s: State<T>): set<T>
  {
    set x | x in s.labels
  }

  function OpenIds(open: seq<OpenEntry>): set<nat>
  {
    set i | 0 <= i < |open| :: open[i].node
  }

  lemma OpenIdsCons(o: OpenEntry, rest: seq<OpenEntry>)
    ensures OpenIds([o] + rest) == {o.node} + OpenIds(rest)
  {
    var s := [o] + rest;
    forall x
      ensures x in OpenIds(s) <==> x in {o.node} + OpenIds(rest)
    {
      if x in OpenIds(s) {
        var i :| 0 <= i < |s| && s[i].node == x;
        if i > 0 {
          assert rest[i - 1].node == x;
        }
      }
      if x in OpenIds(rest) {
        var i :| 0 <= i < |rest| && rest[i].node == x;
        assert s[i + 1].node == x;
      }
      if x == o.node {
        assert s[0].node == x;
      }
    }
  }

  lemma OpenIdsAppend(open: seq<OpenEntry>, o: OpenEntry)
    ensures OpenIds(open + [o]) == OpenIds(open) + {o.node}
  {
    var s := open + [o];
    forall x
      ensures x in OpenIds(s) <==> x in OpenIds(open) + {o.node}
    {
      if x in OpenIds(s) {
        var i :| 0 <= i < |s| && s[i].node == x;
        if i < |open| {
          assert open[i].node == x;
        }
      }
      if x in OpenIds(open) {
        var i :| 0 <= i < |open| && open[i].node == x;
        assert s[i].node == x;
      }
      if x == o.node {
        assert s[|open|].node == x;
      }
    }
  }

  /** Removing the entry at `k` of a dictionary removes exactly its key. */
  lemma OpenIdsRemove(open: seq<OpenEntry>, k: nat)
    requires k < |open| && DistinctNodes(open)
    ensures OpenIds(open[..k] + open[k + 1..]) == OpenIds(open) - {open[k].node}
    ensures DistinctNodes(open[..k] + open[k + 1..])
  {
    RemoveDropsKey(open, k);
    RemoveKeepsDistinct(open, k);
  }

  lemma RemoveDropsKey(open: seq<OpenEntry>, k: nat)
    requires k < |open| && DistinctNodes(open)
    ensures OpenIds(open[..k] + open[k + 1..]) == OpenIds(open) - {open[k].node}
  {
    var s := open[..k] + open[k + 1..];
    forall i | 0 <= i < |s|
      ensures s[i].node in OpenIds(open) - {open[k].node}
    {
      var i' := if i < k then i else i + 1;
      assert s[i] == open[i'];
    }
    forall i | 0 <= i < |open| && i != k
      ensures open[i].node in OpenIds(s)
    {
      var i' := if i < k then i else i - 1;
      assert s[i'] == open[i];
    }
  }

  lemma RemoveKeepsDistinct(open: seq<OpenEntry>, k: nat)
    requires k < |open| && DistinctNodes(open)
    ensures DistinctNodes(open[..k] + open[k + 1..])
  {
    var s := open[..k] + open[k + 1..];
    forall i, j | 0 <= i < j < |s|
      ensures s[i].node != s[j].node
    {
      var i' := if i < k then i else i + 1;
      var j' := if j < k then j else j + 1;
      assert s[i] == open[i'] && s[j] == open[j'];
    }
  }

  /** `OpenNodes` is a dictionary: no node is a key twice. */
  ghost predicate DistinctNodes(open: seq<OpenEntry>)
  {
    forall i, j :: 0 <= i < j < |open| ==> open[i].node != open[j].node
  }

  /** `f(node) = G[node] + h(node)`, with `h` the distance estimate to the destination. */
  function F<T>(w: World<T>, dest: T, s: State<T>, id: nat): int
    requires Sized(s) && id < |s.labels|
  {
    s.g[id] + w.distanceEstimation(s.labels[id], dest)
  }

  /** `Set(args)`: the origin is node 0 with cost 0 and is the only tree node;
      each neighbour of the origin, duplicates included, becomes a new open
      node whose cost is the origin's movement cost and whose edge comes from
      the origin. */
  method Set<T>(w: World<T>, origin: T) returns (s: State<T>)
    ensures s.labels == [origin] + w.neighborsOf(origin)
    ensures s.g == [0] + seq(|w.neighborsOf(origin)|, _ => w.movementCost(origin))
    ensures |s.open| == |w.neighborsOf(origin)|
    ensures forall i :: 0 <= i < |s.open| ==> s.open[i] == OpenEntry(i + 1, Edge(0, i + 1, 0))
    ensures s.tree == Tree({0}, []) && s.current == 0
  {
    var ns := w.neighborsOf(origin);
    s := State([origin], [0], [], Tree({0}, []), 0);
    var i := 0;
    while i < |ns|
      invariant 0 <= i <= |ns|
      invariant s.labels == [origin] + ns[..i]
      invariant s.g == [0] + seq(i, _ => w.movementCost(origin))
      invariant |s.open| == i
      invariant forall j :: 0 <= j < i ==> s.open[j] == OpenEntry(j + 1, Edge(0, j + 1, 0))
      invariant s.tree == Tree({0}, []) && s.current == 0
    {
      var node := |s.labels|;
      s := s.(labels := s.labels + [ns[i]], g := s.g + [w.movementCost(origin)], open := s.open + [OpenEntry(node, Edge(0, node, 0))]);
      i := i + 1;
    }
    assert ns[..i] == ns;
  }

  /** `GetNodeForLocation(location)`: the first node, in creation order, whose
      location equals `x`; `None` when there is none. */
  function GetNodeForLocation<T(==)>(labels: seq<T>, x: T): (r: Option<nat>)
    ensures r.None? <==> x !in labels
    ensures r.Some? ==> r.value < |labels| && labels[r.value] == x
    ensures r.Some? ==> forall i :: 0 <= i < r.value ==> labels[i] != x
  {
    if |labels| == 0 then None
    else if labels[0] == x then Some(0)
    else match GetNodeForLocation(labels[1..], x)
      case None => None
      case Some(i) => Some(i + 1)
  }

  /** `OpenNodes[node] = edge`: replace the edge of `node` where it sits, or
      add the entry at the end when `node` is not open. */
  function SetOpenEdge(open: seq<OpenEntry>, node: nat, edge: Edge<nat>): (r: seq<OpenEntry>)
    ensures node in OpenIds(open) ==> |r| == |open|
    ensures node !in OpenIds(open) ==> r == open + [OpenEntry(node, edge)]
    ensures OpenIds(r) == OpenIds(open) + {node}
    ensures forall i :: 0 <= i < |r| && r[i].node != node ==> i < |open| && r[i] == open[i]
  {
    if |open| == 0 then
      OpenIdsCons(OpenEntry(node, edge), []);
      [OpenEntry(node, edge)]
    else
      assert open == [open[0]] + open[1..];
      OpenIdsCons(open[0], open[1..]);
      if open[0].node == node then
        OpenIdsCons(OpenEntry(node, edge), open[1..]);
        [OpenEntry(node, edge)] + open[1..]
      else
        var rest := SetOpenEdge(open[1..], node, edge);
        OpenIdsCons(open[0], rest);
        [open[0]] + rest
  }

  /** Entries headed by `o` are distinct exactly when the rest are and do not hold `o`'s node. */
  lemma DistinctCons(o: OpenEntry, rest: seq<OpenEntry>)
    ensures DistinctNodes([o] + rest) <==> o.node !in OpenIds(rest) && DistinctNodes(rest)
  {
    var s := [o] + rest;
    OpenIdsCons(o, rest);
    if DistinctNodes(s) {
      forall i, j | 0 <= i < j < |rest|
        ensures rest[i].node != rest[j].node
      {
        assert rest[i] == s[i + 1] && rest[j] == s[j + 1];
      }
      forall i | 0 <= i < |rest|
        ensures rest[i].node != o.node
      {
        assert rest[i] == s[i + 1] && o == s[0];
      }
    }
    if o.node !in OpenIds(rest) && DistinctNodes(rest) {
      forall i, j | 0 <= i < j < |s|
        ensures s[i].node != s[j].node
      {
        assert s[j] == rest[j - 1];
        if i > 0 {
          assert s[i] == rest[i - 1];
        }
      }
    }
  }

  /** On entries with distinct nodes, `SetOpenEdge` keeps them distinct and
      leaves `edge` on the one entry for `node`. */
  lemma {:induction false} SetOpenEdgeKeepsDistinct(open: seq<OpenEntry>, node: nat, edge: Edge<nat>)
    requires DistinctNodes(open)
    ensures DistinctNodes(SetOpenEdge(open, node, edge))
    ensures forall i :: 0 <= i < |SetOpenEdge(open, node, edge)| && SetOpenEdge(open, node, edge)[i].node == node ==>
      SetOpenEdge(open, node, edge)[i].edge == edge
    decreases |open|
  {
    if |open| > 0 {
      var rest := open[1..];
      assert open == [open[0]] + rest;
      DistinctCons(open[0], rest);
      if open[0].node != node {
        SetOpenEdgeKeepsDistinct(rest, node, edge);
        var r := SetOpenEdge(rest, node, edge);
        DistinctCons(open[0], r);
        assert SetOpenEdge(open, node, edge) == [open[0]] + r;
      } else {
        var r := [OpenEntry(node, edge)] + rest;
        DistinctCons(OpenEntry(node, edge), rest);
        assert SetOpenEdge(open, node, edge) == r;
        forall i | 0 < i < |r|
          ensures r[i].node != node
        {
          assert r[i] == rest[i - 1];
        }
      }
    }
  }

  /** The cost of reaching a neighbour through the current node:
      `G[CurrentNode] + CurrentNode.Label.MovementCost()`. */
  function CostThrough<T>(w: World<T>, s: State<T>): int
    requires Sized(s)
  {
    s.g[s.current] + w.movementCost(s.labels[s.current])
  }

  /** `UpdateOrOpenNeighbour(neighbour)`: a location met for the first time
      becomes a new open node reached through the current node; a known node
      reached more cheaply through the current node gets the lower cost and
      is re-attached to the current node (a tree node through the reversed
      edge of `UpdateParent`, an open node through a new open edge); a known
      node reached no more cheaply is left alone. */
  function UpdateOrOpenNeighbour<T(==)>(w: World<T>, s: State<T>, y: T): (r: State<T>)
    requires Sized(s)
    ensures Sized(r) && r.current == s.current && r.tree.nodes == s.tree.nodes
    ensures r.labels == if y in s.labels then s.labels else s.labels + [y]
    ensures y !in s.labels ==>
      && r.g[|s.labels|] == CostThrough(w, s)
      && r.open == s.open + [OpenEntry(|s.labels|, Edge(s.current, |s.labels|, 0))]
      && r.tree == s.tree
    ensures forall i :: 0 <= i < |s.labels| ==> r.g[i] <= s.g[i]
    ensures forall i :: 0 <= i < |s.labels| && r.g[i] != s.g[i] ==> s.labels[i] == y && r.g[i] == CostThrough(w, s)
    ensures forall i :: 0 <= i < |s.labels| && r.g[i] != s.g[i] ==>
      y in s.labels && i == GetNodeForLocation(s.labels, y).value
    ensures y in s.labels ==>
      var n := GetNodeForLocation(s.labels, y).value;
      && r.g[n] <= CostThrough(w, s)
      && (s.g[n] <= CostThrough(w, s) ==> r == s)
      && (s.g[n] > CostThrough(w, s) && n in s.tree.nodes ==> r.open == s.open && r.tree == UpdateParent(s.tree, n, s.current))
      && (s.g[n] > CostThrough(w, s) && n !in s.tree.nodes ==> r.tree == s.tree && r.open == SetOpenEdge(s.open, n, Edge(s.current, n, 0)))
  {
    var cost := CostThrough(w, s);
    match GetNodeForLocation(s.labels, y)
    case None =>
      var n := |s.labels|;
      s.(labels := s.labels + [y], g := s.g + [cost], open := s.open + [OpenEntry(n, Edge(s.current, n, 0))])
    case Some(n) =>
      if s.g[n] > cost then
        if n in s.tree.nodes then s.(tree := UpdateParent(s.tree, n, s.current), g := s.g[n := cost])
        else s.(open := SetOpenEdge(s.open, n, Edge(s.current, n, 0)), g := s.g[n := cost])
      else s
  }

  /** Meeting the same neighbour twice in a row changes nothing the second
      time, as long as moving out of the current node costs nothing negative. */
  lemma UpdateIdempotent<T>(w: World<T>, s: State<T>, y: T)
    requires Sized(s) && w.movementCost(s.labels[s.current]) >= 0
    ensures UpdateOrOpenNeighbour(w, UpdateOrOpenNeighbour(w, s, y), y) == UpdateOrOpenNeighbour(w, s, y)
  {
    var r := UpdateOrOpenNeighbour(w, s, y);
    var n := GetNodeForLocation(r.labels, y).value;
    assert r.g[s.current] == s.g[s.current];
    assert CostThrough(w, r) == CostThrough(w, s);
    if y in s.labels {
      assert n == GetNodeForLocation(s.labels, y).value;
    } else {
      assert r.labels[|s.labels|] == y;
      assert n == |s.labels|;
    }
  }

  /** Lines 130-133 of `Calculate`: the chosen open node becomes current, joins
      the tree with its open edge, and leaves the open dictionary. */
  function Commit<T>(s: State<T>, k: nat): (r: State<T>)
    requires k < |s.open|
    ensures r.current == s.open[k].node && r.current in r.tree.nodes
    ensures r.tree.nodes == s.tree.nodes + {r.current}
    ensures r.tree.edges == s.tree.edges + [s.open[k].edge]
    ensures |r.open| == |s.open| - 1 && multiset(r.open) == multiset(s.open) - multiset{s.open[k]}
    ensures r.labels == s.labels && r.g == s.g
  {
    var o := s.open[k];
    assert s.open == s.open[..k] + [o] + s.open[k + 1..];
    s.(tree := Tree(s.tree.nodes + {o.node}, s.tree.edges + [o.edge]), open := s.open[..k] + s.open[k + 1..], current := o.node)
  }

  /** Lines 125-128 of `Calculate`: the first open entry, in enumeration
      order, whose `f` is least. */
  method Select<T>(w: World<T>, dest: T, s: State<T>) returns (k: nat)
    requires Sized(s) && |s.open| > 0
    requires forall i :: 0 <= i < |s.open| ==> s.open[i].node < |s.labels|
    ensures k < |s.open|
    ensures forall i :: 0 <= i < |s.open| ==> F(w, dest, s, s.open[k].node) <= F(w, dest, s, s.open[i].node)
    ensures forall i :: 0 <= i < k ==> F(w, dest, s, s.open[k].node) < F(w, dest, s, s.open[i].node)
  {
    k := 0;
    var i := 0;
    while i < |s.open|
      invariant 0 <= i <= |s.open| && k < |s.open| && (k < i || k == 0)
      invariant forall j :: 0 <= j < i ==> F(w, dest, s, s.open[k].node) <= F(w, dest, s, s.open[j].node)
      invariant forall j :: 0 <= j < k ==> F(w, dest, s, s.open[k].node) < F(w, dest, s, s.open[j].node)
    {
      if F(w, dest, s, s.open[k].node) > F(w, dest, s, s.open[i].node) {
        k := i;
      }
      i := i + 1;
    }
  }

  /** Either location is a neighbour of the other. */
  ghost predicate Adjacent<T>(w: World<T>, a: T, b: T)
  {
    b in w.neighborsOf(a) || a in w.neighborsOf(b)
  }

  /** An edge between two known nodes whose locations are adjacent. */
  ghost predicate EdgeOk<T>(w: World<T>, labels: seq<T>, e: Edge<nat>)
  {
    e.inNode < |labels| && e.outNode < |labels| && Adjacent(w, labels[e.inNode], labels[e.outNode])
  }

  /** Every location met is in the universe and reachable from the origin. */
  ghost predicate LabelsOk<T(!new)>(w: World<T>, origin: T, U: set<T>, labels: seq<T>)
  {
    forall i :: 0 <= i < |labels| ==> labels[i] in U && Reachable(w, origin, labels[i])
  }

  /** Every open entry is keyed by a known node and holds an edge into it. */
  ghost predicate OpenOk<T>(w: World<T>, labels: seq<T>, open: seq<OpenEntry>)
  {
    forall i :: 0 <= i < |open| ==> open[i].node < |labels| && open[i].edge.outNode == open[i].node && EdgeOk(w, labels, open[i].edge)
  }

  ghost predicate TreeOk<T>(w: World<T>, labels: seq<T>, tree: Tree<nat>)
  {
    forall e :: e in tree.edges ==> EdgeOk(w, labels, e)
  }

  /** Every known node is either in the tree or open, and not both. */
  ghost predicate Partitioned<T>(s: State<T>)
  {
    && (forall c :: c in s.tree.nodes ==> c < |s.labels| && c !in OpenIds(s.open))
    && (forall i :: 0 <= i < |s.labels| ==> i in s.tree.nodes || i in OpenIds(s.open))
  }

  /** What holds of the state throughout a search from `origin` inside the closed universe `U`. */
  ghost predicate Shape<T(!new)>(w: World<T>, origin: T, U: set<T>, s: State<T>)
  {
    && origin in U && ClosedUnder(w, U)
    && Sized(s) && s.labels[0] == origin
    && LabelsOk(w, origin, U, s.labels)
    && OpenOk(w, s.labels, s.open)
    && DistinctNodes(s.open)
    && TreeOk(w, s.labels, s.tree)
    && Partitioned(s)
    && 0 in s.tree.nodes && s.current in s.tree.nodes
  }

  /** Every neighbour of node `c` is the location of some node. */
  ghost predicate Expanded<T>(w: World<T>, s: State<T>, c: nat)
  {
    c < |s.labels| && forall y :: y in w.neighborsOf(s.labels[c]) ==> y in s.labels
  }

  /** The loop invariant of `Calculate`: no tree node is at the destination
      and every tree node has had its neighbours met. */
  ghost predicate Searching<T(!new)>(w: World<T>, origin: T, dest: T, U: set<T>, s: State<T>)
  {
    && Shape(w, origin, U, s) && origin != dest
    && (forall c :: c in s.tree.nodes ==> s.labels[c] != dest && Expanded(w, s, c))
  }

  /** `Searching`, except that the current node is still to be expanded. */
  ghost predicate Pending<T(!new)>(w: World<T>, origin: T, dest: T, U: set<T>, s: State<T>)
  {
    && Shape(w, origin, U, s) && origin != dest
    && (forall c :: c in s.tree.nodes ==> s.labels[c] != dest && (c != s.current ==> Expanded(w, s, c)))
  }

  /** The state `Set` leaves satisfies the loop invariant. */
  lemma SetEstablishes<T(!new)>(w: World<T>, origin: T, dest: T, U: set<T>, s: State<T>)
    requires origin in U && ClosedUnder(w, U) && origin != dest
    requires s.labels == [origin] + w.neighborsOf(origin)
    requires s.g == [0] + seq(|w.neighborsOf(origin)|, _ => w.movementCost(origin))
    requires |s.open| == |w.neighborsOf(origin)|
    requires forall i :: 0 <= i < |s.open| ==> s.open[i] == OpenEntry(i + 1, Edge(0, i + 1, 0))
    requires s.tree == Tree({0}, []) && s.current == 0
    ensures Searching(w, origin, dest, U, s)
  {
    var ns := w.neighborsOf(origin);
    ReachesItself(w, origin);
    forall i | 0 <= i < |s.labels|
      ensures s.labels[i] in U && Reachable(w, origin, s.labels[i])
    {
      if i > 0 {
        assert s.labels[i] == ns[i - 1];
        ReachableExtends(w, origin, origin, ns[i - 1]);
      }
    }
    forall i | 0 <= i < |s.labels|
      ensures i in s.tree.nodes || i in OpenIds(s.open)
    {
      if i > 0 {
        assert s.open[i - 1].node == i;
      }
    }
    assert 0 !in OpenIds(s.open);
    forall y | y in ns
      ensures y in s.labels
    {
      var j :| 0 <= j < |ns| && ns[j] == y;
      assert s.labels[j + 1] == y;
    }
    assert Expanded(w, s, 0);
  }

  /** Committing an open entry keeps the shape of the state. */
  lemma CommitShape<T(!new)>(w: World<T>, origin: T, U: set<T>, s: State<T>, k: nat)
    requires Shape(w, origin, U, s) && k < |s.open|
    ensures Shape(w, origin, U, Commit(s, k))
  {
    var r := Commit(s, k);
    var rest := s.open[..k] + s.open[k + 1..];
    assert r.open == rest;
    OpenIdsRemove(s.open, k);
    OpenOkRemove(w, s.labels, s.open, k);
    CommitKeepsTree(w, s, k);
    CommitKeepsPartition(s, k);
  }

  /** Dropping an open entry keeps the others well placed. */
  lemma OpenOkRemove<T>(w: World<T>, labels: seq<T>, open: seq<OpenEntry>, k: nat)
    requires OpenOk(w, labels, open) && k < |open|
    ensures OpenOk(w, labels, open[..k] + open[k + 1..])
  {
    var rest := open[..k] + open[k + 1..];
    forall i | 0 <= i < |rest|
      ensures rest[i].node < |labels| && rest[i].edge.outNode == rest[i].node && EdgeOk(w, labels, rest[i].edge)
    {
      if i < k {
        assert rest[i] == open[i];
      } else {
        assert rest[i] == open[i + 1];
      }
    }
  }

  /** The committed entry's edge joins the tree's well-placed edges. */
  lemma CommitKeepsTree<T>(w: World<T>, s: State<T>, k: nat)
    requires OpenOk(w, s.labels, s.open) && TreeOk(w, s.labels, s.tree) && k < |s.open|
    ensures TreeOk(w, s.labels, Commit(s, k).tree)
  {
    assert EdgeOk(w, s.labels, s.open[k].edge);
  }

  /** The committed node moves from the open entries to the tree. */
  lemma CommitKeepsPartition<T>(s: State<T>, k: nat)
    requires Partitioned(s) && DistinctNodes(s.open) && k < |s.open| && s.open[k].node < |s.labels|
    requires OpenIds(s.open[..k] + s.open[k + 1..]) == OpenIds(s.open) - {s.open[k].node}
    ensures Partitioned(Commit(s, k))
  {
    var r := Commit(s, k);
    assert r.open == s.open[..k] + s.open[k + 1..];
  }

  /** Committing an open entry away from the destination leaves only the new
      current node to expand. */
  lemma CommitPending<T(!new)>(w: World<T>, origin: T, dest: T, U: set<T>, s: State<T>, k: nat)
    requires Searching(w, origin, dest, U, s) && k < |s.open|
    requires s.labels[s.open[k].node] != dest
    ensures Pending(w, origin, dest, U, Commit(s, k))
  {
    CommitShape(w, origin, U, s, k);
  }

  /** Growing the locations at the end keeps a node expanded. */
  lemma ExpandedGrows<T>(w: World<T>, s: State<T>, r: State<T>, c: nat)
    requires Expanded(w, s, c) && s.labels <= r.labels
    ensures Expanded(w, r, c)
  {
    forall y | y in w.neighborsOf(r.labels[c])
      ensures y in r.labels
    {
      var j :| 0 <= j < |s.labels| && s.labels[j] == y;
      assert r.labels[j] == y;
    }
  }

  /** Edges and entries between known nodes stay well placed when locations are added at the end. */
  lemma EdgesGrow<T>(w: World<T>, labels: seq<T>, labels': seq<T>, open: seq<OpenEntry>, tree: Tree<nat>)
    requires labels <= labels'
    requires OpenOk(w, labels, open) && TreeOk(w, labels, tree)
    ensures OpenOk(w, labels', open) && TreeOk(w, labels', tree)
  {
    forall e | EdgeOk(w, labels, e)
      ensures EdgeOk(w, labels', e)
    {
      assert labels'[e.inNode] == labels[e.inNode] && labels'[e.outNode] == labels[e.outNode];
    }
  }

  /** Meeting a new location keeps the shape of the state. */
  lemma OpenNewShape<T(!new)>(w: World<T>, origin: T, U: set<T>, s: State<T>, y: T)
    requires Shape(w, origin, U, s) && y in w.neighborsOf(s.labels[s.current]) && y !in s.labels
    ensures Shape(w, origin, U, UpdateOrOpenNeighbour(w, s, y))
  {
    var n := |s.labels|;
    var o := OpenEntry(n, Edge(s.current, n, 0));
    var r := s.(labels := s.labels + [y], g := s.g + [CostThrough(w, s)], open := s.open + [o]);
    assert r == UpdateOrOpenNeighbour(w, s, y);
    NewLabelOk(w, origin, U, s.labels, s.current, y);
    EdgesGrow(w, s.labels, r.labels, s.open, s.tree);
    assert EdgeOk(w, r.labels, o.edge);
    NewEntryOk(w, r.labels, s.open, o);
    NewEntryKeepsPartition(s, r, o);
  }

  /** A neighbour of a met location is in the universe and reachable too. */
  lemma NewLabelOk<T(!new)>(w: World<T>, origin: T, U: set<T>, labels: seq<T>, c: nat, y: T)
    requires LabelsOk(w, origin, U, labels) && ClosedUnder(w, U) && c < |labels| && y in w.neighborsOf(labels[c])
    ensures LabelsOk(w, origin, U, labels + [y])
  {
    ReachableExtends(w, origin, labels[c], y);
  }

  /** Appending a well-placed entry keeps the open entries well placed. */
  lemma NewEntryOk<T>(w: World<T>, labels: seq<T>, open: seq<OpenEntry>, o: OpenEntry)
    requires OpenOk(w, labels, open) && o.node < |labels| && o.edge.outNode == o.node && EdgeOk(w, labels, o.edge)
    ensures OpenOk(w, labels, open + [o])
  {
  }

  /** A brand-new node opened at the end of the locations is in no other set. */
  lemma NewEntryKeepsPartition<T>(s: State<T>, r: State<T>, o: OpenEntry)
    requires Partitioned(s) && DistinctNodes(s.open) && o.node == |s.labels|
    requires forall i :: 0 <= i < |s.open| ==> s.open[i].node < |s.labels|
    requires |r.labels| == |s.labels| + 1 && r.open == s.open + [o] && r.tree == s.tree
    ensures Partitioned(r) && DistinctNodes(r.open)
  {
    OpenIdsAppend(s.open, o);
  }

  /** Re-attaching a cheaper tree node keeps the shape of the state. */
  lemma ReparentShape<T(!new)>(w: World<T>, origin: T, U: set<T>, s: State<T>, y: T)
    requires Shape(w, origin, U, s) && y in w.neighborsOf(s.labels[s.current]) && y in s.labels
    requires GetNodeForLocation(s.labels, y).value in s.tree.nodes
    ensures Shape(w, origin, U, UpdateOrOpenNeighbour(w, s, y))
  {
    var n := GetNodeForLocation(s.labels, y).value;
    var r := UpdateOrOpenNeighbour(w, s, y);
    if s.g[n] > CostThrough(w, s) {
      assert EdgeOk(w, s.labels, Edge(n, s.current, 0));
    }
  }

  /** Re-attaching a cheaper open node keeps the shape of the state. */
  lemma ReopenShape<T(!new)>(w: World<T>, origin: T, U: set<T>, s: State<T>, y: T)
    requires Shape(w, origin, U, s) && y in w.neighborsOf(s.labels[s.current]) && y in s.labels
    requires GetNodeForLocation(s.labels, y).value !in s.tree.nodes
    ensures Shape(w, origin, U, UpdateOrOpenNeighbour(w, s, y))
    ensures |UpdateOrOpenNeighbour(w, s, y).open| == |s.open|
  {
    var n := GetNodeForLocation(s.labels, y).value;
    var r := UpdateOrOpenNeighbour(w, s, y);
    assert n in OpenIds(s.open);
    if s.g[n] > CostThrough(w, s) {
      assert EdgeOk(w, s.labels, Edge(s.current, n, 0));
      ReopenKeepsOpenOk(w, s.labels, s.open, n, Edge(s.current, n, 0));
    }
  }

  /** Giving an open node a new well-placed edge keeps the entries well placed and distinct. */
  lemma ReopenKeepsOpenOk<T>(w: World<T>, labels: seq<T>, open: seq<OpenEntry>, n: nat, edge: Edge<nat>)
    requires OpenOk(w, labels, open) && DistinctNodes(open)
    requires n < |labels| && edge.outNode == n && EdgeOk(w, labels, edge)
    ensures OpenOk(w, labels, SetOpenEdge(open, n, edge)) && DistinctNodes(SetOpenEdge(open, n, edge))
  {
    var r := SetOpenEdge(open, n, edge);
    SetOpenEdgeKeepsDistinct(open, n, edge);
    forall i | 0 <= i < |r|
      ensures r[i].node < |labels| && r[i].edge.outNode == r[i].node && EdgeOk(w, labels, r[i].edge)
    {
      if r[i].node != n {
        assert r[i] == open[i];
      }
    }
  }

  /** One neighbour update keeps the shape of the state, and adds an open
      entry only along with a new location. */
  lemma UpdateShape<T(!new)>(w: World<T>, origin: T, U: set<T>, s: State<T>, y: T)
    requires Shape(w, origin, U, s) && y in w.neighborsOf(s.labels[s.current])
    ensures Shape(w, origin, U, UpdateOrOpenNeighbour(w, s, y))
    ensures y in s.labels ==> |UpdateOrOpenNeighbour(w, s, y).open| == |s.open|
  {
    if y !in s.labels {
      OpenNewShape(w, origin, U, s, y);
    } else if GetNodeForLocation(s.labels, y).value in s.tree.nodes {
      ReparentShape(w, origin, U, s, y);
    } else {
      ReopenShape(w, origin, U, s, y);
    }
  }

  /** One neighbour update only ever adds the neighbour's location, at the end. */
  lemma UpdateLabels<T>(w: World<T>, s: State<T>, y: T)
    requires Sized(s)
    ensures s.labels <= UpdateOrOpenNeighbour(w, s, y).labels
    ensures LabelSet(UpdateOrOpenNeighbour(w, s, y)) == LabelSet(s) + {y}
    ensures y in UpdateOrOpenNeighbour(w, s, y).labels
    ensures forall x :: x in s.labels ==> x in UpdateOrOpenNeighbour(w, s, y).labels
  {
    var r := UpdateOrOpenNeighbour(w, s, y);
    forall x | x in s.labels
      ensures x in r.labels
    {
      var j :| 0 <= j < |s.labels| && s.labels[j] == x;
      assert r.labels[j] == x;
    }
    if y !in s.labels {
      assert r.labels == s.labels + [y];
      assert r.labels[|s.labels|] == y;
      forall x | x in r.labels
        ensures x in s.labels || x == y
      {
        var j :| 0 <= j < |r.labels| && r.labels[j] == x;
        if j < |s.labels| {
          assert s.labels[j] == x;
        }
      }
    }
  }

  /** One neighbour update keeps the invariant of the expansion. */
  lemma UpdateKeepsPending<T(!new)>(w: World<T>, origin: T, dest: T, U: set<T>, s: State<T>, y: T)
    requires Pending(w, origin, dest, U, s) && y in w.neighborsOf(s.labels[s.current])
    ensures Pending(w, origin, dest, U, UpdateOrOpenNeighbour(w, s, y))
  {
    var r := UpdateOrOpenNeighbour(w, s, y);
    UpdateShape(w, origin, U, s, y);
    UpdateLabels(w, s, y);
    forall c | c in r.tree.nodes
      ensures r.labels[c] != dest && (c != r.current ==> Expanded(w, r, c))
    {
      assert c in s.tree.nodes;
      assert r.labels[c] == s.labels[c];
      if c != r.current {
        ExpandedGrows(w, s, r, c);
      }
    }
  }

  /** The first `i` neighbours of the current node of `s` have been
      updated or opened, giving `s'`: what changed besides the invariant. */
  ghost predicate Progress<T>(w: World<T>, s: State<T>, s': State<T>, i: nat)
  {
    && s.current < |s.labels|
    && s'.current == s.current && s'.tree.nodes == s.tree.nodes && s.labels <= s'.labels
    && i <= |w.neighborsOf(s.labels[s.current])|
    && (forall j :: 0 <= j < i ==> w.neighborsOf(s.labels[s.current])[j] in s'.labels)
    && LabelSet(s) <= LabelSet(s') && (LabelSet(s') == LabelSet(s) ==> |s'.open| == |s.open|)
  }

  ghost predicate Expanding<T(!new)>(w: World<T>, origin: T, dest: T, U: set<T>, s: State<T>, s': State<T>, i: nat)
  {
    Pending(w, origin, dest, U, s') && Progress(w, s, s', i)
  }

  lemma ProgressStep<T>(w: World<T>, s: State<T>, s': State<T>, i: nat)
    requires Progress(w, s, s', i) && Sized(s') && i < |w.neighborsOf(s.labels[s.current])|
    requires var y := w.neighborsOf(s.labels[s.current])[i];
      y in s'.labels ==> |UpdateOrOpenNeighbour(w, s', y).open| == |s'.open|
    ensures Progress(w, s, UpdateOrOpenNeighbour(w, s', w.neighborsOf(s.labels[s.current])[i]), i + 1)
  {
    var ns := w.neighborsOf(s.labels[s.current]);
    var r := UpdateOrOpenNeighbour(w, s', ns[i]);
    UpdateLabels(w, s', ns[i]);
    assert LabelSet(r) == LabelSet(s) ==> ns[i] in s'.labels;
    assert forall j :: 0 <= j < i + 1 ==> ns[j] in r.labels;
    assert s.labels <= r.labels by {
      assert forall k :: 0 <= k < |s.labels| ==> r.labels[k] == s'.labels[k] == s.labels[k];
    }
  }

  lemma ExpandingStep<T(!new)>(w: World<T>, origin: T, dest: T, U: set<T>, s: State<T>, s': State<T>, i: nat)
    requires Expanding(w, origin, dest, U, s, s', i) && i < |w.neighborsOf(s.labels[s.current])|
    ensures Expanding(w, origin, dest, U, s, UpdateOrOpenNeighbour(w, s', w.neighborsOf(s.labels[s.current])[i]), i + 1)
  {
    var ns := w.neighborsOf(s.labels[s.current]);
    assert s'.labels[s'.current] == s.labels[s.current];
    UpdateKeepsPending(w, origin, dest, U, s', ns[i]);
    UpdateShape(w, origin, U, s', ns[i]);
    ProgressStep(w, s, s', i);
  }

  lemma ExpandingDone<T(!new)>(w: World<T>, origin: T, dest: T, U: set<T>, s: State<T>, s': State<T>)
    requires s.current < |s.labels|
    requires Expanding(w, origin, dest, U, s, s', |w.neighborsOf(s.labels[s.current])|)
    ensures Searching(w, origin, dest, U, s')
  {
    assert s'.labels[s'.current] == s.labels[s.current];
    assert Expanded(w, s', s'.current);
  }

  // ---------------------------------------------------------------------------
  // With a consistent estimate the reversed edge never appears.

  /** The estimate to `dest` never drops by more than the cost of moving out
      of a location into one of its neighbours. */
  ghost predicate Consistent<T(!new)>(w: World<T>, dest: T)
  {
    forall x, y :: y in w.neighborsOf(x) ==> w.distanceEstimation(x, dest) <= w.movementCost(x) + w.distanceEstimation(y, dest)
  }

  /** No tree node has a larger `f` than the current node, and no open node a smaller one. */
  ghost predicate Ordered<T>(w: World<T>, dest: T, s: State<T>)
  {
    && Sized(s)
    && (forall c :: c in s.tree.nodes ==> c < |s.labels| && F(w, dest, s, c) <= F(w, dest, s, s.current))
    && (forall i :: 0 <= i < |s.open| ==> s.open[i].node < |s.labels| && F(w, dest, s, s.current) <= F(w, dest, s, s.open[i].node))
  }

  /** `rank` numbers the tree nodes in the order they were committed; every
      tree edge runs from an earlier node to a later one, every tree node but
      node 0 has a parent edge, and every open edge leaves a tree node. */
  ghost predicate Ranked<T>(s: State<T>, rank: map<nat, nat>)
  {
    && RankedTree(s.tree, rank)
    && (forall i :: 0 <= i < |s.open| ==> s.open[i].edge.inNode in s.tree.nodes)
  }

  ghost predicate RankedTree(t: Tree<nat>, rank: map<nat, nat>)
  {
    && rank.Keys == t.nodes
    && (forall k :: k in rank ==> rank[k] < |t.nodes|)
    && EdgesRanked(t.edges, rank)
    && HasParents(t)
  }

  ghost predicate EdgesRanked(edges: seq<Edge<nat>>, rank: map<nat, nat>)
  {
    forall e :: e in edges ==> e.inNode in rank && e.outNode in rank && rank[e.inNode] < rank[e.outNode]
  }

  ghost predicate HasParents(t: Tree<nat>)
  {
    forall k {:trigger GetParentNode(t, k)} :: k in t.nodes && k != 0 ==> GetParentNode(t, k).Some?
  }

  ghost predicate Settled<T>(w: World<T>, dest: T, s: State<T>, rank: map<nat, nat>)
  {
    Ordered(w, dest, s) && Ranked(s, rank)
  }

  /** The state `Set` leaves is settled, node 0 ranking first. */
  lemma SetSettles<T(!new)>(w: World<T>, origin: T, dest: T, s: State<T>)
    requires Consistent(w, dest)
    requires s.labels == [origin] + w.neighborsOf(origin)
    requires s.g == [0] + seq(|w.neighborsOf(origin)|, _ => w.movementCost(origin))
    requires |s.open| == |w.neighborsOf(origin)|
    requires forall i :: 0 <= i < |s.open| ==> s.open[i] == OpenEntry(i + 1, Edge(0, i + 1, 0))
    requires s.tree == Tree({0}, []) && s.current == 0
    ensures Settled(w, dest, s, map[0 := 0])
  {
    var ns := w.neighborsOf(origin);
    forall i | 0 <= i < |s.open|
      ensures F(w, dest, s, 0) <= F(w, dest, s, s.open[i].node)
    {
      assert s.labels[i + 1] == ns[i] && s.g[i + 1] == w.movementCost(origin);
    }
  }

  /** In a settled state a tree node next to the current node is never
      reached more cheaply through it: its `f` is no larger than the current
      node's, and the estimate drops by at most the cost of the step. */
  lemma TreeNeverCheaper<T(!new)>(w: World<T>, dest: T, s: State<T>, n: nat)
    requires Ordered(w, dest, s) && Consistent(w, dest)
    requires n in s.tree.nodes && s.labels[n] in w.neighborsOf(s.labels[s.current])
    ensures s.g[n] <= CostThrough(w, s)
  {
    assert F(w, dest, s, n) <= F(w, dest, s, s.current);
  }

  /** Opening a location met for the first time keeps a state settled. */
  lemma OpenNewSettles<T(!new)>(w: World<T>, dest: T, s: State<T>, y: T, rank: map<nat, nat>)
    requires Consistent(w, dest) && Settled(w, dest, s, rank) && s.current in s.tree.nodes
    requires y in w.neighborsOf(s.labels[s.current]) && y !in s.labels
    ensures Settled(w, dest, UpdateOrOpenNeighbour(w, s, y), rank)
  {
    var c, n, cost := s.current, |s.labels|, CostThrough(w, s);
    var o := OpenEntry(n, Edge(c, n, 0));
    var r := s.(labels := s.labels + [y], g := s.g + [cost], open := s.open + [o]);
    assert r == UpdateOrOpenNeighbour(w, s, y);
    assert forall i :: 0 <= i < n ==> F(w, dest, r, i) == F(w, dest, s, i);
    assert F(w, dest, r, n) == cost + w.distanceEstimation(y, dest);
    forall i | 0 <= i < |r.open|
      ensures r.open[i].node < |r.labels| && F(w, dest, r, c) <= F(w, dest, r, r.open[i].node)
      ensures r.open[i].edge.inNode in r.tree.nodes
    {
      if i < |s.open| {
        assert r.open[i] == s.open[i];
      }
    }
  }

  /** Re-attaching an open node reached more cheaply keeps a state settled. */
  lemma ReopenSettles<T(!new)>(w: World<T>, dest: T, s: State<T>, y: T, n: nat, rank: map<nat, nat>)
    requires Consistent(w, dest) && Settled(w, dest, s, rank) && s.current in s.tree.nodes && DistinctNodes(s.open)
    requires y in w.neighborsOf(s.labels[s.current]) && n < |s.labels| && s.labels[n] == y
    requires n !in s.tree.nodes && s.g[n] > CostThrough(w, s)
    ensures Settled(w, dest, s.(open := SetOpenEdge(s.open, n, Edge(s.current, n, 0)), g := s.g[n := CostThrough(w, s)]), rank)
  {
    var c, cost := s.current, CostThrough(w, s);
    var r := s.(open := SetOpenEdge(s.open, n, Edge(c, n, 0)), g := s.g[n := cost]);
    assert forall i :: 0 <= i < |s.labels| && i != n ==> F(w, dest, r, i) == F(w, dest, s, i);
    assert F(w, dest, r, n) == cost + w.distanceEstimation(y, dest);
    SetOpenEdgeKeepsDistinct(s.open, n, Edge(c, n, 0));
    forall i | 0 <= i < |r.open|
      ensures r.open[i].node < |r.labels| && F(w, dest, r, c) <= F(w, dest, r, r.open[i].node)
      ensures r.open[i].edge.inNode in r.tree.nodes
    {
      if r.open[i].node != n {
        assert r.open[i] == s.open[i];
      }
    }
  }

  /** Meeting a neighbour of the current node in a settled state never finds
      a tree node reached more cheaply, so the tree is left alone and the
      state stays settled. */
  lemma UpdateSettles<T(!new)>(w: World<T>, origin: T, dest: T, U: set<T>, s: State<T>, y: T, rank: map<nat, nat>)
    requires Shape(w, origin, U, s) && Consistent(w, dest) && Settled(w, dest, s, rank)
    requires y in w.neighborsOf(s.labels[s.current])
    ensures UpdateOrOpenNeighbour(w, s, y).tree == s.tree
    ensures Settled(w, dest, UpdateOrOpenNeighbour(w, s, y), rank)
  {
    if y !in s.labels {
      OpenNewSettles(w, dest, s, y, rank);
    } else {
      var n := GetNodeForLocation(s.labels, y).value;
      if n in s.tree.nodes {
        TreeNeverCheaper(w, dest, s, n);
      }
      if s.g[n] > CostThrough(w, s) {
        ReopenSettles(w, dest, s, y, n, rank);
      }
    }
  }

  /** Adding an edge keeps every parent edge, and gives its `outNode` one. */
  lemma AddEdgeKeepsParents(t: Tree<nat>, e: Edge<nat>, x: nat)
    requires x == e.outNode || GetParentNode(t, x).Some?
    ensures GetParentNode(Tree(t.nodes + {e.outNode}, t.edges + [e]), x).Some?
  {
    var t' := Tree(t.nodes + {e.outNode}, t.edges + [e]);
    if x == e.outNode {
      assert e in t'.edges;
    } else {
      var f :| f in t.edges && f.inNode == GetParentNode(t, x).value && f.outNode == x;
      assert f in t'.edges;
    }
  }

  /** The entries left after a commit come from the entries before it. */
  lemma CommitKeepsEntries<T>(s: State<T>, k: nat, i: nat)
    requires k < |s.open| && i < |Commit(s, k).open|
    ensures exists j :: 0 <= j < |s.open| && s.open[j] == Commit(s, k).open[i]
  {
    var r := Commit(s, k);
    assert r.open[i] in multiset(s.open);
    var j :| 0 <= j < |s.open| && s.open[j] == r.open[i];
  }

  /** Adding an edge from a tree node into a new node, ranked last, keeps a tree ranked. */
  lemma AddEdgeRanked(t: Tree<nat>, e: Edge<nat>, rank: map<nat, nat>)
    requires RankedTree(t, rank) && e.inNode in t.nodes && e.outNode !in t.nodes
    ensures RankedTree(Tree(t.nodes + {e.outNode}, t.edges + [e]), rank[e.outNode := |t.nodes|])
  {
    var t', rank' := Tree(t.nodes + {e.outNode}, t.edges + [e]), rank[e.outNode := |t.nodes|];
    assert |t'.nodes| == |t.nodes| + 1;
    assert rank'.Keys == t'.nodes;
    assert forall k :: k in rank' ==> rank'[k] < |t'.nodes|;
    AddEdgeEdgesRanked(t, e, rank);
    AddEdgeHasParents(t, e);
  }

  lemma AddEdgeHasParents(t: Tree<nat>, e: Edge<nat>)
    requires HasParents(t)
    ensures HasParents(Tree(t.nodes + {e.outNode}, t.edges + [e]))
  {
    var t' := Tree(t.nodes + {e.outNode}, t.edges + [e]);
    forall x | x in t'.nodes && x != 0
      ensures GetParentNode(t', x).Some?
    {
      AddEdgeKeepsParents(t, e, x);
    }
  }

  lemma AddEdgeEdgesRanked(t: Tree<nat>, e: Edge<nat>, rank: map<nat, nat>)
    requires RankedTree(t, rank) && e.inNode in t.nodes && e.outNode !in t.nodes
    ensures EdgesRanked(t.edges + [e], rank[e.outNode := |t.nodes|])
  {
    var rank' := rank[e.outNode := |t.nodes|];
    forall f | f in t.edges + [e]
      ensures f.inNode in rank' && f.outNode in rank' && rank'[f.inNode] < rank'[f.outNode]
    {
      if f != e {
        assert f in t.edges;
      }
    }
  }

  /** Committing an open entry ranks its node after every tree node and keeps
      the tree's edges ranked. */
  lemma CommitRanked<T>(s: State<T>, k: nat, rank: map<nat, nat>)
    requires Ranked(s, rank) && k < |s.open| && s.open[k].edge.outNode == s.open[k].node
    requires s.open[k].node !in s.tree.nodes
    ensures Ranked(Commit(s, k), rank[s.open[k].node := |s.tree.nodes|])
  {
    var r, o := Commit(s, k), s.open[k];
    assert r.tree == Tree(s.tree.nodes + {o.edge.outNode}, s.tree.edges + [o.edge]);
    AddEdgeRanked(s.tree, o.edge, rank);
    forall i | 0 <= i < |r.open|
      ensures r.open[i].edge.inNode in r.tree.nodes
    {
      CommitKeepsEntries(s, k, i);
    }
  }

  /** Committing the open entry of least `f` makes the tree's `f` values no
      larger than the new current node's and the open ones no smaller. */
  lemma CommitOrdered<T>(w: World<T>, dest: T, s: State<T>, k: nat)
    requires Ordered(w, dest, s) && k < |s.open|
    requires forall i :: 0 <= i < |s.open| ==> F(w, dest, s, s.open[k].node) <= F(w, dest, s, s.open[i].node)
    ensures Ordered(w, dest, Commit(s, k))
  {
    var r := Commit(s, k);
    forall i | 0 <= i < |r.open|
      ensures r.open[i].node < |r.labels| && F(w, dest, r, r.current) <= F(w, dest, r, r.open[i].node)
    {
      CommitKeepsEntries(s, k, i);
    }
  }

  /** Committing the open entry of least `f` from a settled state gives a
      settled state, the committed node ranking last. */
  lemma CommitSettles<T(!new)>(w: World<T>, origin: T, dest: T, U: set<T>, s: State<T>, k: nat, rank: map<nat, nat>)
    requires Shape(w, origin, U, s) && Settled(w, dest, s, rank) && k < |s.open|
    requires forall i :: 0 <= i < |s.open| ==> F(w, dest, s, s.open[k].node) <= F(w, dest, s, s.open[i].node)
    ensures Settled(w, dest, Commit(s, k), rank[s.open[k].node := |s.tree.nodes|])
  {
    assert s.open[k].node in OpenIds(s.open);
    CommitRanked(s, k, rank);
    CommitOrdered(w, dest, s, k);
  }

  /** A set of numbers below `n` has at most `n` members. */
  lemma {:induction false} BelowCard(s: set<nat>, n: nat)
    requires forall x :: x in s ==> x < n
    ensures |s| <= n
    decreases n
  {
    if n > 0 {
      BelowCard(s - {n - 1}, n - 1);
    }
  }

  /** Appending an element not yet present keeps a sequence free of repeats. */
  lemma AppendNew<T>(s: seq<T>, y: T)
    requires PathTrees.NoRepeats(s) && y !in s
    ensures PathTrees.NoRepeats(s + [y])
  {
    forall i, j | 0 <= i < j < |s + [y]|
      ensures (s + [y])[i] != (s + [y])[j]
    {
      assert (s + [y])[i] == s[i];
    }
  }

  /** Meeting a neighbour keeps the locations free of repeats. */
  lemma UpdateKeepsLabelsDistinct<T>(w: World<T>, s: State<T>, y: T)
    requires Sized(s) && PathTrees.NoRepeats(s.labels)
    ensures PathTrees.NoRepeats(UpdateOrOpenNeighbour(w, s, y).labels)
  {
    if y !in s.labels {
      AppendNew(s.labels, y);
    }
  }

  /** Lines 139-140 of `Calculate`: update or open every neighbour of the
      current node, in the world's order.  Afterwards every neighbour of every
      tree node is a known location; the tree's nodes stay the same; a new
      open entry comes only with a new location. */
  method Expand<T(!new)>(w: World<T>, ghost origin: T, ghost dest: T, s: State<T>, ghost U: set<T>, ghost rank: map<nat, nat>)
    returns (s': State<T>)
    requires Pending(w, origin, dest, U, s)
    ensures Searching(w, origin, dest, U, s')
    ensures Consistent(w, dest) && Settled(w, dest, s, rank) ==> Settled(w, dest, s', rank)
    ensures PathTrees.NoRepeats(s.labels) ==> PathTrees.NoRepeats(s'.labels)
    ensures s'.current == s.current && s'.tree.nodes == s.tree.nodes
    ensures LabelSet(s) <= LabelSet(s') && (LabelSet(s') == LabelSet(s) ==> |s'.open| == |s.open|)
  {
    var ns := w.neighborsOf(s.labels[s.current]);
    s' := s;
    var i := 0;
    while i < |ns|
      invariant i <= |ns|
      invariant Expanding(w, origin, dest, U, s, s', i)
      invariant Consistent(w, dest) && Settled(w, dest, s, rank) ==> Settled(w, dest, s', rank)
      invariant PathTrees.NoRepeats(s.labels) ==> PathTrees.NoRepeats(s'.labels)
    {
      assert s'.labels[s'.current] == s.labels[s.current];
      if Consistent(w, dest) && Settled(w, dest, s, rank) {
        UpdateSettles(w, origin, dest, U, s', ns[i], rank);
      }
      if PathTrees.NoRepeats(s.labels) {
        UpdateKeepsLabelsDistinct(w, s', ns[i]);
      }
      ExpandingStep(w, origin, dest, U, s, s', i);
      s' := UpdateOrOpenNeighbour(w, s', ns[i]);
      i := i + 1;
    }
    ExpandingDone(w, origin, dest, U, s, s');
  }

  /** Lines 147-155 of `Calculate`: from node `cur`, add its location and step
      to its parent node until a node at the origin is reached, then add the
      origin and reverse; the reversal is folded in by building the path from
      its end.  A missing parent is `NullParent`; `fuel` bounds the steps. */
  function WalkBack<T(==)>(w: World<T>, labels: seq<T>, tree: Tree<nat>, origin: T, cur: nat, fuel: nat): (r: Outcome<T>)
    requires cur < |labels| && TreeOk(w, labels, tree)
    ensures !r.NotFound?
    ensures r.Found? ==> |r.path| >= 2 && r.path[0] == origin && r.path[|r.path| - 1] == labels[cur]
    ensures r.Found? ==> forall i :: 0 <= i < |r.path| - 1 ==> Adjacent(w, r.path[i], r.path[i + 1])
    ensures r.Found? ==> forall x :: x in r.path ==> x in labels
    decreases fuel
  {
    if fuel == 0 then Diverges
    else match GetParentNode(tree, cur)
      case None => NullParent
      case Some(p) =>
        assert p < |labels| && Adjacent(w, labels[p], labels[cur]) by {
          var e :| e in tree.edges && e.inNode == p && e.outNode == cur;
          assert EdgeOk(w, labels, e);
        }
        if labels[p] == origin then Found([origin, labels[cur]])
        else
          var up := WalkBack(w, labels, tree, origin, p, fuel - 1);
          if up.Found? then Found(up.path + [labels[cur]]) else up
  }

  /** On a ranked tree the parent of a tree node other than node 0 is a
      known tree node of lower rank. */
  lemma ParentRanksLower<T>(w: World<T>, labels: seq<T>, tree: Tree<nat>, rank: map<nat, nat>, cur: nat) returns (p: nat)
    requires TreeOk(w, labels, tree) && RankedTree(tree, rank) && cur in tree.nodes && cur != 0
    ensures GetParentNode(tree, cur) == Some(p)
    ensures p < |labels| && p in tree.nodes && rank[p] < rank[cur]
  {
    p := GetParentNode(tree, cur).value;
    var e :| e in tree.edges && e.inNode == p && e.outNode == cur;
    assert EdgeOk(w, labels, e);
  }

  /** One step of the walk back through the parent `p` of `cur`. */
  lemma WalkBackStep<T>(w: World<T>, labels: seq<T>, tree: Tree<nat>, origin: T, cur: nat, fuel: nat, p: nat)
    requires cur < |labels| && TreeOk(w, labels, tree) && fuel > 0
    requires GetParentNode(tree, cur) == Some(p) && p < |labels|
    ensures labels[p] == origin ==> WalkBack(w, labels, tree, origin, cur, fuel) == Found([origin, labels[cur]])
    ensures labels[p] != origin && WalkBack(w, labels, tree, origin, p, fuel - 1).Found? ==>
      WalkBack(w, labels, tree, origin, cur, fuel) == Found(WalkBack(w, labels, tree, origin, p, fuel - 1).path + [labels[cur]])
  {
  }

  /** A path of distinct labels of nodes ranked before `cur`, extended by
      `cur`'s label, stays distinct and still avoids the labels of nodes
      ranked after `cur`. */
  lemma ExtendWalk<T>(labels: seq<T>, tree: Tree<nat>, rank: map<nat, nat>, path: seq<T>, cur: nat, p: nat)
    requires rank.Keys == tree.nodes && cur in tree.nodes && p in tree.nodes && rank[p] < rank[cur]
    requires cur < |labels| && forall k :: k in tree.nodes ==> k < |labels|
    requires PathTrees.NoRepeats(labels) && PathTrees.NoRepeats(path)
    requires forall k :: k in tree.nodes && rank[k] > rank[p] ==> labels[k] !in path
    ensures PathTrees.NoRepeats(path + [labels[cur]])
    ensures forall k :: k in tree.nodes && rank[k] > rank[cur] ==> labels[k] !in path + [labels[cur]]
  {
    AppendNew(path, labels[cur]);
  }

  /** On a ranked tree the walk back from a tree node away from the origin
      finds a path, as long as the fuel exceeds the node's rank: each parent
      edge leads to a node committed earlier, and every tree node but node 0,
      which is at the origin, has a parent edge.  With no location met twice
      the path repeats no location, and holds no location of a node ranked
      after the start of the walk. */
  lemma {:induction false} WalkBackFinds<T>(w: World<T>, labels: seq<T>, tree: Tree<nat>, origin: T, rank: map<nat, nat>, cur: nat, fuel: nat)
    requires cur < |labels| && TreeOk(w, labels, tree) && RankedTree(tree, rank)
    requires forall k :: k in tree.nodes ==> k < |labels|
    requires labels[0] == origin && cur in tree.nodes && labels[cur] != origin && rank[cur] < fuel
    ensures WalkBack(w, labels, tree, origin, cur, fuel).Found?
    ensures PathTrees.NoRepeats(labels) ==> PathTrees.NoRepeats(WalkBack(w, labels, tree, origin, cur, fuel).path)
    ensures PathTrees.NoRepeats(labels) ==>
      forall k :: k in tree.nodes && rank[k] > rank[cur] ==> labels[k] !in WalkBack(w, labels, tree, origin, cur, fuel).path
    decreases fuel
  {
    var p := ParentRanksLower(w, labels, tree, rank, cur);
    WalkBackStep(w, labels, tree, origin, cur, fuel, p);
    if labels[p] != origin {
      WalkBackFinds(w, labels, tree, origin, rank, p, fuel - 1);
      if PathTrees.NoRepeats(labels) {
        ExtendWalk(labels, tree, rank, WalkBack(w, labels, tree, origin, p, fuel - 1).path, cur, p);
      }
    } else if PathTrees.NoRepeats(labels) {
      assert p != cur;
      ExtendWalk(labels, tree, rank, [origin], cur, p);
    }
  }

  /** With nothing open, every location met has been expanded, so the
      locations met are closed under neighbours and hold everything
      reachable; the destination is not among them. */
  lemma DrainedUnreachable<T(!new)>(w: World<T>, origin: T, dest: T, U: set<T>, s: State<T>)
    requires Searching(w, origin, dest, U, s) && |s.open| == 0
    ensures !Reachable(w, origin, dest)
  {
    var met := LabelSet(s);
    forall x, y | x in met && y in w.neighborsOf(x)
      ensures y in met
    {
      var i :| 0 <= i < |s.labels| && s.labels[i] == x;
      assert i in s.tree.nodes || i in OpenIds(s.open);
      assert Expanded(w, s, i);
    }
    assert s.labels[0] in met;
    forall x | x in met
      ensures x != dest
    {
      var i :| 0 <= i < |s.labels| && s.labels[i] == x;
      assert i in s.tree.nodes || i in OpenIds(s.open);
    }
    if Reachable(w, origin, dest) {
      ClosedHoldsReachable(w, met, origin, dest);
    }
  }

  /** The locations met lie in the universe. */
  lemma LabelsInside<T(!new)>(w: World<T>, origin: T, U: set<T>, s: State<T>)
    requires Shape(w, origin, U, s)
    ensures LabelSet(s) <= U
  {
    forall x | x in LabelSet(s)
      ensures x in U
    {
      var j :| 0 <= j < |s.labels| && s.labels[j] == x;
    }
  }

  /** One round of the search either meets a location of the universe not
      met before or closes an open entry without opening another. */
  lemma RoundShrinks<T>(U: set<T>, s: State<T>, c: State<T>, s': State<T>)
    requires LabelSet(s') <= U && LabelSet(c) == LabelSet(s) && |c.open| + 1 == |s.open|
    requires LabelSet(c) <= LabelSet(s') && (LabelSet(s') == LabelSet(c) ==> |s'.open| == |c.open|)
    ensures U - LabelSet(s') < U - LabelSet(s) || (U - LabelSet(s') == U - LabelSet(s) && |s'.open| < |s.open|)
  {
    if LabelSet(s') != LabelSet(s) {
      var x :| x in LabelSet(s') && x !in LabelSet(s);
      assert x in U - LabelSet(s) && x !in U - LabelSet(s');
    }
  }

  /** Lines 124-141 of `Calculate`, one turn of its loop: commit the open
      entry of least `f`; unless it is at the destination, expand it.  The
      turn meets a new location of the universe or closes an open entry
      without opening another, and keeps the state settled under a
      consistent estimate, the committed node ranking last. */
  method Round<T(!new)>(w: World<T>, ghost origin: T, dest: T, s: State<T>, ghost U: set<T>, ghost rank: map<nat, nat>)
    returns (s': State<T>, ghost rank': map<nat, nat>, found: bool)
    requires Searching(w, origin, dest, U, s) && |s.open| != 0
    ensures Sized(s') && (found <==> s'.labels[s'.current] == dest)
    ensures found ==> Shape(w, origin, U, s') && origin != dest
    ensures !found ==> Searching(w, origin, dest, U, s')
    ensures !found ==> U - LabelSet(s') < U - LabelSet(s) || (U - LabelSet(s') == U - LabelSet(s) && |s'.open| < |s.open|)
    ensures Consistent(w, dest) && Settled(w, dest, s, rank) ==> Settled(w, dest, s', rank')
    ensures PathTrees.NoRepeats(s.labels) ==> PathTrees.NoRepeats(s'.labels)
  {
    var k := Select(w, dest, s);
    var c := Commit(s, k);
    CommitShape(w, origin, U, s, k);
    if Consistent(w, dest) && Settled(w, dest, s, rank) {
      CommitSettles(w, origin, dest, U, s, k, rank);
    }
    rank' := rank[s.open[k].node := |s.tree.nodes|];
    if c.labels[c.current] == dest {
      return c, rank', true;
    }
    CommitPending(w, origin, dest, U, s, k);
    s' := Expand(w, origin, dest, c, U, rank');
    LabelsInside(w, origin, U, s');
    RoundShrinks(U, s, c, s');
    found := false;
  }

  /** Lines 122-142 of `Calculate`: run turns while something is open and
      the current node is not at the destination. */
  method Loop<T(!new)>(w: World<T>, ghost origin: T, dest: T, s0: State<T>, ghost U: set<T>, ghost rank0: map<nat, nat>)
    returns (s: State<T>, ghost rank: map<nat, nat>)
    requires Searching(w, origin, dest, U, s0)
    ensures Shape(w, origin, U, s) && origin != dest
    ensures s.labels[s.current] != dest ==> Searching(w, origin, dest, U, s) && |s.open| == 0
    ensures Consistent(w, dest) && Settled(w, dest, s0, rank0) ==> Settled(w, dest, s, rank)
    ensures PathTrees.NoRepeats(s0.labels) ==> PathTrees.NoRepeats(s.labels)
  {
    s, rank := s0, rank0;
    while |s.open| != 0 && s.labels[s.current] != dest
      invariant Searching(w, origin, dest, U, s)
      invariant Consistent(w, dest) && Settled(w, dest, s0, rank0) ==> Settled(w, dest, s, rank)
      invariant PathTrees.NoRepeats(s0.labels) ==> PathTrees.NoRepeats(s.labels)
      decreases U - LabelSet(s), |s.open|
    {
      var s', found;
      s', rank, found := Round(w, origin, dest, s, U, rank);
      if found {
        s := s';
        return;
      }
      s := s';
    }
  }

  /** What the final walk back of `Calculate` yields once the destination is
      committed: a path inside the universe, always found under a consistent
      estimate, and without repeats when the locations met are distinct. */
  lemma WalkBackAtEnd<T(!new)>(w: World<T>, origin: T, dest: T, U: set<T>, s: State<T>, rank: map<nat, nat>)
    requires Shape(w, origin, U, s) && s.labels[s.current] == dest && origin != dest
    requires Consistent(w, dest) ==> Settled(w, dest, s, rank)
    ensures WalkBack(w, s.labels, s.tree, origin, s.current, |s.labels|).Found? ==>
      forall x :: x in WalkBack(w, s.labels, s.tree, origin, s.current, |s.labels|).path ==> x in U
    ensures Consistent(w, dest) ==> WalkBack(w, s.labels, s.tree, origin, s.current, |s.labels|).Found?
    ensures Consistent(w, dest) && PathTrees.NoRepeats(s.labels) ==>
      PathTrees.NoRepeats(WalkBack(w, s.labels, s.tree, origin, s.current, |s.labels|).path)
  {
    LabelsInside(w, origin, U, s);
    if Consistent(w, dest) {
      BelowCard(s.tree.nodes, |s.labels|);
      WalkBackFinds(w, s.labels, s.tree, origin, rank, s.current, |s.labels|);
    }
  }

  /** `Calculate()`: `Found` holds a path from the origin to the destination
      along which consecutive locations are adjacent; the result is null
      exactly when the destination cannot be reached.  When the walk back
      finds a node without a parent or loops, the source fails; those are
      the other outcomes.  Under a consistent estimate neither happens: a
      reachable destination is found, and the path repeats no location. */
  method Calculate<T(!new)>(w: World<T>, origin: T, dest: T, ghost U: set<T>) returns (r: Outcome<T>)
    requires origin in U && ClosedUnder(w, U)
    ensures origin == dest ==> r == Found([origin])
    ensures r.NotFound? <==> !Reachable(w, origin, dest)
    ensures r.Found? ==> |r.path| > 0 && r.path[0] == origin && r.path[|r.path| - 1] == dest
    ensures r.Found? ==> forall i :: 0 <= i < |r.path| - 1 ==> Adjacent(w, r.path[i], r.path[i + 1])
    ensures r.Found? ==> forall x :: x in r.path ==> x in U
    ensures Consistent(w, dest) ==> (r.Found? <==> Reachable(w, origin, dest))
    ensures Consistent(w, dest) && PathTrees.NoRepeats([origin] + w.neighborsOf(origin)) && r.Found? ==>
      PathTrees.NoRepeats(r.path)
  {
    var s := Set(w, origin);
    if dest == origin {
      ReachesItself(w, origin);
      return Found([origin]);
    }
    SetEstablishes(w, origin, dest, U, s);
    ghost var rank: map<nat, nat> := map[0 := 0];
    if Consistent(w, dest) {
      SetSettles(w, origin, dest, s);
    }
    s, rank := Loop(w, origin, dest, s, U, rank);
    if s.labels[s.current] != dest {
      DrainedUnreachable(w, origin, dest, U, s);
      return NotFound;
    }
    r := WalkBack(w, s.labels, s.tree, origin, s.current, |s.labels|);
    WalkBackAtEnd(w, origin, dest, U, s, rank);
  }
}
