/** The heap-driven search engine: Algorithm.cs (`PathToPoint`,
    `PathsFromPoint`, with a cutoff) and Assets/Scripts/Algorithm.cs
    (`Calculate`, without one).  Both share `SetUp`, `UpdateOrOpenNeighbor` and
    `MainLoop`; the later generation is the earlier one with the cutoff
    switched off, so both are modelled by one engine taking a cutoff, where a
    negative cutoff never prunes.

    Two details of the source are kept as written.  The heap is given
    `compare(a, b) = priority(b) - priority(a)`, so the heap's least element
    is the open node with the LARGEST priority.  And the cost-table entry of a
    node never changes once written: `Step` is a value type, so the
    `nodes[n].Update(...)` of a cheaper route updates a copy. */
module Search {
  import opened Wrappers
  import opened MinHeap
  import opened PathTrees
  import opened Worlds

  /** A cost-table entry: where a node was first reached from, and at what cost. */
  datatype Step<T> = Step(parent: Option<T>, cost: int)

  /** What the heap is ordered by: the heuristic towards a destination
      (`PathToPoint`, `Calculate`) or the recorded cost (`PathsFromPoint`). */
  datatype Order<T> = ByHeuristic(destination: T) | ByCost

  /** The engine's fields: the cost table, the open heap, the tree of committed
      nodes and the node being expanded. */
  datatype Engine<T> = Engine(nodes: map<T, Step<T>>, heap: Heap<T>, tree: PathTree<T>, current: T)

  /** `Heuristic(n)`: recorded cost plus the estimate towards the destination. */
  function Heuristic<T>(w: World<T>, nodes: map<T, Step<T>>, destination: T, n: T): int
    requires n in nodes
  {
    nodes[n].cost + w.distanceEstimation(n, destination)
  }

  /** The quantity the comparator subtracts; nodes outside the table never reach the heap. */
  function Priority<T>(w: World<T>, order: Order<T>, nodes: map<T, Step<T>>, n: T): int
  {
    if n !in nodes then 0
    else match order
      case ByHeuristic(d) => Heuristic(w, nodes, d, n)
      case ByCost => nodes[n].cost
  }

  /** The comparator handed to the heap, `(a, b) => priority(b) - priority(a)`, as a key. */
  function HeapKey<T(!new)>(w: World<T>, order: Order<T>, nodes: map<T, Step<T>>): (key: T -> int)
    ensures forall a, b :: Compare(key, a, b) == Priority(w, order, nodes, b) - Priority(w, order, nodes, a)
  {
    n => -Priority(w, order, nodes, n)
  }

  /** `tree.Nodes[n] = parent`, the commit of a popped node. */
  function Commit<T>(t: PathTree<T>, n: T, parent: Option<T>): (r: PathTree<T>)
    ensures r.nodes.Keys == t.nodes.Keys + {n} && r.nodes[n] == parent
    ensures forall k :: k in t.nodes && k != n ==> r.nodes[k] == t.nodes[k]
  {
    PathTree(t.nodes[n := parent])
  }

  /** `if (tree.Contains(n)) tree.Nodes[n] = current`: only a committed node is re-parented. */
  function Reparent<T>(t: PathTree<T>, n: T, parent: T): (r: PathTree<T>)
    ensures r.nodes.Keys == t.nodes.Keys
    ensures forall k :: k in t.nodes ==> r.nodes[k] == if k == n then Some(parent) else t.nodes[k]
  {
    if Contains(t, n) then PathTree(t.nodes[n := Some(parent)]) else t
  }

  /** `SetUp(start)`: every earlier field is discarded; only the origin is
      recorded (no parent, cost 0) and committed, and the heap is emptied. */
  function SetUp<T>(prior: Engine<T>, start: T): (e: Engine<T>)
    ensures e.nodes.Keys == {start} && e.nodes[start] == Step(None, 0)
    ensures e.tree.nodes.Keys == {start} && e.tree.nodes[start] == None
    ensures e.heap.IsEmpty() && e.current == start
  {
    Engine(map[start := Step(None, 0)], Clear(prior.heap), PathTrees.New(prior.tree, start), start)
  }

  /** The cost the current node's neighbours are offered. */
  function ExpansionCost<T>(w: World<T>, e: Engine<T>, x: T): int
    requires x in e.nodes
  {
    e.nodes[x].cost + w.movementCost(x)
  }

  /** `cutoff >= 0 && cost > cutoff`: a negative cutoff never prunes. */
  predicate Prunes(cutoff: int, cost: int)
  {
    cutoff >= 0 && cost > cutoff
  }

  // ---------------------------------------------------------------------------
  // The invariant kept between steps.  `U` is a finite universe closed under
  // neighbours and `idx` numbers the committed nodes in commit order; both are
  // proof-only.

  /** Rank of a committed node: recorded cost, then commit number. */
  ghost function Rank<T>(idx: map<T, nat>, e: Engine<T>, k: T): (nat, nat)
  {
    (if k in e.nodes && e.nodes[k].cost >= 0 then e.nodes[k].cost as nat else 0,
     if k in idx then idx[k] else 0)
  }

  ghost predicate Shape<T>(start: T, U: set<T>, idx: map<T, nat>, e: Engine<T>)
  {
    && e.tree.nodes.Keys <= e.nodes.Keys <= U
    && start in e.tree.nodes && e.tree.nodes[start] == None && e.nodes[start] == Step(None, 0)
    && e.current in e.tree.nodes
    && idx.Keys == e.tree.nodes.Keys
    && (forall k :: k in idx ==> idx[k] < |idx|)
    && (forall k :: k in e.nodes ==> e.nodes[k].cost >= 0)
  }

  /** A recorded node was reached from a committed neighbour and costs that neighbour's expansion. */
  ghost predicate OpenLink<T>(w: World<T>, e: Engine<T>, k: T)
    requires k in e.nodes
  {
    && e.nodes[k].parent.Some?
    && var p := e.nodes[k].parent.value;
    && p in e.tree.nodes && p in e.nodes
    && k in w.neighborsOf(p)
    && e.nodes[k].cost == e.nodes[p].cost + w.movementCost(p)
  }

  /** A committed node hangs below a committed neighbour of lower rank. */
  ghost predicate TreeLink<T>(w: World<T>, idx: map<T, nat>, e: Engine<T>, k: T)
    requires k in e.tree.nodes
  {
    && e.tree.nodes[k].Some?
    && var p := e.tree.nodes[k].value;
    && p in e.tree.nodes
    && k in w.neighborsOf(p)
    && Below(Rank(idx, e, p), Rank(idx, e, k))
  }

  ghost predicate Links<T>(w: World<T>, start: T, idx: map<T, nat>, e: Engine<T>)
  {
    && (forall k :: k in e.nodes && k != start ==> OpenLink(w, e, k))
    && (forall k :: k in e.tree.nodes && k != start ==> TreeLink(w, idx, e, k))
  }

  /** The heap holds each recorded but uncommitted node exactly once. */
  ghost predicate HeapHoldsOpen<T(!new)>(w: World<T>, order: Order<T>, e: Engine<T>)
  {
    && multiset(e.heap.items) == multiset(e.nodes.Keys - e.tree.nodes.Keys)
    && Valid(e.heap, HeapKey(w, order, e.nodes))
    && e.heap.chunk > 0
  }

  ghost predicate WithinCutoff<T>(cutoff: int, start: T, e: Engine<T>)
  {
    cutoff >= 0 ==> forall k :: k in e.nodes && k != start ==> e.nodes[k].cost <= cutoff
  }

  ghost predicate Inv<T(!new)>(w: World<T>, order: Order<T>, cutoff: int, start: T, U: set<T>, idx: map<T, nat>, e: Engine<T>)
  {
    && NonNegativeCosts(w) && start in U && ClosedUnder(w, U)
    && Shape(start, U, idx, e)
    && Links(w, start, idx, e)
    && HeapHoldsOpen(w, order, e)
    && WithinCutoff(cutoff, start, e)
  }

  /** A committed node whose expansion the cutoff allowed has all its neighbours recorded. */
  ghost predicate Expanded<T>(w: World<T>, cutoff: int, e: Engine<T>, x: T)
  {
    x in e.nodes && !Prunes(cutoff, ExpansionCost(w, e, x)) ==> forall y :: y in w.neighborsOf(x) ==> y in e.nodes
  }

  ghost predicate AllExpanded<T>(w: World<T>, cutoff: int, e: Engine<T>)
  {
    forall x :: x in e.tree.nodes ==> Expanded(w, cutoff, e, x)
  }

  // ---------------------------------------------------------------------------
  // Facts about the invariant.

  lemma MultisetOfSetAdd<T>(s: set<T>, x: T)
    requires x !in s
    ensures multiset(s + {x}) == multiset(s) + multiset{x}
  {
    assert forall y :: multiset(s + {x})[y] == (multiset(s) + multiset{x})[y];
  }

  lemma MultisetOfSetRemove<T>(s: set<T>, x: T)
    requires x in s
    ensures multiset(s - {x}) == multiset(s) - multiset{x}
  {
    assert forall y :: multiset(s - {x})[y] == (multiset(s) - multiset{x})[y];
  }

  /** The ranks witness that the tree's parent links are closed and acyclic. */
  lemma TreeWellFormed<T(!new)>(w: World<T>, start: T, U: set<T>, idx: map<T, nat>, e: Engine<T>)
    requires Shape(start, U, idx, e) && Links(w, start, idx, e)
    ensures WellFormed(e.tree)
  {
    var rank := map k | k in e.tree.nodes :: Rank(idx, e, k);
    assert Ranked(e.tree, rank);
  }

  /** The origin is the only root of the tree. */
  lemma OnlyRootIsStart<T>(w: World<T>, start: T, U: set<T>, idx: map<T, nat>, e: Engine<T>)
    requires Shape(start, U, idx, e) && Links(w, start, idx, e)
    ensures forall k :: k in e.tree.nodes ==> (e.tree.nodes[k].None? <==> k == start)
  {
  }

  lemma SetUpEstablishes<T(!new)>(w: World<T>, order: Order<T>, cutoff: int, U: set<T>, prior: Engine<T>, start: T)
    requires NonNegativeCosts(w) && start in U && ClosedUnder(w, U)
    ensures Inv(w, order, cutoff, start, U, map[start := 0], SetUp(prior, start))
  {
    var e := SetUp(prior, start);
    assert e.nodes.Keys - e.tree.nodes.Keys == {};
  }

  /** Recording a new neighbour keeps the table inside the universe and every
      committed node's rank. */
  lemma OpenKeepsShape<T>(w: World<T>, start: T, U: set<T>, idx: map<T, nat>, e: Engine<T>, e': Engine<T>, n: T, cost: int)
    requires Shape(start, U, idx, e) && ClosedUnder(w, U) && n in w.neighborsOf(e.current)
    requires n !in e.nodes && cost >= 0
    requires e' == e.(nodes := e.nodes[n := Step(Some(e.current), cost)], heap := e'.heap)
    ensures Shape(start, U, idx, e')
  {
    assert e.current in U;
  }

  /** The new entry hangs from the current node; every other link is untouched. */
  lemma OpenKeepsLinks<T>(w: World<T>, start: T, U: set<T>, idx: map<T, nat>, e: Engine<T>, e': Engine<T>, n: T, cost: int)
    requires Shape(start, U, idx, e) && Links(w, start, idx, e) && n in w.neighborsOf(e.current)
    requires n !in e.nodes && cost == ExpansionCost(w, e, e.current)
    requires e' == e.(nodes := e.nodes[n := Step(Some(e.current), cost)], heap := e'.heap)
    ensures Links(w, start, idx, e')
  {
    assert forall k :: k in e.tree.nodes ==> Rank(idx, e', k) == Rank(idx, e, k);
    assert OpenLink(w, e', n);
  }

  /** Pushing the new entry keeps the heap holding exactly the open nodes. */
  lemma OpenKeepsHeap<T(!new)>(w: World<T>, order: Order<T>, e: Engine<T>, e': Engine<T>, n: T, cost: int)
    requires HeapHoldsOpen(w, order, e) && n !in e.nodes && e.tree.nodes.Keys <= e.nodes.Keys
    requires e'.nodes == e.nodes[n := Step(Some(e.current), cost)] && e'.tree == e.tree
    requires e'.heap.items == e.heap.items + [n] && e'.heap.dirty && WellSized(e'.heap) && e'.heap.chunk >= e.heap.chunk
    ensures HeapHoldsOpen(w, order, e')
  {
    assert e'.nodes.Keys - e'.tree.nodes.Keys == (e.nodes.Keys - e.tree.nodes.Keys) + {n};
    MultisetOfSetAdd(e.nodes.Keys - e.tree.nodes.Keys, n);
  }

  /** Recording and pushing a neighbour seen for the first time. */
  lemma OpenPreserves<T(!new)>(w: World<T>, order: Order<T>, cutoff: int, start: T, U: set<T>, idx: map<T, nat>,
                               e: Engine<T>, n: T, cost: int, h': Heap<T>)
    requires Inv(w, order, cutoff, start, U, idx, e)
    requires n !in e.tree.nodes && n !in e.nodes && n in w.neighborsOf(e.current)
    requires cost == ExpansionCost(w, e, e.current) && !Prunes(cutoff, cost)
    requires h'.items == e.heap.items + [n] && h'.dirty && WellSized(h') && h'.chunk >= e.heap.chunk
    ensures Inv(w, order, cutoff, start, U, idx, e.(nodes := e.nodes[n := Step(Some(e.current), cost)], heap := h'))
  {
    var e' := e.(nodes := e.nodes[n := Step(Some(e.current), cost)], heap := h');
    assert w.movementCost(e.current) >= 0;
    OpenKeepsShape(w, start, U, idx, e, e', n, cost);
    OpenKeepsLinks(w, start, U, idx, e, e', n, cost);
    OpenKeepsHeap(w, order, e, e', n, cost);
  }

  /** Re-parenting a committed neighbour under the current node keeps every
      link: the current node ranks below it, since the new route is cheaper. */
  lemma RelaxKeepsLinks<T(!new)>(w: World<T>, start: T, idx: map<T, nat>, e: Engine<T>, e': Engine<T>, n: T)
    requires NonNegativeCosts(w) && Links(w, start, idx, e) && n != start
    requires e.current in e.tree.nodes && e.current in e.nodes && e.nodes[e.current].cost >= 0
    requires n in e.nodes && n in w.neighborsOf(e.current) && e.nodes[n].cost > ExpansionCost(w, e, e.current)
    requires e'.nodes == e.nodes && e'.current == e.current && e'.tree == Reparent(e.tree, n, e.current)
    ensures Links(w, start, idx, e')
  {
    assert w.movementCost(e.current) >= 0;
    assert forall k :: Rank(idx, e', k) == Rank(idx, e, k);
    forall k | k in e'.nodes && k != start
      ensures OpenLink(w, e', k)
    {
      assert OpenLink(w, e, k);
    }
    forall k | k in e'.tree.nodes && k != start
      ensures TreeLink(w, idx, e', k)
    {
      if k != n {
        assert TreeLink(w, idx, e, k);
      }
    }
  }

  /** Re-sorting the heap in place keeps it holding the open nodes. */
  lemma RelaxKeepsHeap<T(!new)>(w: World<T>, order: Order<T>, e: Engine<T>, e': Engine<T>)
    requires HeapHoldsOpen(w, order, e)
    requires e'.nodes == e.nodes && e'.tree.nodes.Keys == e.tree.nodes.Keys
    requires multiset(e'.heap.items) == multiset(e.heap.items) && |e'.heap.items| == |e.heap.items|
    requires HeapOrdered(HeapKey(w, order, e.nodes), e'.heap.items)
    requires e'.heap.size == e.heap.size && e'.heap.chunk == e.heap.chunk
    ensures HeapHoldsOpen(w, order, e')
  {
  }

  /** A strictly cheaper route: re-parent the neighbour if committed, re-sort the heap. */
  lemma RelaxPreserves<T(!new)>(w: World<T>, order: Order<T>, cutoff: int, start: T, U: set<T>, idx: map<T, nat>,
                                e: Engine<T>, n: T, cost: int, h': Heap<T>)
    requires Inv(w, order, cutoff, start, U, idx, e)
    requires n in e.nodes && n in w.neighborsOf(e.current)
    requires cost == ExpansionCost(w, e, e.current) && e.nodes[n].cost > cost
    requires multiset(h'.items) == multiset(e.heap.items) && |h'.items| == |e.heap.items|
    requires HeapOrdered(HeapKey(w, order, e.nodes), h'.items)
    requires h'.size == e.heap.size && h'.chunk == e.heap.chunk
    ensures Inv(w, order, cutoff, start, U, idx, e.(tree := Reparent(e.tree, n, e.current), heap := h'))
  {
    var e' := e.(tree := Reparent(e.tree, n, e.current), heap := h');
    assert w.movementCost(e.current) >= 0;
    assert n != start;
    RelaxKeepsLinks(w, start, idx, e, e', n);
    RelaxKeepsHeap(w, order, e, e');
  }

  /** Committing a recorded node gives it the next commit number. */
  lemma CommitKeepsShape<T>(start: T, U: set<T>, idx: map<T, nat>, e: Engine<T>, e': Engine<T>, x: T)
    requires Shape(start, U, idx, e) && x in e.nodes && x !in e.tree.nodes
    requires e'.nodes == e.nodes && e'.tree == Commit(e.tree, x, e.nodes[x].parent) && e'.current == x
    ensures Shape(start, U, idx[x := |idx|], e')
  {
    assert x !in idx;
    assert |idx[x := |idx|]| == |idx| + 1;
  }

  /** The committed node hangs below its recorded parent, which was committed
      earlier at no higher cost. */
  lemma CommitKeepsLinks<T(!new)>(w: World<T>, start: T, U: set<T>, idx: map<T, nat>, e: Engine<T>, e': Engine<T>, x: T)
    requires NonNegativeCosts(w) && Shape(start, U, idx, e) && Links(w, start, idx, e)
    requires x in e.nodes && x !in e.tree.nodes
    requires e'.nodes == e.nodes && e'.tree == Commit(e.tree, x, e.nodes[x].parent) && e'.current == x
    ensures Links(w, start, idx[x := |idx|], e')
  {
    var idx' := idx[x := |idx|];
    forall k | k in e'.nodes && k != start
      ensures OpenLink(w, e', k)
    {
      assert OpenLink(w, e, k);
    }
    forall k | k in e'.tree.nodes && k != start
      ensures TreeLink(w, idx', e', k)
    {
      if k == x {
        CommittedHangsBelowParent(w, start, U, idx, e, e', x);
      } else {
        assert TreeLink(w, idx, e, k);
        assert Rank(idx', e', k) == Rank(idx, e, k);
        assert Rank(idx', e', e.tree.nodes[k].value) == Rank(idx, e, e.tree.nodes[k].value);
      }
    }
  }

  lemma CommittedHangsBelowParent<T(!new)>(w: World<T>, start: T, U: set<T>, idx: map<T, nat>, e: Engine<T>, e': Engine<T>, x: T)
    requires NonNegativeCosts(w) && Shape(start, U, idx, e) && Links(w, start, idx, e)
    requires x in e.nodes && x !in e.tree.nodes
    requires e'.nodes == e.nodes && e'.tree == Commit(e.tree, x, e.nodes[x].parent) && e'.current == x
    ensures TreeLink(w, idx[x := |idx|], e', x)
  {
    assert x != start;
    assert OpenLink(w, e, x);
    var p := e.nodes[x].parent.value;
    assert w.movementCost(p) >= 0;
    assert x !in idx;
  }

  /** The heap loses exactly the committed node. */
  lemma CommitKeepsHeap<T(!new)>(w: World<T>, order: Order<T>, e: Engine<T>, e': Engine<T>, x: T)
    requires HeapHoldsOpen(w, order, e) && x in e.nodes && x !in e.tree.nodes
    requires e'.nodes == e.nodes && e'.tree == Commit(e.tree, x, e.nodes[x].parent)
    requires multiset(e'.heap.items) + multiset{x} == multiset(e.heap.items)
    requires Valid(e'.heap, HeapKey(w, order, e.nodes)) && e'.heap.chunk == e.heap.chunk
    ensures HeapHoldsOpen(w, order, e')
  {
    assert e'.nodes.Keys - e'.tree.nodes.Keys == (e.nodes.Keys - e.tree.nodes.Keys) - {x};
    MultisetOfSetRemove(e.nodes.Keys - e.tree.nodes.Keys, x);
  }

  /** Popping an open node and committing it with its recorded parent. */
  lemma CommitPreserves<T(!new)>(w: World<T>, order: Order<T>, cutoff: int, start: T, U: set<T>, idx: map<T, nat>,
                                 e: Engine<T>, x: T, h': Heap<T>)
    requires Inv(w, order, cutoff, start, U, idx, e) && AllExpanded(w, cutoff, e)
    requires x in e.nodes && x !in e.tree.nodes
    requires multiset(h'.items) + multiset{x} == multiset(e.heap.items)
    requires Valid(h', HeapKey(w, order, e.nodes)) && h'.chunk == e.heap.chunk
    ensures var e' := Engine(e.nodes, h', Commit(e.tree, x, e.nodes[x].parent), x);
      && Inv(w, order, cutoff, start, U, idx[x := |idx|], e')
      && forall y :: y in e'.tree.nodes && y != x ==> Expanded(w, cutoff, e', y)
  {
    var e' := Engine(e.nodes, h', Commit(e.tree, x, e.nodes[x].parent), x);
    CommitKeepsShape(start, U, idx, e, e', x);
    CommitKeepsLinks(w, start, U, idx, e, e', x);
    CommitKeepsHeap(w, order, e, e', x);
  }

  /** A drained heap leaves nothing recorded but uncommitted. */
  lemma DrainedMeansAllCommitted<T(!new)>(w: World<T>, order: Order<T>, e: Engine<T>)
    requires HeapHoldsOpen(w, order, e) && e.heap.IsEmpty() && e.tree.nodes.Keys <= e.nodes.Keys
    ensures e.tree.nodes.Keys == e.nodes.Keys
  {
    forall y
      ensures y !in e.nodes.Keys - e.tree.nodes.Keys
    {
      assert multiset(e.nodes.Keys - e.tree.nodes.Keys)[y] == multiset(e.heap.items)[y] == 0;
    }
  }

  /** Without a cutoff, a drained search has committed a set closed under neighbours. */
  lemma DrainedTreeIsClosed<T(!new)>(w: World<T>, order: Order<T>, cutoff: int, start: T, U: set<T>,
                                     idx: map<T, nat>, e: Engine<T>)
    requires Inv(w, order, cutoff, start, U, idx, e) && AllExpanded(w, cutoff, e)
    requires e.heap.IsEmpty() && cutoff < 0
    ensures ClosedUnder(w, e.tree.nodes.Keys)
  {
    DrainedMeansAllCommitted(w, order, e);
    forall x, y | x in e.tree.nodes.Keys && y in w.neighborsOf(x)
      ensures y in e.tree.nodes.Keys
    {
      assert Expanded(w, cutoff, e, x);
    }
  }

  /** Every walk down the tree starts at the origin and follows the world's neighbour relation. */
  lemma TreePathIsWalk<T>(w: World<T>, start: T, U: set<T>, idx: map<T, nat>, e: Engine<T>, p: seq<T>, d: T)
    requires Shape(start, U, idx, e) && Links(w, start, idx, e) && IsRootPath(e.tree, p, d)
    ensures p[0] == start && IsWalk(w, p)
  {
    forall i | 0 <= i < |p| - 1
      ensures p[i + 1] in w.neighborsOf(p[i])
    {
      assert e.tree.nodes[p[i + 1]] == Some(p[i]);
      assert p[i + 1] != start;
      assert TreeLink(w, idx, e, p[i + 1]);
    }
  }

  // ---------------------------------------------------------------------------
  // The engine's steps.

  /** Recorded entries only ever gain keys, never change. */
  ghost predicate TableGrows<T>(e: Engine<T>, e': Engine<T>)
  {
    e.nodes.Keys <= e'.nodes.Keys && forall k :: k in e.nodes ==> e'.nodes[k] == e.nodes[k]
  }

  /** A node committed before `e` that is expanded stays expanded as the table grows. */
  lemma ExpandedGrows<T>(w: World<T>, cutoff: int, e: Engine<T>, e': Engine<T>, x: T)
    requires TableGrows(e, e') && x in e.nodes && Expanded(w, cutoff, e, x)
    ensures Expanded(w, cutoff, e', x)
  {
    assert ExpansionCost(w, e', x) == ExpansionCost(w, e, x);
    assert forall y :: y in e.nodes ==> y in e'.nodes;
  }

  /** What expanding the current node may change between `e` and `e'`, offering
      `cost`: new entries are neighbours recorded from the current node, and a
      changed tree entry is a neighbour whose recorded cost exceeds `cost`, now
      hanging below the current node. */
  ghost predicate ExpansionStep<T>(w: World<T>, e: Engine<T>, e': Engine<T>, cost: int)
  {
    && e'.current == e.current && e'.tree.nodes.Keys == e.tree.nodes.Keys
    && TableGrows(e, e')
    && (forall k :: k in e'.nodes && k !in e.nodes ==>
          k in w.neighborsOf(e.current) && e'.nodes[k] == Step(Some(e.current), cost))
    && (forall k :: k in e.tree.nodes && k in e.nodes && e'.tree.nodes[k] != e.tree.nodes[k] ==>
          && k in w.neighborsOf(e.current) && e'.tree.nodes[k] == Some(e.current)
          && e.nodes[k].cost > cost)
  }

  lemma ExpansionStepChains<T>(w: World<T>, a: Engine<T>, b: Engine<T>, c: Engine<T>, cost: int)
    requires a.tree.nodes.Keys <= a.nodes.Keys
    requires ExpansionStep(w, a, b, cost) && ExpansionStep(w, b, c, cost)
    ensures ExpansionStep(w, a, c, cost)
  {
    forall k | k in a.tree.nodes && k in a.nodes && c.tree.nodes[k] != a.tree.nodes[k]
      ensures k in w.neighborsOf(a.current) && c.tree.nodes[k] == Some(a.current) && a.nodes[k].cost > cost
    {
      assert b.nodes[k] == a.nodes[k];
    }
  }

  /** One turn of the neighbour loop of `UpdateOrOpenNeighbor`: neighbour `n` is offered `cost`. */
  method Offer<T(!new)>(w: World<T>, order: Order<T>, cutoff: int, e: Engine<T>, n: T, cost: int,
                        ghost start: T, ghost U: set<T>, ghost idx: map<T, nat>)
    returns (e': Engine<T>)
    requires Inv(w, order, cutoff, start, U, idx, e) && n in w.neighborsOf(e.current)
    requires cost == ExpansionCost(w, e, e.current) && !Prunes(cutoff, cost)
    ensures Inv(w, order, cutoff, start, U, idx, e') && n in e'.nodes
    ensures ExpansionStep(w, e, e', cost)
    ensures n !in e.nodes ==> e'.nodes[n] == Step(Some(e.current), cost)
    ensures n in e.nodes ==> e'.nodes == e.nodes
    ensures n in e.nodes && e.nodes[n].cost <= cost ==> e' == e
    ensures forall k :: k in e.tree.nodes && k != n ==> e'.tree.nodes[k] == e.tree.nodes[k]
    ensures n in e.tree.nodes && n in e.nodes && e.nodes[n].cost > cost ==> e'.tree.nodes[n] == Some(e.current)
  {
    e' := e;
    if !Contains(e.tree, n) && n !in e.nodes {
      var h := Push(e.heap, n);
      OpenPreserves(w, order, cutoff, start, U, idx, e, n, cost, h);
      OpenIsStep(w, e, n, cost, h);
      e' := e.(nodes := e.nodes[n := Step(Some(e.current), cost)], heap := h);
    } else if e.nodes[n].cost > cost {
      var h := Sort(HeapKey(w, order, e.nodes), e.heap);
      RelaxPreserves(w, order, cutoff, start, U, idx, e, n, cost, h);
      RelaxIsStep(w, e, n, cost, h);
      e' := e.(tree := Reparent(e.tree, n, e.current), heap := h);
    } else {
      assert ExpansionStep(w, e, e, cost);
    }
  }

  /** Recording a new neighbour is an expansion step. */
  lemma OpenIsStep<T>(w: World<T>, e: Engine<T>, n: T, cost: int, h': Heap<T>)
    requires n !in e.nodes && n in w.neighborsOf(e.current)
    ensures ExpansionStep(w, e, e.(nodes := e.nodes[n := Step(Some(e.current), cost)], heap := h'), cost)
  {
  }

  /** Re-parenting a neighbour recorded at a higher cost is an expansion step. */
  lemma RelaxIsStep<T>(w: World<T>, e: Engine<T>, n: T, cost: int, h': Heap<T>)
    requires n in e.nodes && n in w.neighborsOf(e.current) && e.nodes[n].cost > cost
    ensures ExpansionStep(w, e, e.(tree := Reparent(e.tree, n, e.current), heap := h'), cost)
  {
  }

  /** A committed node offered a strictly cheaper cost than its recorded one
      now hangs below the current node. */
  ghost predicate Relaxed<T>(e: Engine<T>, e': Engine<T>, k: T, cost: int)
    requires e'.tree.nodes.Keys == e.tree.nodes.Keys
  {
    k in e.tree.nodes && k in e.nodes && e.nodes[k].cost > cost ==> e'.tree.nodes[k] == Some(e.current)
  }

  /** The neighbour loop after offering the first `i` neighbours `ns` of `e.current`:
      each is recorded, and each committed one offered a cheaper cost is re-parented. */
  ghost predicate Offering<T(!new)>(w: World<T>, order: Order<T>, cutoff: int, start: T, U: set<T>, idx: map<T, nat>,
                                    e: Engine<T>, e': Engine<T>, ns: seq<T>, i: nat, cost: int)
  {
    && Inv(w, order, cutoff, start, U, idx, e')
    && ExpansionStep(w, e, e', cost)
    && (forall j :: 0 <= j < i && j < |ns| ==> ns[j] in e'.nodes)
    && (forall j :: 0 <= j < i && j < |ns| ==> Relaxed(e, e', ns[j], cost))
  }

  lemma OfferingStep<T(!new)>(w: World<T>, order: Order<T>, cutoff: int, start: T, U: set<T>, idx: map<T, nat>,
                              e: Engine<T>, before: Engine<T>, e': Engine<T>, ns: seq<T>, i: nat, cost: int)
    requires e.tree.nodes.Keys <= e.nodes.Keys && i < |ns|
    requires Offering(w, order, cutoff, start, U, idx, e, before, ns, i, cost)
    requires Inv(w, order, cutoff, start, U, idx, e') && ns[i] in e'.nodes && ExpansionStep(w, before, e', cost)
    requires forall k :: k in before.tree.nodes && k != ns[i] ==> e'.tree.nodes[k] == before.tree.nodes[k]
    requires Relaxed(before, e', ns[i], cost)
    ensures Offering(w, order, cutoff, start, U, idx, e, e', ns, i + 1, cost)
  {
    ExpansionStepChains(w, e, before, e', cost);
    assert before.nodes.Keys <= e'.nodes.Keys;
    forall j | 0 <= j < i + 1 && j < |ns|
      ensures Relaxed(e, e', ns[j], cost)
    {
      if ns[j] in e.nodes {
        assert before.nodes[ns[j]] == e.nodes[ns[j]];
      }
      if j < i && ns[j] != ns[i] {
        assert Relaxed(e, before, ns[j], cost);
      }
    }
  }

  lemma OfferingStarts<T(!new)>(w: World<T>, order: Order<T>, cutoff: int, start: T, U: set<T>, idx: map<T, nat>,
                                e: Engine<T>, ns: seq<T>, cost: int)
    requires Inv(w, order, cutoff, start, U, idx, e)
    ensures Offering(w, order, cutoff, start, U, idx, e, e, ns, 0, cost)
  {
  }

  /** The neighbour loop from position `i` on: offers `ns[i..]` in order. */
  method OfferFrom<T(!new)>(w: World<T>, order: Order<T>, cutoff: int, e0: Engine<T>, e: Engine<T>, ns: seq<T>, i: nat,
                            cost: int, ghost start: T, ghost U: set<T>, ghost idx: map<T, nat>)
    returns (e': Engine<T>)
    requires e0.tree.nodes.Keys <= e0.nodes.Keys && i <= |ns|
    requires forall j :: 0 <= j < |ns| ==> ns[j] in w.neighborsOf(e0.current)
    requires e0.current in e0.nodes && cost == ExpansionCost(w, e0, e0.current) && !Prunes(cutoff, cost)
    requires Offering(w, order, cutoff, start, U, idx, e0, e, ns, i, cost)
    ensures Offering(w, order, cutoff, start, U, idx, e0, e', ns, |ns|, cost)
    decreases |ns| - i
  {
    if i == |ns| {
      return e;
    }
    var next := Offer(w, order, cutoff, e, ns[i], cost, start, U, idx);
    OfferingStep(w, order, cutoff, start, U, idx, e0, e, next, ns, i, cost);
    e' := OfferFrom(w, order, cutoff, e0, next, ns, i + 1, cost, start, U, idx);
  }

  /** Once every neighbour of the current node is recorded, every committed node is expanded. */
  lemma ExpansionCompletes<T>(w: World<T>, cutoff: int, e: Engine<T>, e': Engine<T>)
    requires forall x :: x in e.tree.nodes && x != e.current ==> Expanded(w, cutoff, e, x)
    requires TableGrows(e, e') && e'.tree.nodes.Keys == e.tree.nodes.Keys && e.tree.nodes.Keys <= e.nodes.Keys && e.current in e.nodes
    requires !Prunes(cutoff, ExpansionCost(w, e, e.current)) ==> forall y :: y in w.neighborsOf(e.current) ==> y in e'.nodes
    ensures AllExpanded(w, cutoff, e')
  {
    forall x | x in e'.tree.nodes
      ensures Expanded(w, cutoff, e', x)
    {
      if x != e.current {
        ExpandedGrows(w, cutoff, e, e', x);
      } else {
        assert ExpansionCost(w, e', x) == ExpansionCost(w, e, x);
      }
    }
  }

  /** `UpdateOrOpenNeighbor`: offer every neighbour of the current node the
      current node's cost plus its movement cost, unless that exceeds a
      non-negative cutoff.  A neighbour neither committed nor recorded is
      recorded from the current node and pushed; one already seen at a strictly
      higher recorded cost is re-parented if committed, and the heap re-sorted;
      recorded entries themselves never change. */
  method UpdateOrOpenNeighbor<T(!new)>(w: World<T>, order: Order<T>, cutoff: int, e: Engine<T>,
                                       ghost start: T, ghost U: set<T>, ghost idx: map<T, nat>)
    returns (e': Engine<T>)
    requires Inv(w, order, cutoff, start, U, idx, e)
    requires forall x :: x in e.tree.nodes && x != e.current ==> Expanded(w, cutoff, e, x)
    ensures Inv(w, order, cutoff, start, U, idx, e') && AllExpanded(w, cutoff, e')
    ensures ExpansionStep(w, e, e', ExpansionCost(w, e, e.current))
    ensures Prunes(cutoff, ExpansionCost(w, e, e.current)) ==> e' == e
    ensures !Prunes(cutoff, ExpansionCost(w, e, e.current)) ==> forall y :: y in w.neighborsOf(e.current) ==> y in e'.nodes
    ensures !Prunes(cutoff, ExpansionCost(w, e, e.current)) ==>
      forall y :: y in w.neighborsOf(e.current) ==> Relaxed(e, e', y, ExpansionCost(w, e, e.current))
  {
    var cost := e.nodes[e.current].cost + w.movementCost(e.current);
    if cutoff >= 0 && cost > cutoff {
      return e;
    }
    var ns := w.neighborsOf(e.current);
    OfferingStarts(w, order, cutoff, start, U, idx, e, ns, cost);
    e' := OfferFrom(w, order, cutoff, e, e, ns, 0, cost, start, U, idx);
    ExpansionCompletes(w, cutoff, e, e');
  }

  /** `MainLoop`: pop the open node the heap ranks first, which is one of
      largest priority, commit it with its recorded parent, and expand it. */
  method MainLoop<T(!new)>(w: World<T>, order: Order<T>, cutoff: int, e: Engine<T>,
                           ghost start: T, ghost U: set<T>, ghost idx: map<T, nat>)
    returns (e': Engine<T>, ghost idx': map<T, nat>)
    requires Inv(w, order, cutoff, start, U, idx, e) && AllExpanded(w, cutoff, e) && !e.heap.IsEmpty()
    ensures Inv(w, order, cutoff, start, U, idx', e') && AllExpanded(w, cutoff, e')
    ensures e'.current in e.nodes && e'.current !in e.tree.nodes
    ensures forall x :: x in e.nodes && x !in e.tree.nodes ==>
      Priority(w, order, e.nodes, x) <= Priority(w, order, e.nodes, e'.current)
    ensures e'.tree.nodes.Keys == e.tree.nodes.Keys + {e'.current}
    ensures e'.tree.nodes[e'.current] == e.nodes[e'.current].parent
    ensures TableGrows(e, e')
  {
    ghost var key := HeapKey(w, order, e.nodes);
    var top, h := Pop(HeapKey(w, order, e.nodes), e.heap);
    var x := top.value;
    assert x in multiset(e.nodes.Keys - e.tree.nodes.Keys);
    forall y | y in e.nodes && y !in e.tree.nodes
      ensures Priority(w, order, e.nodes, y) <= Priority(w, order, e.nodes, x)
    {
      assert y in multiset(e.nodes.Keys - e.tree.nodes.Keys);
      assert y in e.heap.items;
      assert key(x) <= key(y);
    }
    var committed := Engine(e.nodes, h, Commit(e.tree, x, e.nodes[x].parent), x);
    CommitPreserves(w, order, cutoff, start, U, idx, e, x, h);
    idx' := idx[x := |idx|];
    e' := UpdateOrOpenNeighbor(w, order, cutoff, committed, start, U, idx');
  }

  /** `SetUp`, the first expansion, then `MainLoop` until the heap is empty or,
      when a destination is given, the destination is committed. */
  method Explore<T(!new)>(w: World<T>, order: Order<T>, cutoff: int, prior: Engine<T>, start: T,
                          destination: Option<T>, ghost U: set<T>)
    returns (e: Engine<T>, ghost idx: map<T, nat>)
    requires NonNegativeCosts(w) && start in U && ClosedUnder(w, U)
    ensures Inv(w, order, cutoff, start, U, idx, e) && AllExpanded(w, cutoff, e)
    ensures e.heap.IsEmpty() || (destination.Some? && destination.value in e.tree.nodes)
    ensures Prunes(cutoff, w.movementCost(start)) ==> e.tree.nodes == map[start := None]
  {
    e := SetUp(prior, start);
    idx := map[start := 0];
    SetUpEstablishes(w, order, cutoff, U, prior, start);
    e := UpdateOrOpenNeighbor(w, order, cutoff, e, start, U, idx);
    e, idx := Drain(w, order, cutoff, e, destination, start, U, idx);
  }

  /** The loop of `Explore`: `MainLoop` while the heap is not empty and the
      destination, when given, is not committed.  Each turn commits a node of
      the finite universe `U`, so the loop ends. */
  method Drain<T(!new)>(w: World<T>, order: Order<T>, cutoff: int, e: Engine<T>, destination: Option<T>,
                        ghost start: T, ghost U: set<T>, ghost idx: map<T, nat>)
    returns (e': Engine<T>, ghost idx': map<T, nat>)
    requires Inv(w, order, cutoff, start, U, idx, e) && AllExpanded(w, cutoff, e)
    ensures Inv(w, order, cutoff, start, U, idx', e') && AllExpanded(w, cutoff, e')
    ensures e'.heap.IsEmpty() || (destination.Some? && destination.value in e'.tree.nodes)
    ensures e.heap.IsEmpty() ==> e' == e
    decreases U - e.tree.nodes.Keys
  {
    if e.heap.IsEmpty() || (destination.Some? && Contains(e.tree, destination.value)) {
      return e, idx;
    }
    var next;
    ghost var nextIdx;
    next, nextIdx := MainLoop(w, order, cutoff, e, start, U, idx);
    assert next.current in U - e.tree.nodes.Keys;
    e', idx' := Drain(w, order, cutoff, next, destination, start, U, nextIdx);
  }

  // ---------------------------------------------------------------------------
  // The public entry points.

  /** `PathToPoint(start, end, cookie, cutoff)` of Algorithm.cs: the heap is
      ordered by heuristic towards `end`; the result is `tree.PathTo(end)`.  It
      is null exactly when `end` was never committed; otherwise a walk through
      the world from `start` to `end` without repeats.  With no cutoff a path
      exists exactly when `end` is reachable. */
  method PathToPoint<T(!new)>(w: World<T>, prior: Engine<T>, start: T, end: T, cutoff: int, ghost U: set<T>)
    returns (path: Option<seq<T>>, e: Engine<T>)
    requires NonNegativeCosts(w) && start in U && ClosedUnder(w, U)
    ensures WellFormed(e.tree) && path == PathTo(e.tree, end)
    ensures path.None? <==> end !in e.tree.nodes
    ensures path.None? ==> e.heap.IsEmpty()
    ensures path.Some? ==> && path.value[0] == start && path.value[|path.value| - 1] == end
                           && IsWalk(w, path.value) && NoRepeats(path.value)
    ensures start == end ==> path == Some([start])
    ensures cutoff < 0 ==> (path.Some? <==> Reachable(w, start, end))
    ensures Prunes(cutoff, w.movementCost(start)) ==> e.tree.nodes == map[start := None]
  {
    ghost var idx;
    e, idx := Explore(w, ByHeuristic(end), cutoff, prior, start, Some(end), U);
    TreePathFacts(w, start, U, idx, e, end);
    path := PathTo(e.tree, end);
    if cutoff < 0 {
      FoundIffReachable(w, ByHeuristic(end), cutoff, start, U, idx, e, end);
    }
  }

  /** What `PathTo(end)` returns on the tree of a search from `start`. */
  lemma TreePathFacts<T(!new)>(w: World<T>, start: T, U: set<T>, idx: map<T, nat>, e: Engine<T>, end: T)
    requires Shape(start, U, idx, e) && Links(w, start, idx, e)
    ensures WellFormed(e.tree)
    ensures PathTo(e.tree, end).None? <==> end !in e.tree.nodes
    ensures PathTo(e.tree, end).Some? ==>
      && var p := PathTo(e.tree, end).value;
      && p[0] == start && p[|p| - 1] == end && IsWalk(w, p) && NoRepeats(p)
    ensures start == end ==> PathTo(e.tree, end) == Some([start])
  {
    TreeWellFormed(w, start, U, idx, e);
    var path := PathTo(e.tree, end);
    if path.Some? {
      TreePathIsWalk(w, start, U, idx, e, path.value, end);
    }
    if start == end {
      RootPathUnique(e.tree, path.value, [start], start);
    }
  }

  /** Without a cutoff, a search that stopped (heap drained or destination
      committed) has committed the destination exactly when it is reachable. */
  lemma FoundIffReachable<T(!new)>(w: World<T>, order: Order<T>, cutoff: int, start: T, U: set<T>,
                                   idx: map<T, nat>, e: Engine<T>, end: T)
    requires Inv(w, order, cutoff, start, U, idx, e) && AllExpanded(w, cutoff, e) && cutoff < 0
    requires e.heap.IsEmpty() || end in e.tree.nodes
    ensures end in e.tree.nodes <==> Reachable(w, start, end)
  {
    if end in e.tree.nodes {
      TreeWellFormed(w, start, U, idx, e);
      var p := PathTo(e.tree, end).value;
      TreePathIsWalk(w, start, U, idx, e, p, end);
      assert |p| > 0 && p[0] == start && p[|p| - 1] == end && IsWalk(w, p);
    } else if Reachable(w, start, end) {
      DrainedTreeIsClosed(w, order, cutoff, start, U, idx, e);
      ClosedHoldsReachable(w, e.tree.nodes.Keys, start, end);
    }
  }

  /** `Calculate(start, end, cookie)` of Assets/Scripts/Algorithm.cs: the same
      search with no cutoff at all. */
  method Calculate<T(!new)>(w: World<T>, prior: Engine<T>, start: T, end: T, ghost U: set<T>)
    returns (path: Option<seq<T>>, e: Engine<T>)
    requires NonNegativeCosts(w) && start in U && ClosedUnder(w, U)
    ensures WellFormed(e.tree) && path == PathTo(e.tree, end)
    ensures path.Some? <==> Reachable(w, start, end)
    ensures path.Some? ==> && path.value[0] == start && path.value[|path.value| - 1] == end
                           && IsWalk(w, path.value) && NoRepeats(path.value)
    ensures start == end ==> path == Some([start])
  {
    path, e := PathToPoint(w, prior, start, end, -1, U);
  }

  /** `PathTo(d)` finds `d` in the tree, on a walk through the world from `start`. */
  ghost predicate HangsFromStart<T(!new)>(w: World<T>, t: PathTree<T>, start: T, d: T)
  {
    && WellFormed(t)
    && var p := PathTo(t, d);
    && p.Some? && p.value[0] == start && IsWalk(w, p.value)
  }

  /** Every committed node is the end of a tree walk from the origin. */
  lemma CommittedHangOnWalks<T(!new)>(w: World<T>, start: T, U: set<T>, idx: map<T, nat>, e: Engine<T>)
    requires Shape(start, U, idx, e) && Links(w, start, idx, e)
    ensures WellFormed(e.tree)
    ensures forall d :: d in e.tree.nodes ==> HangsFromStart(w, e.tree, start, d)
  {
    TreeWellFormed(w, start, U, idx, e);
    forall d | d in e.tree.nodes
      ensures HangsFromStart(w, e.tree, start, d)
    {
      TreePathIsWalk(w, start, U, idx, e, PathTo(e.tree, d).value, d);
    }
  }

  /** Without a cutoff, a drained search has committed everything reachable. */
  lemma DrainedHoldsReachable<T(!new)>(w: World<T>, order: Order<T>, cutoff: int, start: T, U: set<T>,
                                       idx: map<T, nat>, e: Engine<T>)
    requires Inv(w, order, cutoff, start, U, idx, e) && AllExpanded(w, cutoff, e)
    requires e.heap.IsEmpty() && cutoff < 0
    ensures forall b :: Reachable(w, start, b) ==> b in e.tree.nodes
  {
    DrainedTreeIsClosed(w, order, cutoff, start, U, idx, e);
    forall b | Reachable(w, start, b)
      ensures b in e.tree.nodes
    {
      ClosedHoldsReachable(w, e.tree.nodes.Keys, start, b);
    }
  }

  /** What a search that ran dry has established: the heap is empty and every
      recorded node is committed; every committed node is found by `PathTo` on
      a walk from the origin; with no cutoff every node reachable from the
      origin is committed; with a cutoff no committed node besides the origin
      was recorded at a cost above it, and every committed node whose
      expansion the cutoff allowed has all its neighbours committed. */
  ghost predicate DrainedSearch<T(!new)>(w: World<T>, start: T, cutoff: int, U: set<T>, idx: map<T, nat>, e: Engine<T>)
  {
    && WellFormed(e.tree) && Shape(start, U, idx, e) && Links(w, start, idx, e)
    && e.heap.IsEmpty() && e.tree.nodes.Keys == e.nodes.Keys
    && AllExpanded(w, cutoff, e)
    && (forall d :: d in e.tree.nodes ==> HangsFromStart(w, e.tree, start, d))
    && (cutoff < 0 ==> forall b :: Reachable(w, start, b) ==> b in e.tree.nodes)
    && (cutoff >= 0 ==> forall k :: k in e.nodes && k != start ==> e.nodes[k].cost <= cutoff)
  }

  lemma DrainedSearchFacts<T(!new)>(w: World<T>, cutoff: int, start: T, U: set<T>, idx: map<T, nat>, e: Engine<T>)
    requires Inv(w, ByCost, cutoff, start, U, idx, e) && AllExpanded(w, cutoff, e) && e.heap.IsEmpty()
    ensures DrainedSearch(w, start, cutoff, U, idx, e)
  {
    CommittedHangOnWalks(w, start, U, idx, e);
    DrainedMeansAllCommitted(w, ByCost, e);
    if cutoff < 0 {
      DrainedHoldsReachable(w, ByCost, cutoff, start, U, idx, e);
    }
  }

  /** `PathsFromPoint(start, cookie, cutoff)` of Algorithm.cs: the heap is
      ordered by recorded cost and runs dry.  Every committed node hangs on a
      walk from `start`; with no cutoff every node reachable from `start` is
      committed; with a cutoff no committed node was recorded above it. */
  method PathsFromPoint<T(!new)>(w: World<T>, prior: Engine<T>, start: T, cutoff: int, ghost U: set<T>)
    returns (tree: PathTree<T>, e: Engine<T>, ghost idx: map<T, nat>)
    requires NonNegativeCosts(w) && start in U && ClosedUnder(w, U)
    ensures tree == e.tree && DrainedSearch(w, start, cutoff, U, idx, e)
    ensures start in tree.nodes && tree.nodes[start] == None
    ensures Prunes(cutoff, w.movementCost(start)) ==> tree.nodes == map[start := None]
  {
    e, idx := Explore(w, ByCost, cutoff, prior, start, None, U);
    tree := e.tree;
    DrainedSearchFacts(w, cutoff, start, U, idx, e);
  }
}
