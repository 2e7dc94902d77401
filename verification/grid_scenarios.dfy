/** Scenarios from the repository's tests, stated over the models on small
    square grids.  The newer project's map class is not part of this model;
    its tiles carry no cost, and the scenarios give every move a cost of 1,
    which is also what a Unity-project tile built without a cost charges. */
module GridScenarios {
  import opened Wrappers
  import opened Tiles
  import opened Worlds
  import opened GridMaps
  import opened PathTrees
  import Search
  import AStar

  /** The grid's neighbours with every move costing 1. */
  function UnitGrid(m: SquareMap): World<Tile>
  {
    World(GridWorld(m).neighborsOf, _ => 1, DistanceEstimation)
  }

  lemma UnitGridIsClosed(m: SquareMap)
    ensures ClosedUnder(UnitGrid(m), LocationSet(m)) && NonNegativeCosts(UnitGrid(m))
  {
    GridIsClosed(m);
  }

  /** A walk without repeats inside `{a, b}` from `a` to another location `b` is `[a, b]`. */
  lemma ShortestInPair<T>(p: seq<T>, a: T, b: T)
    requires |p| > 0 && p[0] == a && p[|p| - 1] == b && a != b
    requires NoRepeats(p) && forall i :: 0 <= i < |p| ==> p[i] in {a, b}
    ensures p == [a, b]
  {
    NoRepeatsWithin(p, {a, b});
    assert |{a, b}| == 2;
  }

  /** A repeat-free path from `a` to `b` that stays within `U == {a, b}` is
      `[a, b]`. */
  lemma ShortestWithin<T>(p: seq<T>, a: T, b: T, U: set<T>)
    requires |p| > 0 && p[0] == a && p[|p| - 1] == b && a != b && U == {a, b}
    requires NoRepeats(p) && forall x :: x in p ==> x in U
    ensures p == [a, b]
  {
    assert forall i :: 0 <= i < |p| ==> p[i] in p;
    ShortestInPair(p, a, b);
  }

  /** A location whose tile lies one step from the origin's is among the origin's neighbours. */
  lemma StepIsNeighbor(m: SquareMap, t: Tile, n: Tile)
    requires t in m.locations && n in m.locations && Find(m.locations, n.x, n.y) == Some(n)
    requires (n.x, n.y) in Candidates(t)
    ensures n in GridWorld(m).neighborsOf(t)
  {
  }

  /** Editor/Tests/SquaredMapTests.cs, `OriginIsDestination`. */
  method OriginIsDestination(prior: Search.Engine<Tile>) returns (path: Option<seq<Tile>>)
    ensures path == Some([NewTile(0, 0, 0)])
  {
    var origin := NewTile(0, 0, 0);
    var m := SquareMap([origin]);
    UnitGridIsClosed(m);
    var e;
    path, e := Search.PathToPoint(UnitGrid(m), prior, origin, origin, -1, LocationSet(m));
  }

  /** The two tiles of `OneStep`: (0,0) and (0,1). */
  function Pair(): SquareMap
  {
    SquareMap([NewTile(0, 0, 0), NewTile(1, 0, 1)])
  }

  lemma PairFacts()
    ensures ClosedUnder(UnitGrid(Pair()), LocationSet(Pair())) && NonNegativeCosts(UnitGrid(Pair()))
    ensures NewTile(0, 0, 0) in LocationSet(Pair())
    ensures Reachable(UnitGrid(Pair()), NewTile(0, 0, 0), NewTile(1, 0, 1))
  {
    var w, o, d := UnitGrid(Pair()), NewTile(0, 0, 0), NewTile(1, 0, 1);
    UnitGridIsClosed(Pair());
    StepIsNeighbor(Pair(), o, d);
    ReachesItself(w, o);
    ReachableExtends(w, o, o, d);
  }

  lemma PairPath(p: seq<Tile>)
    requires |p| > 0 && p[0] == NewTile(0, 0, 0) && p[|p| - 1] == NewTile(1, 0, 1)
    requires IsWalk(UnitGrid(Pair()), p) && NoRepeats(p)
    ensures p == [NewTile(0, 0, 0), NewTile(1, 0, 1)]
  {
    UnitGridIsClosed(Pair());
    WalkStaysInside(UnitGrid(Pair()), LocationSet(Pair()), p);
    ShortestInPair(p, NewTile(0, 0, 0), NewTile(1, 0, 1));
  }

  /** Editor/Tests/SquaredMapTests.cs, `OneStep`: two adjacent tiles give the two-step path. */
  method OneStep(prior: Search.Engine<Tile>) returns (path: Option<seq<Tile>>)
    ensures path == Some([NewTile(0, 0, 0), NewTile(1, 0, 1)])
  {
    PairFacts();
    var e;
    path, e := Search.PathToPoint(UnitGrid(Pair()), prior, NewTile(0, 0, 0), NewTile(1, 0, 1), -1, LocationSet(Pair()));
    PairPath(path.value);
  }

  /** The three tiles of `NoCutoffFindsAllPaths`: (0,0), (1,0), (0,1). */
  function Corner(): SquareMap
  {
    SquareMap([NewTile(0, 0, 0), NewTile(1, 1, 0), NewTile(2, 0, 1)])
  }

  lemma CornerFacts()
    ensures ClosedUnder(UnitGrid(Corner()), LocationSet(Corner())) && NonNegativeCosts(UnitGrid(Corner()))
    ensures NewTile(0, 0, 0) in LocationSet(Corner())
    ensures forall t :: t in Corner().locations ==> Reachable(UnitGrid(Corner()), NewTile(0, 0, 0), t)
  {
    var w, o, r, u := UnitGrid(Corner()), NewTile(0, 0, 0), NewTile(1, 1, 0), NewTile(2, 0, 1);
    UnitGridIsClosed(Corner());
    StepIsNeighbor(Corner(), o, r);
    StepIsNeighbor(Corner(), o, u);
    ReachesItself(w, o);
    ReachableExtends(w, o, o, r);
    ReachableExtends(w, o, o, u);
  }

  /** Editor/Tests/SquaredMapTests.cs, `NoCutoffFindsAllPaths`: every location is a tree key. */
  method NoCutoffFindsAllPaths(prior: Search.Engine<Tile>) returns (tree: PathTree<Tile>)
    ensures forall t :: t in Corner().locations ==> t in tree.nodes
  {
    CornerFacts();
    var e;
    ghost var idx;
    tree, e, idx := Search.PathsFromPoint(UnitGrid(Corner()), prior, NewTile(0, 0, 0), -1, LocationSet(Corner()));
  }

  /** Editor/Tests/SquaredMapTests.cs, `CutOffZero`: leaving the origin costs 1, above the cutoff. */
  method CutOffZero(prior: Search.Engine<Tile>) returns (tree: PathTree<Tile>)
    ensures tree.nodes == map[NewTile(1, 0, 0) := None]
  {
    var origin := NewTile(1, 0, 0);
    var m := SquareMap([NewTile(0, 1, 0), origin]);
    UnitGridIsClosed(m);
    var e;
    ghost var idx;
    tree, e, idx := Search.PathsFromPoint(UnitGrid(m), prior, origin, 0, LocationSet(m));
  }

  /** The line of `CutOffOnePath`: (0,0), (1,0), (2,0). */
  function Line(): SquareMap
  {
    SquareMap([NewTile(0, 0, 0), NewTile(1, 1, 0), NewTile(2, 2, 0)])
  }

  /** A grid neighbour lies one step away. */
  lemma NeighborIsOneStep(m: SquareMap, t: Tile, n: Tile)
    requires n in GridWorld(m).neighborsOf(t)
    ensures DistanceEstimation(t, n) == 1
  {
  }

  /** On the line, the only location next to (2,0) is (1,0). */
  lemma FarEndHasOneNeighbor(p: Tile)
    requires p in LocationSet(Line()) && NewTile(2, 2, 0) in UnitGrid(Line()).neighborsOf(p)
    ensures p == NewTile(1, 1, 0)
  {
    NeighborIsOneStep(Line(), p, NewTile(2, 2, 0));
  }

  /** On the line, a recorded node at (2,0) was reached through (1,0), which
      was itself reached at a cost of at least 1, so it costs at least 2. */
  lemma FarEndCostsTwo(idx: map<Tile, nat>, e: Search.Engine<Tile>)
    requires Search.Shape(NewTile(0, 0, 0), LocationSet(Line()), idx, e)
    requires Search.Links(UnitGrid(Line()), NewTile(0, 0, 0), idx, e)
    requires NewTile(2, 2, 0) in e.nodes
    ensures e.nodes[NewTile(2, 2, 0)].cost >= 2
  {
    var w, d, f := UnitGrid(Line()), NewTile(1, 1, 0), NewTile(2, 2, 0);
    assert Search.OpenLink(w, e, f);
    FarEndHasOneNeighbor(e.nodes[f].parent.value);
    assert Search.OpenLink(w, e, d);
  }

  /** A neighbour of a committed node whose expansion the cutoff allowed is
      committed too, once the search has drained. */
  lemma NeighborCommitted<T>(w: World<T>, cutoff: int, e: Search.Engine<T>, x: T, y: T)
    requires Search.AllExpanded(w, cutoff, e) && e.tree.nodes.Keys == e.nodes.Keys
    requires x in e.tree.nodes && !Search.Prunes(cutoff, Search.ExpansionCost(w, e, x))
    requires y in w.neighborsOf(x)
    ensures y in e.tree.nodes
  {
    assert Search.Expanded(w, cutoff, e, x);
  }

  /** On the line, (1,0) neighbours the origin, which costs 1 to leave. */
  lemma LineFirstStep()
    ensures NewTile(1, 1, 0) in UnitGrid(Line()).neighborsOf(NewTile(0, 0, 0))
    ensures UnitGrid(Line()).movementCost(NewTile(0, 0, 0)) == 1
  {
    StepIsNeighbor(Line(), NewTile(0, 0, 0), NewTile(1, 1, 0));
  }

  /** Leaving the origin costs 1, within the cutoff, so its neighbour (1,0) is committed. */
  lemma NearEndCommitted(idx: map<Tile, nat>, e: Search.Engine<Tile>)
    requires Search.DrainedSearch(UnitGrid(Line()), NewTile(0, 0, 0), 1, LocationSet(Line()), idx, e)
    ensures NewTile(1, 1, 0) in e.tree.nodes
  {
    LineFirstStep();
    NeighborCommitted(UnitGrid(Line()), 1, e, NewTile(0, 0, 0), NewTile(1, 1, 0));
  }

  /** (2,0) would cost 2, above the cutoff, so it is not committed. */
  lemma FarEndPruned(idx: map<Tile, nat>, e: Search.Engine<Tile>)
    requires Search.DrainedSearch(UnitGrid(Line()), NewTile(0, 0, 0), 1, LocationSet(Line()), idx, e)
    ensures NewTile(2, 2, 0) !in e.tree.nodes
  {
    if NewTile(2, 2, 0) in e.tree.nodes {
      FarEndCostsTwo(idx, e);
    }
  }

  /** With only (0,0) and (1,0) committed, the path to (1,0) is the direct step. */
  lemma NearEndPath(t: PathTree<Tile>)
    requires t.nodes.Keys == {NewTile(0, 0, 0), NewTile(1, 1, 0)}
    requires Search.HangsFromStart(UnitGrid(Line()), t, NewTile(0, 0, 0), NewTile(1, 1, 0))
    ensures PathTo(t, NewTile(1, 1, 0)) == Some([NewTile(0, 0, 0), NewTile(1, 1, 0)])
  {
    var p := PathTo(t, NewTile(1, 1, 0)).value;
    ShortestInPair(p, NewTile(0, 0, 0), NewTile(1, 1, 0));
  }

  /** A set of the line's tiles holding (0,0) and (1,0) but not (2,0) is exactly those two. */
  lemma NearTwoOfLine(k: set<Tile>)
    requires k <= LocationSet(Line())
    requires NewTile(0, 0, 0) in k && NewTile(1, 1, 0) in k && NewTile(2, 2, 0) !in k
    ensures k == {NewTile(0, 0, 0), NewTile(1, 1, 0)}
  {
    assert LocationSet(Line()) == {NewTile(0, 0, 0), NewTile(1, 1, 0), NewTile(2, 2, 0)};
  }

  /** What `PathsFromPoint(origin, 1)` leaves on the line. */
  lemma CutOffOneFacts(idx: map<Tile, nat>, e: Search.Engine<Tile>)
    requires Search.DrainedSearch(UnitGrid(Line()), NewTile(0, 0, 0), 1, LocationSet(Line()), idx, e)
    ensures e.tree.nodes.Keys == {NewTile(0, 0, 0), NewTile(1, 1, 0)}
    ensures PathTo(e.tree, NewTile(1, 1, 0)) == Some([NewTile(0, 0, 0), NewTile(1, 1, 0)])
  {
    NearEndCommitted(idx, e);
    FarEndPruned(idx, e);
    NearTwoOfLine(e.tree.nodes.Keys);
    assert Search.HangsFromStart(UnitGrid(Line()), e.tree, NewTile(0, 0, 0), NewTile(1, 1, 0));
    NearEndPath(e.tree);
  }

  /** Editor/Tests/SquaredMapTests.cs, `CutOffOnePath`: with a cutoff of 1 on
      the line, only the origin and its neighbour are tree keys, and the
      path to the neighbour is the direct step. */
  method CutOffOnePath(prior: Search.Engine<Tile>) returns (tree: PathTree<Tile>)
    ensures WellFormed(tree)
    ensures tree.nodes.Keys == {NewTile(0, 0, 0), NewTile(1, 1, 0)}
    ensures PathTo(tree, NewTile(1, 1, 0)) == Some([NewTile(0, 0, 0), NewTile(1, 1, 0)])
  {
    UnitGridIsClosed(Line());
    var e;
    ghost var idx;
    tree, e, idx := Search.PathsFromPoint(UnitGrid(Line()), prior, NewTile(0, 0, 0), 1, LocationSet(Line()));
    CutOffOneFacts(idx, e);
  }

  /** On a map whose tiles all cost at least 1 to leave, the Manhattan
      estimate is consistent: a neighbour lies one step away, and the
      estimate to any destination drops by at most that step. */
  lemma GridIsConsistent(m: SquareMap, dest: Tile)
    requires forall t :: t in m.locations ==> MovementCost(t) >= 1
    ensures AStar.Consistent(GridWorld(m), dest)
  {
    var w := GridWorld(m);
    forall x, y | y in w.neighborsOf(x)
      ensures w.distanceEstimation(x, dest) <= w.movementCost(x) + w.distanceEstimation(y, dest)
    {
      assert x in m.locations && DistanceEstimation(x, y) == 1;
      DistanceIsMetric(x, y, dest);
    }
  }

  /** A tile and its grid neighbours are all different. */
  lemma GridNeighborsDistinct(m: SquareMap, t: Tile)
    ensures NoRepeats([t] + GridWorld(m).neighborsOf(t))
  {
    if t in m.locations {
      var r := NeighborsIn(m.locations, t).value;
      assert GridWorld(m).neighborsOf(t) == r;
      NeighborsDistinct(m.locations, t);
      ConsNoRepeats(t, r);
    }
  }

  /** Putting an element not yet present in front keeps a list repeat-free. */
  lemma ConsNoRepeats<T>(t: T, r: seq<T>)
    requires NoRepeats(r) && t !in r
    ensures NoRepeats([t] + r)
  {
    var s := [t] + r;
    forall i, j | 0 <= i < j < |s|
      ensures s[i] != s[j]
    {
      assert s[j] == r[j - 1];
      if i > 0 {
        assert s[i] == r[i - 1];
      }
    }
  }

  /** The two-tile map `[o, d]` with `d` one step from `o`: its locations
      are `o` and `d`, and `d` is reachable from `o`. */
  lemma AdjacentPairReachable(o: Tile, d: Tile)
    requires DistanceEstimation(o, d) == 1
    ensures LocationSet(SquareMap([o, d])) == {o, d}
    ensures Reachable(GridWorld(SquareMap([o, d])), o, d)
  {
    var m := SquareMap([o, d]);
    assert IsFirstAt(m.locations, 1, d.x, d.y);
    CandidatesAtDistanceOne(o, d.x, d.y);
    StepIsNeighbor(m, o, d);
    ReachesItself(GridWorld(m), o);
    ReachableExtends(GridWorld(m), o, o, d);
  }

  /** The two-tile map `[o, d]` with both tiles costing at least 1 has a
      consistent estimate towards `d`. */
  lemma AdjacentPairConsistent(o: Tile, d: Tile)
    requires MovementCost(o) >= 1 && MovementCost(d) >= 1
    ensures AStar.Consistent(GridWorld(SquareMap([o, d])), d)
  {
    GridIsConsistent(SquareMap([o, d]), d);
  }

  /** The linear-scan search on the two-tile map `[o, d]` with `d` one step
      from `o` returns the two-step path. */
  method LinearAdjacentPair(o: Tile, d: Tile) returns (r: AStar.Outcome<Tile>)
    requires MovementCost(o) >= 1 && MovementCost(d) >= 1 && DistanceEstimation(o, d) == 1
    ensures r == AStar.Found([o, d])
  {
    var m := SquareMap([o, d]);
    GridIsClosed(m);
    GridNeighborsDistinct(m, o);
    AdjacentPairConsistent(o, d);
    AdjacentPairReachable(o, d);
    ghost var U := LocationSet(m);
    r := AStar.Calculate(GridWorld(m), o, d, U);
    ShortestWithin(r.path, o, d, U);
  }

  /** Assets/Scripts/Editor/Tests/SquaredMapTests.cs, `OneStep`, on the
      linear-scan search: the estimate is consistent on the pair, so the
      walk back finds the two-step path. */
  method LinearOneStep() returns (r: AStar.Outcome<Tile>)
    ensures r == AStar.Found([NewTile(0, 0, 0), NewTile(1, 0, 1)])
  {
    r := LinearAdjacentPair(NewTile(0, 0, 0), NewTile(1, 0, 1));
  }

  /** Assets/Scripts/Editor/Tests/SquaredMapTests.cs, `OriginIsDestination`,
      on the linear-scan search. */
  method LinearOriginIsDestination() returns (r: AStar.Outcome<Tile>)
    ensures r == AStar.Found([NewTile(0, 0, 0)])
  {
    var origin := NewTile(0, 0, 0);
    var m := SquareMap([origin]);
    GridIsClosed(m);
    r := AStar.Calculate(GridWorld(m), origin, origin, LocationSet(m));
  }
}
