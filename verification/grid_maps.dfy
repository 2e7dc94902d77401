/** The square-grid worlds of the Unity project's tests: `MapSquare2D` and
    `Map2dWithObjects`.  A map is an ordered list of tiles; a tile's
    neighbours are the tiles found one step along +X, -X, +Y and -Y, in that
    order.  Membership is by reference, which the tiles' `id` models. */
module GridMaps {
  import opened Wrappers
  import opened Tiles
  import opened Worlds

  datatype SquareMap = SquareMap(locations: seq<Tile>)

  /** `Map2dWithObjects`: the same list of locations and a set of objects. */
  datatype ObjectMap<O> = ObjectMap(locations: seq<Tile>, objects: set<O>)

  /** Position of the first location at `(x, y)`. */
  function FirstAt(locations: seq<Tile>, x: int, y: int): (r: Option<nat>)
    ensures r.None? <==> forall i :: 0 <= i < |locations| ==> locations[i].x != x || locations[i].y != y
    ensures r.Some? ==> r.value < |locations| && locations[r.value].x == x && locations[r.value].y == y
    ensures r.Some? ==> forall i :: 0 <= i < r.value ==> locations[i].x != x || locations[i].y != y
  {
    if |locations| == 0 then None
    else if locations[0].x == x && locations[0].y == y then Some(0)
    else match FirstAt(locations[1..], x, y)
      case None => None
      case Some(i) => Some(i + 1)
  }

  /** Position `i` holds the first location at `(x, y)`. */
  predicate IsFirstAt(locations: seq<Tile>, i: nat, x: int, y: int)
    requires i < |locations|
  {
    && locations[i].x == x && locations[i].y == y
    && forall j :: 0 <= j < i ==> locations[j].x != x || locations[j].y != y
  }

  /** `Find(x, y)`: the first location at `(x, y)`, or null. */
  function Find(locations: seq<Tile>, x: int, y: int): (r: Option<Tile>)
    ensures r.None? <==> forall t :: t in locations ==> t.x != x || t.y != y
    ensures r.Some? ==> r.value in locations && r.value.x == x && r.value.y == y
    ensures forall i :: 0 <= i < |locations| && IsFirstAt(locations, i, x, y) ==> r == Some(locations[i])
  {
    match FirstAt(locations, x, y)
    case None => None
    case Some(i) => Some(locations[i])
  }

  /** The candidate coordinates of `NeighborsOf`, in the order they are tried. */
  function Candidates(t: Tile): seq<(int, int)>
  {
    [(t.x + 1, t.y), (t.x - 1, t.y), (t.x, t.y + 1), (t.x, t.y - 1)]
  }

  /** No candidate coordinate is listed twice. */
  predicate DistinctCandidates(cs: seq<(int, int)>)
  {
    forall i, j :: 0 <= i < j < |cs| ==> cs[i] != cs[j]
  }

  /** The position of a tile's coordinates among the candidates, or `|cs|`
      when they are not a candidate. */
  function Slot(cs: seq<(int, int)>, n: Tile): (k: nat)
    ensures k <= |cs|
    ensures k < |cs| ==> cs[k] == (n.x, n.y)
    ensures forall i :: 0 <= i < k ==> cs[i] != (n.x, n.y)
  {
    if |cs| == 0 then 0
    else if cs[0] == (n.x, n.y) then 0
    else 1 + Slot(cs[1..], n)
  }

  /** The loop over the candidates: the tile `Find` returns for each, skipping nulls. */
  function Resolve(locations: seq<Tile>, cs: seq<(int, int)>): (r: seq<Tile>)
    ensures |r| <= |cs|
    ensures forall n :: n in r ==> n in locations && Slot(cs, n) < |cs| && Find(locations, n.x, n.y) == Some(n)
    ensures forall c :: c in cs && Find(locations, c.0, c.1).Some? ==> Find(locations, c.0, c.1).value in r
  {
    if |cs| == 0 then []
    else
      var here := match Find(locations, cs[0].0, cs[0].1)
        case None => []
        case Some(l) => [l];
      here + Resolve(locations, cs[1..])
  }

  /** Coordinates that are a candidate after the first have a slot one past
      their slot among the rest. */
  lemma SlotAfterFirst(cs: seq<(int, int)>, n: Tile)
    requires DistinctCandidates(cs) && |cs| > 0 && Slot(cs[1..], n) < |cs| - 1
    ensures Slot(cs, n) == 1 + Slot(cs[1..], n)
  {
    assert cs[1..][Slot(cs[1..], n)] == cs[Slot(cs[1..], n) + 1];
  }

  /** Tiles listed in strictly increasing candidate position. */
  predicate InCandidateOrder(cs: seq<(int, int)>, r: seq<Tile>)
  {
    forall i, j :: 0 <= i < j < |r| ==> Slot(cs, r[i]) < Slot(cs, r[j])
  }

  /** A tile at the first candidate followed by tiles in order among the
      remaining candidates are in order among all of them. */
  lemma OrderAfterFirst(cs: seq<(int, int)>, head: seq<Tile>, tail: seq<Tile>)
    requires DistinctCandidates(cs) && |cs| > 0 && |head| <= 1
    requires forall n :: n in head ==> cs[0] == (n.x, n.y)
    requires forall n :: n in tail ==> Slot(cs[1..], n) < |cs| - 1
    requires InCandidateOrder(cs[1..], tail)
    ensures InCandidateOrder(cs, head + tail)
  {
    var r, d := head + tail, |head|;
    forall i, j | 0 <= i < j < |r|
      ensures Slot(cs, r[i]) < Slot(cs, r[j])
    {
      assert r[j] == tail[j - d] && r[j] in tail;
      SlotAfterFirst(cs, r[j]);
      if i >= d {
        assert r[i] == tail[i - d] && r[i] in tail;
        SlotAfterFirst(cs, r[i]);
      } else {
        assert r[i] in head;
      }
    }
  }

  /** The results come in the order of their candidates, one per candidate. */
  lemma {:induction false} ResolveInOrder(locations: seq<Tile>, cs: seq<(int, int)>)
    requires DistinctCandidates(cs)
    ensures InCandidateOrder(cs, Resolve(locations, cs))
    decreases |cs|
  {
    if |cs| > 0 {
      var tail := Resolve(locations, cs[1..]);
      ResolveInOrder(locations, cs[1..]);
      var head := match Find(locations, cs[0].0, cs[0].1)
        case None => []
        case Some(l) => [l];
      assert Resolve(locations, cs) == head + tail;
      OrderAfterFirst(cs, head, tail);
    }
  }

  /** Tiles one step apart along an axis are exactly the tiles at Manhattan distance 1. */
  lemma CandidatesAtDistanceOne(t: Tile, x: int, y: int)
    ensures (x, y) in Candidates(t) <==> Manhattan(t.x, t.y, x, y) == 1
  {
  }

  /** `NeighborsOf(location, flags)` of both maps: null for a tile that is
      not a location; otherwise up to four locations, each one step away and
      each the first location at its coordinates, in the order +X, -X, +Y,
      -Y of their candidates, and for every candidate coordinate that holds a
      location the first location there. */
  function NeighborsIn(locations: seq<Tile>, t: Tile): (r: Option<seq<Tile>>)
    ensures r.None? <==> t !in locations
    ensures r.Some? ==> |r.value| <= 4
    ensures r.Some? ==> forall n :: n in r.value ==> n in locations && DistanceEstimation(t, n) == 1
    ensures r.Some? ==> forall n :: n in r.value ==> Find(locations, n.x, n.y) == Some(n)
    ensures r.Some? ==> InCandidateOrder(Candidates(t), r.value)
    ensures r.Some? ==> forall c :: c in Candidates(t) && Find(locations, c.0, c.1).Some? ==> Find(locations, c.0, c.1).value in r.value
  {
    if t !in locations then None
    else
      ResolveInOrder(locations, Candidates(t));
      var r := Resolve(locations, Candidates(t));
      assert forall n :: n in r ==> DistanceEstimation(t, n) == 1 by {
        forall n | n in r
          ensures DistanceEstimation(t, n) == 1
        {
          CandidatesAtDistanceOne(t, n.x, n.y);
        }
      }
      Some(r)
  }

  /** The neighbours of a location are distinct, since they come in
      strictly increasing candidate order, and none is the location itself,
      since each lies one step away. */
  lemma NeighborsDistinct(locations: seq<Tile>, t: Tile)
    requires t in locations
    ensures forall i, j :: 0 <= i < j < |NeighborsIn(locations, t).value| ==>
      NeighborsIn(locations, t).value[i] != NeighborsIn(locations, t).value[j]
    ensures t !in NeighborsIn(locations, t).value
  {
    var r := NeighborsIn(locations, t).value;
    forall i, j | 0 <= i < j < |r|
      ensures r[i] != r[j]
    {
      assert Slot(Candidates(t), r[i]) < Slot(Candidates(t), r[j]);
    }
    assert DistanceEstimation(t, t) == 0;
  }

  /** Every neighbour of `t` on the map `[t, a, b]`, where `b` is stacked on
      `a` one step along +X, is `a`. */
  lemma StackedOnlyFirst(t: Tile, a: Tile, b: Tile)
    requires a.x == t.x + 1 && a.y == t.y && b.x == a.x && b.y == a.y
    ensures forall n :: n in NeighborsIn([t, a, b], t).value ==> n == a
  {
    var locations := [t, a, b];
    assert IsFirstAt(locations, 1, a.x, a.y);
    forall n | n in NeighborsIn(locations, t).value
      ensures n == a
    {
      assert n in locations && DistanceEstimation(t, n) == 1;
      assert Find(locations, n.x, n.y) == Some(n);
    }
  }

  /** A list in candidate order does not repeat its first tile. */
  lemma FirstTwoDiffer(cs: seq<(int, int)>, r: seq<Tile>)
    requires InCandidateOrder(cs, r)
    ensures |r| > 1 ==> r[0] != r[1]
  {
    if |r| > 1 {
      assert Slot(cs, r[0]) < Slot(cs, r[1]);
    }
  }

  /** Of two locations stacked at the same coordinates, only the first listed
      is ever a neighbour. */
  lemma StackedNeighborIsFirst(t: Tile, a: Tile, b: Tile)
    requires a.x == t.x + 1 && a.y == t.y && b.x == a.x && b.y == a.y
    ensures NeighborsIn([t, a, b], t) == Some([a])
  {
    var locations := [t, a, b];
    assert IsFirstAt(locations, 1, a.x, a.y);
    assert (a.x, a.y) in Candidates(t);
    StackedOnlyFirst(t, a, b);
    var r := NeighborsIn(locations, t).value;
    assert a in r;
    FirstTwoDiffer(Candidates(t), r);
    assert r == [a];
  }

  /** `MapSquare2D.NeighborsOf`; the flags are not consulted. */
  function NeighborsOf(m: SquareMap, t: Tile, flags: int): Option<seq<Tile>>
  {
    NeighborsIn(m.locations, t)
  }

  /** `MapSquare2D.IsWalkable`: membership, whatever the flags. */
  predicate IsWalkable(m: SquareMap, t: Tile, flags: int)
  {
    t in m.locations
  }

  function ObjectNeighborsOf<O>(m: ObjectMap<O>, t: Tile, flags: int): Option<seq<Tile>>
  {
    NeighborsIn(m.locations, t)
  }

  predicate ObjectIsWalkable<O>(m: ObjectMap<O>, t: Tile, flags: int)
  {
    t in m.locations
  }

  /** The objects of a `Map2dWithObjects` never block anything: it answers
      exactly as a `MapSquare2D` with the same locations, for any flags. */
  lemma ObjectsNeverConsulted<O>(m: ObjectMap<O>, t: Tile, flags: int, flags': int)
    ensures ObjectNeighborsOf(m, t, flags) == NeighborsOf(SquareMap(m.locations), t, flags')
    ensures ObjectIsWalkable(m, t, flags) <==> IsWalkable(SquareMap(m.locations), t, flags')
  {
  }

  /** No two locations share coordinates. */
  ghost predicate DistinctCoordinates(locations: seq<Tile>)
  {
    forall i, j :: 0 <= i < |locations| && 0 <= j < |locations| && locations[i].x == locations[j].x && locations[i].y == locations[j].y ==> i == j
  }

  /** On a map without stacked tiles, one location is a neighbour of another
      exactly when they are one step apart. */
  lemma NeighborIffOneStep(locations: seq<Tile>, a: Tile, b: Tile)
    requires DistinctCoordinates(locations) && a in locations && b in locations
    ensures b in NeighborsIn(locations, a).value <==> DistanceEstimation(a, b) == 1
  {
    if DistanceEstimation(a, b) == 1 {
      CandidatesAtDistanceOne(a, b.x, b.y);
      var f := Find(locations, b.x, b.y);
      var i :| 0 <= i < |locations| && locations[i] == f.value;
      var j :| 0 <= j < |locations| && locations[j] == b;
      assert i == j;
    }
  }

  /** On a map without stacked tiles, being a neighbour is symmetric. */
  lemma NeighborsSymmetric(locations: seq<Tile>, a: Tile, b: Tile)
    requires DistinctCoordinates(locations) && a in locations && b in locations
    ensures b in NeighborsIn(locations, a).value <==> a in NeighborsIn(locations, b).value
  {
    NeighborIffOneStep(locations, a, b);
    NeighborIffOneStep(locations, b, a);
    DistanceIsMetric(a, b, b);
  }

  /** The map as the world a search runs over: a tile's neighbours, its own
      movement cost, and the tiles' distance estimate.  A tile that is not a
      location has no neighbours here, where the source's enumeration of a
      null list fails. */
  function GridWorld(m: SquareMap): World<Tile>
  {
    World(
      t => match NeighborsOf(m, t, 0) case Some(ns) => ns case None => [],
      MovementCost,
      DistanceEstimation)
  }

  function LocationSet(m: SquareMap): set<Tile>
  {
    set t | t in m.locations
  }

  /** A search from a location never leaves the map. */
  lemma GridIsClosed(m: SquareMap)
    ensures ClosedUnder(GridWorld(m), LocationSet(m))
  {
  }
}
