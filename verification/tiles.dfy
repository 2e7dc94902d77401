/** The square tiles of the test worlds.  Both projects define a
    `TileSquared` holding read-only coordinates and estimating distance as the
    Manhattan distance; the Unity project's tile also carries a movement cost.
    Tiles are compared by reference in the source, so each tile carries an
    `id` standing for its object identity: two tiles built at the same
    coordinates are different tiles. */
module Tiles {
  function Abs(n: int): nat
  {
    if n < 0 then -n else n
  }

  /** `|x1 - x2| + |y1 - y2|`, the estimate both tile classes compute. */
  function Manhattan(x1: int, y1: int, x2: int, y2: int): (d: int)
    ensures d >= 0
    ensures d == 0 <==> x1 == x2 && y1 == y2
  {
    Abs(x1 - x2) + Abs(y1 - y2)
  }

  /** The Unity project's `TileSquared(x, y, cost = 1)`. */
  datatype Tile = Tile(id: nat, x: int, y: int, cost: int)

  function NewTile(id: nat, x: int, y: int, cost: int := 1): Tile
  {
    Tile(id, x, y, cost)
  }

  function DistanceEstimation(a: Tile, b: Tile): (d: int)
    ensures d >= 0
    ensures d == 0 <==> a.x == b.x && a.y == b.y
  {
    Manhattan(a.x, a.y, b.x, b.y)
  }

  function MovementCost(t: Tile): int
  {
    t.cost
  }

  /** The constructor stores its arguments unchanged, and a tile built
      without a cost costs 1 to leave. */
  lemma NewTileFields(id: nat, x: int, y: int, cost: int)
    ensures NewTile(id, x, y).x == x && NewTile(id, x, y).y == y
    ensures MovementCost(NewTile(id, x, y)) == 1
    ensures MovementCost(NewTile(id, x, y, cost)) == cost
  {
  }

  /** The estimate is a metric on coordinates: symmetric, and never more
      than a detour through a third tile. */
  lemma DistanceIsMetric(a: Tile, b: Tile, c: Tile)
    ensures DistanceEstimation(a, b) == DistanceEstimation(b, a)
    ensures DistanceEstimation(a, c) <= DistanceEstimation(a, b) + DistanceEstimation(b, c)
  {
  }

  /** The newer project's `TileSquared(x, y)`: coordinates only. */
  datatype PlainTile = PlainTile(id: nat, x: int, y: int)

  function PlainDistanceEstimation(a: PlainTile, b: PlainTile): (d: int)
    ensures d >= 0
    ensures d == 0 <==> a.x == b.x && a.y == b.y
  {
    Manhattan(a.x, a.y, b.x, b.y)
  }

  /** The two tile classes estimate the same distance between the same coordinates. */
  lemma EstimatesAgree(a: PlainTile, b: PlainTile, ca: int, cb: int)
    ensures PlainDistanceEstimation(a, b) == DistanceEstimation(Tile(a.id, a.x, a.y, ca), Tile(b.id, b.x, b.y, cb))
    ensures PlainDistanceEstimation(a, b) == PlainDistanceEstimation(b, a)
  {
  }
}
