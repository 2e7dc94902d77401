/** The world a search runs over (Interface/IMap.cs): the neighbours of a
    location, the cost of moving out of it, and an estimate of the distance
    between two locations.  The cookie that `NeighborsOf` also receives is
    fixed for the whole of one search, so it is folded into `neighborsOf`. */
module Worlds {
  datatype World<!T> = World(neighborsOf: T -> seq<T>, movementCost: T -> int, distanceEstimation: (T, T) -> int)

  /** Moving never earns cost back; the engines' termination and tree shape rest on this. */
  ghost predicate NonNegativeCosts<T(!new)>(w: World<T>)
  {
    forall n :: w.movementCost(n) >= 0
  }

  /** Every neighbour of a member of `s` is a member of `s`: a finite universe the search cannot leave. */
  ghost predicate ClosedUnder<T>(w: World<T>, s: set<T>)
  {
    forall x, y :: x in s && y in w.neighborsOf(x) ==> y in s
  }

  /** Each element of `p` is a neighbour of the one before it. */
  ghost predicate IsWalk<T>(w: World<T>, p: seq<T>)
  {
    forall i :: 0 <= i < |p| - 1 ==> p[i + 1] in w.neighborsOf(p[i])
  }

  ghost predicate Reachable<T(!new)>(w: World<T>, a: T, b: T)
  {
    exists p :: |p| > 0 && p[0] == a && p[|p| - 1] == b && IsWalk(w, p)
  }

  /** A walk that starts inside a closed set never leaves it. */
  lemma {:induction false} WalkStaysInside<T>(w: World<T>, s: set<T>, p: seq<T>)
    requires ClosedUnder(w, s) && IsWalk(w, p) && |p| > 0 && p[0] in s
    ensures forall i :: 0 <= i < |p| ==> p[i] in s
  {
    if |p| > 1 {
      var q := p[..|p| - 1];
      assert IsWalk(w, q) by {
        forall i | 0 <= i < |q| - 1
          ensures q[i + 1] in w.neighborsOf(q[i])
        {
          assert q[i] == p[i] && q[i + 1] == p[i + 1];
        }
      }
      WalkStaysInside(w, s, q);
      assert p[|p| - 2] == q[|q| - 1];
      assert p[|p| - 1] in w.neighborsOf(p[|p| - 2]);
      forall i | 0 <= i < |p|
        ensures p[i] in s
      {
        if i < |p| - 1 {
          assert p[i] == q[i];
        }
      }
    }
  }

  /** A closed set holding `a` holds everything reachable from `a`. */
  lemma ClosedHoldsReachable<T(!new)>(w: World<T>, s: set<T>, a: T, b: T)
    requires ClosedUnder(w, s) && a in s && Reachable(w, a, b)
    ensures b in s
  {
    var p :| |p| > 0 && p[0] == a && p[|p| - 1] == b && IsWalk(w, p);
    WalkStaysInside(w, s, p);
  }

  /** Every location reaches itself by the one-element walk. */
  lemma ReachesItself<T(!new)>(w: World<T>, a: T)
    ensures Reachable(w, a, a)
  {
    assert IsWalk(w, [a]);
  }

  /** A walk to `b` followed by one move to a neighbour `c` of `b` is a walk to `c`. */
  lemma ReachableExtends<T(!new)>(w: World<T>, a: T, b: T, c: T)
    requires Reachable(w, a, b) && c in w.neighborsOf(b)
    ensures Reachable(w, a, c)
  {
    var p :| |p| > 0 && p[0] == a && p[|p| - 1] == b && IsWalk(w, p);
    var q := p + [c];
    assert forall i :: 0 <= i < |p| ==> q[i] == p[i];
    assert IsWalk(w, q);
  }
}
