/** The child-to-parent map rooted at the search origin (Structures/PathTree.cs).

    A key whose parent is `None` is a root.  `PathTo` walks parent links up
    from a key and reverses the walk; the source loops forever on a cycle and
    throws on a parent that is not a key, so the walk is only defined on a
    well-formed tree: every parent is a key, and some ranking of the keys
    strictly decreases along every parent link.  The ranks are pairs ordered
    lexicographically, which is what the search engine can supply (cost to
    reach a node, then the order in which nodes were committed). */
module PathTrees {
  import opened Wrappers

  datatype PathTree<T> = PathTree(nodes: map<T, Option<T>>)

  /** `New(root)`: every earlier entry is discarded and only `root ↦ null` is left. */
  function New<T>(t: PathTree<T>, root: T): (r: PathTree<T>)
    ensures r.nodes.Keys == {root} && r.nodes[root] == None
  {
    PathTree(map[root := None])
  }

  /** `Contains(step)`: key membership. */
  predicate Contains<T>(t: PathTree<T>, x: T)
  {
    x in t.nodes
  }

  /** Lexicographic order on ranks. */
  predicate Below(a: (nat, nat), b: (nat, nat))
  {
    a.0 < b.0 || (a.0 == b.0 && a.1 < b.1)
  }

  /** Every parent is a key whose rank is strictly below its child's. */
  ghost predicate Ranked<T>(t: PathTree<T>, rank: map<T, (nat, nat)>)
  {
    forall k :: k in t.nodes ==>
      && k in rank
      && (t.nodes[k].Some? ==> t.nodes[k].value in t.nodes && t.nodes[k].value in rank && Below(rank[t.nodes[k].value], rank[k]))
  }

  /** Parent links are closed and acyclic. */
  ghost predicate WellFormed<T(!new)>(t: PathTree<T>)
  {
    exists rank :: Ranked(t, rank)
  }

  ghost function ChosenRank<T(!new)>(t: PathTree<T>): (rank: map<T, (nat, nat)>)
    requires WellFormed(t)
    ensures Ranked(t, rank)
  {
    var rank :| Ranked(t, rank); rank
  }

  /** `p` is a walk from a root down to `d`: each element is the parent of the next. */
  ghost predicate IsRootPath<T>(t: PathTree<T>, p: seq<T>, d: T)
  {
    && |p| > 0
    && p[|p| - 1] == d
    && (forall i :: 0 <= i < |p| ==> p[i] in t.nodes)
    && t.nodes[p[0]] == None
    && (forall i :: 0 <= i < |p| - 1 ==> t.nodes[p[i + 1]] == Some(p[i]))
  }

  /** No element occurs twice. */
  ghost predicate NoRepeats<T>(s: seq<T>)
  {
    forall i, j :: 0 <= i < j < |s| ==> s[i] != s[j]
  }

  /** A sequence without repeats drawn from `u` is no longer than `u`. */
  lemma {:induction false} NoRepeatsWithin<T>(s: seq<T>, u: set<T>)
    requires NoRepeats(s) && forall i :: 0 <= i < |s| ==> s[i] in u
    ensures |s| <= |u|
    decreases |s|
  {
    if |s| > 0 {
      var rest := s[1..];
      assert NoRepeats(rest) by {
        forall i, j | 0 <= i < j < |rest|
          ensures rest[i] != rest[j]
        {
          assert rest[i] == s[i + 1] && rest[j] == s[j + 1];
        }
      }
      forall i | 0 <= i < |rest|
        ensures rest[i] in u - {s[0]}
      {
        assert rest[i] == s[i + 1] && s[0] != s[i + 1];
      }
      NoRepeatsWithin(rest, u - {s[0]});
    }
  }

  /** The do-while loop of `PathTo`: `n`, its parent, its grandparent, ... up to the root. */
  function Climb<T(!new)>(t: PathTree<T>, n: T): (r: seq<T>)
    requires WellFormed(t) && n in t.nodes
    ensures |r| > 0 && r[0] == n
    ensures forall i :: 0 <= i < |r| ==> r[i] in t.nodes
    ensures t.nodes[r[|r| - 1]] == None
    ensures forall i :: 0 <= i < |r| - 1 ==> t.nodes[r[i]] == Some(r[i + 1])
    ensures forall i, j :: 0 <= i < j < |r| ==> Below(ChosenRank(t)[r[j]], ChosenRank(t)[r[i]])
    decreases ChosenRank(t)[n].0, ChosenRank(t)[n].1
  {
    match t.nodes[n]
    case None => [n]
    case Some(p) => [n] + Climb(t, p)
  }

  function Reverse<T>(s: seq<T>): (r: seq<T>)
    ensures |r| == |s| && forall i :: 0 <= i < |s| ==> r[i] == s[|s| - 1 - i]
  {
    if |s| == 0 then [] else Reverse(s[1..]) + [s[0]]
  }

  /** `PathTo(destination)`: null exactly when the destination is not a key;
      otherwise the unique walk from a root down to it, without repeats. */
  function PathTo<T(!new)>(t: PathTree<T>, d: T): (r: Option<seq<T>>)
    requires WellFormed(t)
    ensures r.None? <==> !Contains(t, d)
    ensures r.Some? ==> IsRootPath(t, r.value, d) && NoRepeats(r.value)
  {
    if !Contains(t, d) then None
    else
      ClimbReversed(t, d);
      Some(Reverse(Climb(t, d)))
  }

  /** The climb from `d`, reversed, runs from a root down to `d` and never
      meets a node twice, since ranks strictly fall along the climb. */
  lemma ClimbReversed<T(!new)>(t: PathTree<T>, d: T)
    requires WellFormed(t) && d in t.nodes
    ensures IsRootPath(t, Reverse(Climb(t, d)), d) && NoRepeats(Reverse(Climb(t, d)))
  {
    var up := Climb(t, d);
    var p := Reverse(up);
    ClimbNoRepeats(t, d);
    ReverseNoRepeats(up);
    forall i | 0 <= i < |p| - 1
      ensures t.nodes[p[i + 1]] == Some(p[i])
    {
      assert p[i + 1] == up[|up| - 2 - i] && p[i] == up[|up| - 1 - i];
    }
  }

  lemma ClimbNoRepeats<T(!new)>(t: PathTree<T>, d: T)
    requires WellFormed(t) && d in t.nodes
    ensures NoRepeats(Climb(t, d))
  {
    var up := Climb(t, d);
    forall i, j | 0 <= i < j < |up|
      ensures up[i] != up[j]
    {
      assert Below(ChosenRank(t)[up[j]], ChosenRank(t)[up[i]]);
    }
  }

  lemma ReverseNoRepeats<T>(s: seq<T>)
    requires NoRepeats(s)
    ensures NoRepeats(Reverse(s))
  {
    var p := Reverse(s);
    forall i, j | 0 <= i < j < |p|
      ensures p[i] != p[j]
    {
      assert p[i] == s[|s| - 1 - i] && p[j] == s[|s| - 1 - j];
    }
  }

  /** The last link of a walk from a root: `d` is itself a root exactly when the walk is `[d]`. */
  lemma LastLink<T>(t: PathTree<T>, p: seq<T>, d: T)
    requires IsRootPath(t, p, d)
    ensures |p| == 1 ==> p == [d] && t.nodes[d] == None
    ensures |p| > 1 ==> t.nodes[d] == Some(p[|p| - 2])
  {
  }

  /** A walk from a root to `d` is unique, so `PathTo` returns the only one there is. */
  lemma {:induction false} RootPathUnique<T>(t: PathTree<T>, p: seq<T>, q: seq<T>, d: T)
    requires IsRootPath(t, p, d) && IsRootPath(t, q, d)
    ensures p == q
    decreases |p|
  {
    LastLink(t, p, d);
    LastLink(t, q, d);
    if |p| > 1 {
      var p', q' := p[..|p| - 1], q[..|q| - 1];
      assert IsRootPath(t, p', p[|p| - 2]);
      assert IsRootPath(t, q', p[|p| - 2]);
      RootPathUnique(t, p', q', p[|p| - 2]);
      assert p == p' + [d] && q == q' + [d];
    }
  }

  /** After `New(root)` the tree is well formed and `PathTo(root)` is `[root]`. */
  lemma PathToAfterNew<T(!new)>(t: PathTree<T>, root: T)
    ensures WellFormed(New(t, root))
    ensures PathTo(New(t, root), root) == Some([root])
  {
    var n := New(t, root);
    assert Ranked(n, map[root := (0, 0)]);
    var p := PathTo(n, root).value;
    RootPathUnique(n, p, [root], root);
  }
}
