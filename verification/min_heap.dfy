/** The array-backed binary heap with a dirty bit (Assets/Scripts/Structures/MinHeap.cs).

    The live part of the backing array, `raw[0..Count)`, is `items`; the slots
    past `Count` can never be read back, so they are not modelled.  `size` and
    `chunk` are kept as plain integers only to state how the capacity grows.

    The injected comparator is `compare(a, b) = key(a) - key(b)` for a key
    function chosen by the caller: the tests pass `(i, j) => i - j` (key is the
    identity) and the search engine passes `(a, b) => H(b) - H(a)` (key is
    `-H`).  An element is promoted when `compare(child, parent) < 0`, so the
    root always holds an element of least key. */
module MinHeap {
  import opened Wrappers

  /** The comparator the heap is given, for a comparator of the form key(a) - key(b). */
  function Compare<T>(key: T -> int, a: T, b: T): int
  {
    key(a) - key(b)
  }

  /** The heap state: live items `raw[0..Count)`, capacity, growth step and dirty bit. */
  datatype Heap<T> = Heap(items: seq<T>, size: int, chunk: int, dirty: bool)
  {
    function Count(): nat { |items| }
    predicate IsEmpty() { |items| == 0 }
  }

  function Parent(c: nat): nat
    requires c > 0
  {
    (c - 1) / 2
  }

  /** Every parent-child pair whose parent index is at least `lo` is in order. */
  ghost predicate OrderedFrom<T>(key: T -> int, a: seq<T>, lo: int)
  {
    forall c :: 0 < c < |a| && Parent(c) >= lo ==> key(a[Parent(c)]) <= key(a[c])
  }

  /** The heap order: no child strictly precedes its parent under the comparator. */
  ghost predicate HeapOrdered<T>(key: T -> int, a: seq<T>)
  {
    OrderedFrom(key, a, 0)
  }

  /** The invariant the heap keeps for a given comparator: the capacity covers
      the live items, and unless a sort is pending the live items are ordered.
      The comparator may read external state: the caller must `Sort` after
      changing the key of an element already inserted. */
  ghost predicate Valid<T>(h: Heap<T>, key: T -> int)
  {
    WellSized(h) && (h.dirty || HeapOrdered(key, h.items))
  }

  /** Capacity never falls below `Count`, and the growth step is not negative. */
  predicate WellSized<T>(h: Heap<T>)
  {
    |h.items| <= h.size && 0 <= h.chunk
  }

  /** The one-argument constructor: `Clean()` on a heap with no storage. */
  function New<T>(): (h: Heap<T>)
    ensures h.IsEmpty() && WellSized(h)
    ensures h.size == 0 && h.chunk == 8 && !h.dirty
  {
    Heap([], 0, 8, false)
  }

  /** The two-argument constructor: only `Reserve(reserve)`, so `chunk` stays 0. */
  function WithReserve<T>(reserve: int): (h: Heap<T>)
    ensures h.IsEmpty() && h.size >= reserve && h.chunk == 0 && WellSized(h)
  {
    Reserve(Heap([], 0, 0, false), reserve)
  }

  /** Logically removes every element but keeps the storage. */
  function Clean<T>(h: Heap<T>): (r: Heap<T>)
    ensures r.IsEmpty() && r.size == h.size && !r.dirty && r.chunk == 8
    ensures h.size >= 0 ==> WellSized(r)
  {
    Heap([], h.size, 8, false)
  }

  /** Logically removes every element and releases the storage. */
  function Clear<T>(h: Heap<T>): (r: Heap<T>)
    ensures r == Clean(Heap(h.items, 0, h.chunk, h.dirty))
    ensures WellSized(r) && r.size == 0
  {
    Heap([], 0, 8, false)
  }

  /** Moves the live items into storage of capacity `s`; `Array.Copy` needs
      room for all of them. */
  function Realloc<T>(h: Heap<T>, s: int): (r: Heap<T>)
    requires s >= |h.items|
    ensures r.items == h.items && r.size == s
    ensures r.dirty == h.dirty && r.chunk == h.chunk
  {
    h.(size := s)
  }

  /** Guarantees room for `s` entries without changing the contents. */
  function Reserve<T>(h: Heap<T>, s: int): (r: Heap<T>)
    requires |h.items| <= h.size
    ensures r.items == h.items && r.dirty == h.dirty && r.chunk == h.chunk
    ensures r.size >= s && r.size >= h.size && r.size >= |r.items|
  {
    if h.size < s then Realloc(h, s) else h
  }

  /** Appends `o` and marks the heap dirty; a full heap first grows by `chunk`
      and doubles `chunk`.  A heap built by `WithReserve` has `chunk == 0` and
      cannot grow, which the source does not guard: it writes past the array. */
  function Push<T>(h: Heap<T>, o: T): (r: Heap<T>)
    requires |h.items| <= h.size
    requires |h.items| < h.size || h.chunk > 0
    ensures r.items == h.items + [o]
    ensures r.dirty && r.size >= h.size
    ensures |h.items| == h.size ==> r.size == h.size + h.chunk && r.chunk == 2 * h.chunk
    ensures |h.items| < h.size ==> r.size == h.size && r.chunk == h.chunk
    ensures 0 <= h.chunk ==> WellSized(r) && r.chunk >= h.chunk
  {
    var g := if |h.items| == h.size then Realloc(h, h.size + h.chunk).(chunk := h.chunk * 2) else h;
    g.(items := g.items + [o], dirty := true)
  }

  /** Exchanges two positions. */
  function Swap<T>(a: seq<T>, i: nat, j: nat): (b: seq<T>)
    requires i < |a| && j < |a|
    ensures |b| == |a| && b[i] == a[j] && b[j] == a[i]
    ensures forall k :: 0 <= k < |a| && k != i && k != j ==> b[k] == a[k]
    ensures multiset(b) == multiset(a)
  {
    var b := a[i := a[j]][j := a[i]];
    assert multiset(a[i := a[j]]) == multiset(a) - multiset{a[i]} + multiset{a[j]};
    b
  }

  /** The children of `k` are `2k+1` and `2k+2`. */
  lemma ChildrenOf(k: nat)
    ensures Parent(2 * k + 1) == k && Parent(2 * k + 2) == k
    ensures forall c :: 0 < c && Parent(c) == k ==> c == 2 * k + 1 || c == 2 * k + 2
  {
  }

  /** The order a sift-down keeps around its current position `k`: every
      pair from `root` down is ordered except those whose parent is `k`, and
      the parent of `k` does not follow any child of `k`. */
  ghost predicate SiftInvariant<T>(key: T -> int, b: seq<T>, root: nat, k: nat)
  {
    && (forall c :: 0 < c < |b| && Parent(c) >= root && Parent(c) != k ==> key(b[Parent(c)]) <= key(b[c]))
    && (k > root ==> k < |b| && Parent(k) >= root)
    && (k > root ==> forall c :: 0 < c < |b| && Parent(c) == k ==> key(b[Parent(k)]) <= key(b[c]))
  }

  /** Exchanging `k` with its least child `m` moves the hole down to `m`. */
  lemma SiftStep<T>(key: T -> int, b: seq<T>, root: nat, k: nat, m: nat)
    requires root <= k < m < |b| && (m == 2 * k + 1 || m == 2 * k + 2)
    requires key(b[m]) <= key(b[k])
    requires 2 * k + 1 < |b| ==> key(b[m]) <= key(b[2 * k + 1])
    requires 2 * k + 2 < |b| ==> key(b[m]) <= key(b[2 * k + 2])
    requires SiftInvariant(key, b, root, k)
    ensures SiftInvariant(key, Swap(b, k, m), root, m)
  {
    var b' := Swap(b, k, m);
    ChildrenOf(k);
    ChildrenOf(m);
    forall c | 0 < c < |b'| && Parent(c) >= root && Parent(c) != m
      ensures key(b'[Parent(c)]) <= key(b'[c])
    {
      if Parent(c) == k {
        assert b'[Parent(c)] == b[m];
        if c != m {
          assert b'[c] == b[c];
        }
      } else if c == k {
        assert b'[Parent(c)] == b[Parent(k)];
      } else {
        assert c != m;
        if Parent(c) == m {
          assert false;
        }
        assert b'[Parent(c)] == b[Parent(c)] && b'[c] == b[c];
      }
    }
    forall c | 0 < c < |b'| && Parent(c) == m
      ensures key(b'[Parent(m)]) <= key(b'[c])
    {
      assert c != k && c != m;
      assert b'[c] == b[c];
    }
  }

  /** Position `i` lies in the subtree rooted at position `r`. */
  predicate InSubtree(r: nat, i: nat)
    decreases i
  {
    i == r || (i > r && InSubtree(r, Parent(i)))
  }

  /** A subtree holds the subtrees of its own positions. */
  lemma {:induction false} SubtreeNests(k: nat, m: nat, i: nat)
    requires InSubtree(k, m) && InSubtree(m, i)
    ensures InSubtree(k, i)
    decreases i
  {
    if i != m {
      SubtreeNests(k, m, Parent(i));
    }
  }

  /** Once no child of `k` strictly precedes it, every pair from `root` down is ordered. */
  lemma SiftDone<T>(key: T -> int, b: seq<T>, root: nat, k: nat)
    requires root <= k && SiftInvariant(key, b, root, k)
    requires 2 * k + 1 < |b| ==> key(b[k]) <= key(b[2 * k + 1])
    requires 2 * k + 2 < |b| ==> key(b[k]) <= key(b[2 * k + 2])
    ensures OrderedFrom(key, b, root)
  {
    ChildrenOf(k);
  }

  /** `_Heapify(root)`: the item at the current position trades places with its least child while that child
      strictly precedes it.  Every pair below `root` is ordered on entry; on
      exit every pair from `root` down is, the items are a permutation of the
      input, and nothing outside the subtree of `root` moves. */
  method Heapify<T>(key: T -> int, a: seq<T>, root: nat) returns (b: seq<T>)
    requires OrderedFrom(key, a, root + 1)
    ensures |b| == |a| && multiset(b) == multiset(a)
    ensures forall i :: 0 <= i < root && i < |a| ==> b[i] == a[i]
    ensures forall i :: 0 <= i < |a| && !InSubtree(root, i) ==> b[i] == a[i]
    ensures OrderedFrom(key, b, root)
  {
    b := SiftDown(key, a, root, root);
  }

  /** One level of `_Heapify(root)` at position `k`: stop when neither child is
      smaller, else swap with the smaller child and continue from there. */
  method SiftDown<T>(key: T -> int, b: seq<T>, root: nat, k: nat) returns (b': seq<T>)
    requires root <= k && SiftInvariant(key, b, root, k)
    ensures |b'| == |b| && multiset(b') == multiset(b)
    ensures forall i :: 0 <= i < root && i < |b| ==> b'[i] == b[i]
    ensures forall i :: 0 <= i < |b| && !InSubtree(k, i) ==> b'[i] == b[i]
    ensures OrderedFrom(key, b', root)
    decreases |b| - k
  {
    var l := 2 * k + 1;
    var r := 2 * k + 2;
    var m := k;
    if l < |b| && Compare(key, b[l], b[m]) < 0 {
      m := l;
    }
    if r < |b| && Compare(key, b[r], b[m]) < 0 {
      m := r;
    }
    if m == k {
      SiftDone(key, b, root, k);
      return b;
    }
    SiftStep(key, b, root, k, m);
    var swapped := Swap(b, k, m);
    b' := SiftDown(key, swapped, root, m);
    forall i | 0 <= i < root && i < |b|
      ensures b'[i] == b[i]
    {
      assert b'[i] == swapped[i];
    }
    assert InSubtree(k, m) by {
      assert Parent(m) == k;
    }
    forall i | 0 <= i < |b| && !InSubtree(k, i)
      ensures b'[i] == b[i]
    {
      if InSubtree(m, i) {
        SubtreeNests(k, m, i);
      }
      assert b'[i] == swapped[i];
    }
  }

  /** Every child position of a sequence of length `n` has its parent among the first `n / 2`. */
  lemma ParentBelowHalf(c: nat, n: nat)
    requires 0 < c < n
    ensures Parent(c) <= n / 2 - 1
  {
  }

  /** `Sort()`: sifts down every internal node from the last one to the root,
      leaving the live items a heap-ordered permutation and the heap clean. */
  method Sort<T>(key: T -> int, h: Heap<T>) returns (r: Heap<T>)
    ensures multiset(r.items) == multiset(h.items) && |r.items| == |h.items|
    ensures HeapOrdered(key, r.items) && !r.dirty
    ensures r.size == h.size && r.chunk == h.chunk
  {
    var a := h.items;
    var i := |a| / 2 - 1;
    forall c | 0 < c < |a|
      ensures Parent(c) <= i
    {
      ParentBelowHalf(c, |a|);
    }
    while i >= 0
      invariant -1 <= i
      invariant |a| == |h.items| && multiset(a) == multiset(h.items)
      invariant OrderedFrom(key, a, i + 1)
    {
      a := Heapify(key, a, i);
      i := i - 1;
    }
    r := Heap(a, h.size, h.chunk, false);
  }

  /** In a heap-ordered sequence nothing precedes the root. */
  lemma {:induction false} RootIsLeast<T>(key: T -> int, a: seq<T>, i: nat)
    requires HeapOrdered(key, a) && i < |a|
    ensures key(a[0]) <= key(a[i])
    decreases i
  {
    if i > 0 {
      RootIsLeast(key, a, Parent(i));
    }
  }

  lemma RootIsLeastOfAll<T>(key: T -> int, a: seq<T>)
    requires HeapOrdered(key, a) && |a| > 0
    ensures forall x :: x in a ==> key(a[0]) <= key(x)
  {
    forall x | x in a
      ensures key(a[0]) <= key(x)
    {
      var i :| 0 <= i < |a| && a[i] == x;
      RootIsLeast(key, a, i);
    }
  }

  /** `Peek()`: resolves dirtiness, then returns the root, an element that no
      live element strictly precedes; `None` is the empty-heap exception. */
  method Peek<T>(key: T -> int, h: Heap<T>) returns (r: Option<T>, h': Heap<T>)
    requires Valid(h, key)
    ensures r.None? <==> h.IsEmpty()
    ensures r.None? ==> h' == h
    ensures !h.dirty ==> h' == h
    ensures |h'.items| == |h.items|
    ensures r.Some? ==> r.value == h'.items[0] && r.value in h.items
    ensures r.Some? ==> forall x :: x in h.items ==> key(r.value) <= key(x)
    ensures r.Some? ==> !h'.dirty
    ensures multiset(h'.items) == multiset(h.items) && Valid(h', key)
    ensures h'.size == h.size && h'.chunk == h.chunk
  {
    if h.IsEmpty() {
      return None, h;
    }
    h' := h;
    if h.dirty {
      h' := Sort(key, h);
    }
    assert h'.items[0] in multiset(h'.items);
    RootIsLeastOfAll(key, h'.items);
    forall x | x in h.items
      ensures x in h'.items
    {
      assert x in multiset(h.items);
    }
    r := Some(h'.items[0]);
  }

  /** Moving the last live item to the root and dropping the old root keeps
      every pair below the root ordered and removes one occurrence of the root. */
  lemma DropRoot<T>(key: T -> int, a: seq<T>)
    requires HeapOrdered(key, a) && |a| > 0
    ensures var live := if |a| == 1 then [] else [a[|a| - 1]] + a[1..|a| - 1];
      && |live| == |a| - 1
      && multiset(live) + multiset{a[0]} == multiset(a)
      && OrderedFrom(key, live, 1)
  {
    var n := |a|;
    if n > 1 {
      var live := [a[n - 1]] + a[1..n - 1];
      assert a == [a[0]] + a[1..n - 1] + [a[n - 1]];
      assert multiset(live) + multiset{a[0]} == multiset(a);
      KeepsLowerOrder(key, a, live);
    }
  }

  /** A sequence agreeing with a heap-ordered one everywhere but at the root
      keeps every pair below the root ordered. */
  lemma KeepsLowerOrder<T>(key: T -> int, a: seq<T>, live: seq<T>)
    requires HeapOrdered(key, a) && |live| < |a|
    requires forall c :: 0 < c < |live| ==> live[c] == a[c]
    ensures OrderedFrom(key, live, 1)
  {
    forall c | 0 < c < |live| && Parent(c) >= 1
      ensures key(live[Parent(c)]) <= key(live[c])
    {
      assert live[c] == a[c] && live[Parent(c)] == a[Parent(c)];
    }
  }

  /** `Pop()`: returns what `Peek()` returns, moves the last live item to the
      root, shrinks `Count` by one and sifts the root down once. */
  method Pop<T>(key: T -> int, h: Heap<T>) returns (r: Option<T>, h': Heap<T>)
    requires Valid(h, key)
    ensures r.None? <==> h.IsEmpty()
    ensures r.None? ==> h' == h
    ensures r.Some? && !h.dirty ==> r.value == h.items[0]
    ensures r.Some? ==> r.value in h.items && forall x :: x in h.items ==> key(r.value) <= key(x)
    ensures r.Some? ==> multiset(h'.items) + multiset{r.value} == multiset(h.items)
    ensures r.Some? ==> h'.Count() == h.Count() - 1 && HeapOrdered(key, h'.items) && !h'.dirty
    ensures Valid(h', key) && h'.size == h.size && h'.chunk == h.chunk
  {
    var top, s := Peek(key, h);
    if top.None? {
      return None, h;
    }
    var live := RemoveRoot(key, s.items);
    r := top;
    h' := Heap(live, s.size, s.chunk, false);
  }

  /** The part of `Pop()` after `Peek()`: the last item replaces the root, which
      is sifted down, leaving the other items in heap order. */
  method RemoveRoot<T>(key: T -> int, a: seq<T>) returns (live: seq<T>)
    requires HeapOrdered(key, a) && |a| > 0
    ensures |live| == |a| - 1 && HeapOrdered(key, live)
    ensures multiset(live) + multiset{a[0]} == multiset(a)
  {
    var n := |a|;
    live := if n == 1 then [] else [a[n - 1]] + a[1..n - 1];
    DropRoot(key, a);
    live := Heapify(key, live, 0);
  }
}
