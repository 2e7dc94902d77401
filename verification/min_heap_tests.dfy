/** The heap scenarios of Assets/Scripts/Editor/Tests/MinHeapTests.cs, stated
    as methods whose postconditions are the test assertions.  The tests use the
    comparator `(i, j) => i - j`, that is, the key is the integer itself, and
    every test starts from `Clear()`. */
module MinHeapTests {
  import opened Wrappers
  import opened MinHeap

  function Identity(i: int): int { i }

  /** No element occurs twice. */
  ghost predicate Distinct(s: seq<int>)
  {
    forall i, j :: 0 <= i < j < |s| ==> s[i] != s[j]
  }

  /** Distinct items occur once each. */
  lemma {:induction false} DistinctCountsOne(s: seq<int>)
    requires Distinct(s)
    ensures forall x :: multiset(s)[x] <= 1
  {
    if |s| > 0 {
      var t := s[1..];
      assert s == [s[0]] + t;
      assert Distinct(t) by {
        forall i, j | 0 <= i < j < |t|
          ensures t[i] != t[j]
        {
          assert t[i] == s[i + 1] && t[j] == s[j + 1];
        }
      }
      DistinctCountsOne(t);
      forall j | 0 <= j < |t|
        ensures t[j] != s[0]
      {
        assert t[j] == s[j + 1];
      }
      assert multiset(t)[s[0]] == 0;
    }
  }

  /** An item at two positions occurs at least twice. */
  lemma RepeatCountsTwo(s: seq<int>, i: nat, j: nat)
    requires i < j < |s| && s[i] == s[j]
    ensures multiset(s)[s[i]] >= 2
  {
    assert s == s[..j] + s[j..];
    assert s[i] in s[..j];
    assert s[j] in s[j..];
  }

  lemma DistinctIffSingleCounts(s: seq<int>)
    ensures Distinct(s) <==> forall x :: multiset(s)[x] <= 1
  {
    if Distinct(s) {
      DistinctCountsOne(s);
    } else {
      var i, j :| 0 <= i < j < |s| && s[i] == s[j];
      RepeatCountsTwo(s, i, j);
    }
  }

  /** Removing one occurrence of `r` from distinct items leaves exactly the
      other items, still distinct. */
  lemma RemoveFromDistinct(a: seq<int>, b: seq<int>, r: int)
    requires Distinct(a) && multiset(b) + multiset{r} == multiset(a)
    ensures Distinct(b)
    ensures forall x :: x in b <==> x in a && x != r
  {
    DistinctIffSingleCounts(a);
    DistinctIffSingleCounts(b);
    forall x
      ensures multiset(b)[x] <= 1
    {
      assert multiset(b)[x] <= multiset(a)[x];
    }
    forall x
      ensures x in b <==> x in a && x != r
    {
      assert x in b <==> x in multiset(b);
      assert x in a <==> x in multiset(a);
    }
  }

  /** `Pop()` under the test comparator, stated on distinct items. */
  method PopLeast(h: Heap<int>) returns (r: int, h': Heap<int>)
    requires Valid(h, Identity) && !h.IsEmpty() && Distinct(h.items)
    ensures r in h.items && forall x :: x in h.items ==> r <= x
    ensures forall x :: x in h'.items <==> x in h.items && x != r
    ensures Distinct(h'.items) && |h'.items| == |h.items| - 1
    ensures Valid(h', Identity) && h'.chunk == h.chunk
  {
    var o;
    o, h' := Pop(Identity, h);
    r := o.value;
    RemoveFromDistinct(h.items, h'.items, r);
  }

  /** `Peek()` under the test comparator, stated on distinct items. */
  method PeekLeast(h: Heap<int>) returns (r: int, h': Heap<int>)
    requires Valid(h, Identity) && !h.IsEmpty() && Distinct(h.items)
    ensures r in h.items && forall x :: x in h.items ==> r <= x
    ensures forall x :: x in h'.items <==> x in h.items
    ensures Distinct(h'.items) && |h'.items| == |h.items|
    ensures Valid(h', Identity) && h'.chunk == h.chunk
  {
    var o;
    o, h' := Peek(Identity, h);
    r := o.value;
    DistinctIffSingleCounts(h.items);
    DistinctIffSingleCounts(h'.items);
    forall x
      ensures x in h'.items <==> x in h.items
    {
      assert x in h'.items <==> x in multiset(h'.items);
      assert x in h.items <==> x in multiset(h.items);
    }
  }

  /** Push 1: the peek is 1. */
  method OneInsertion() returns (top: int)
    ensures top == 1
  {
    var h := Push(Clear(New<int>()), 1);
    assert h.items == [1];
    var h1;
    top, h1 := PeekLeast(h);
  }

  /** Push 1 and 0: the peek is 0. */
  method TwoInsertions() returns (top: int)
    ensures top == 0
  {
    var h := Push(Push(Clear(New<int>()), 1), 0);
    assert h.items == [1, 0];
    var h1;
    top, h1 := PeekLeast(h);
    assert 0 in h.items;
  }

  /** Push 1, 0 and 2: the peek is 0. */
  method ThreeInsertions() returns (top: int)
    ensures top == 0
  {
    var h := PushedThree();
    var h1;
    top, h1 := PeekLeast(h);
    assert 0 in h.items;
  }

  /** The heap of `ThreeInsertions` and `Removal` after their three pushes. */
  method PushedThree() returns (h: Heap<int>)
    ensures h.items == [1, 0, 2] && Valid(h, Identity) && Distinct(h.items)
  {
    h := Push(Push(Push(Clear(New<int>()), 1), 0), 2);
  }

  /** Push 1, 0 and 2: the pop is 0 and the next peek is 1. */
  method Removal() returns (popped: int, top: int)
    ensures popped == 0 && top == 1
  {
    var h := PushedThree();
    var h1, h2;
    popped, h1 := PopLeast(h);
    assert 0 in h.items;
    top, h2 := PeekLeast(h1);
    assert 1 in h1.items;
  }

  /** Push 3, 4, 2, peek, push 1: the pops come out as 1, 2, 3, 4. */
  method MultipleSiftSort() returns (p1: int, p2: int, p3: int, p4: int)
    ensures p1 == 1 && p2 == 2 && p3 == 3 && p4 == 4
  {
    var h := PushedSort();
    var h2, h3, h4, h5;
    p1, h2 := PopLeast(h);
    assert 1 in h.items;
    p2, h3 := PopLeast(h2);
    assert 2 in h2.items;
    p3, h4 := PopLeast(h3);
    assert 3 in h3.items;
    p4, h5 := PopLeast(h4);
    assert 4 in h4.items;
  }

  /** The heap of `MultipleSiftSort` before its pops: it holds 1 to 4 once each. */
  method PushedSort() returns (h: Heap<int>)
    ensures Valid(h, Identity) && Distinct(h.items) && |h.items| == 4
    ensures forall x :: x in h.items <==> 1 <= x <= 4
  {
    h := Clear(New<int>());
    h := Push(h, 3);
    h := Push(h, 4);
    h := Push(h, 2);
    var _, h1 := PeekThree(h);
    h := Push(h1, 1);
    assert h.items == h1.items + [1];
    assert Distinct(h.items) by {
      assert 1 !in h1.items;
    }
  }

  /** The peek in the middle of `MultipleSiftSort` leaves 2, 3 and 4 in heap order. */
  method PeekThree(h: Heap<int>) returns (r: int, h': Heap<int>)
    requires h.items == [3, 4, 2] && Valid(h, Identity)
    ensures Valid(h', Identity) && Distinct(h'.items) && |h'.items| == 3 && h'.chunk == h.chunk
    ensures forall x :: x in h'.items <==> 2 <= x <= 4
  {
    r, h' := PeekLeast(h);
  }

  /** Push 1 and 0, `Clean()`, push 2: the peek is 2 and the count is 1. */
  method ReuseClean() returns (top: int, count: nat)
    ensures top == 2 && count == 1
  {
    var h := Clear(New<int>());
    h := Push(h, 1);
    h := Push(h, 0);
    h := Clean(h);
    h := Push(h, 2);
    assert h.items == [2];
    var h1;
    top, h1 := PeekLeast(h);
    count := h1.Count();
  }

  /** Push 1 and 0, `Clear()`, push 2: the peek is 2 and the count is 1. */
  method ReuseClear() returns (top: int, count: nat)
    ensures top == 2 && count == 1
  {
    var h := Clear(New<int>());
    h := Push(h, 1);
    h := Push(h, 0);
    h := Clear(h);
    h := Push(h, 2);
    assert h.items == [2];
    var h1;
    top, h1 := PeekLeast(h);
    count := h1.Count();
  }

  /** Push 1 and 0, pop twice, push 2: no leftover, the peek is 2 and the count is 1. */
  method Reuse() returns (top: int, count: nat)
    ensures top == 2 && count == 1
  {
    var h := Clear(New<int>());
    h := Push(h, 1);
    h := Push(h, 0);
    assert h.items == [1, 0];
    var _, h1 := PopLeast(h);
    var _, h2 := PopLeast(h1);
    h := Push(h2, 2);
    assert h.items == [2];
    var h3;
    top, h3 := PeekLeast(h);
    count := h3.Count();
  }

  /** Push 2, 3, 4, 5, 6 and pop: the next peek is 3. */
  method MultipleSiftHeapifyLeft() returns (top: int)
    ensures top == 3
  {
    var h := PushedLeft();
    assert Distinct(h.items);
    var r1, h1 := PopLeast(h);
    assert 2 in h.items;
    var h2;
    top, h2 := PeekLeast(h1);
    assert 3 in h1.items;
  }

  /** The heap of `MultipleSiftHeapifyLeft` after its five pushes. */
  method PushedLeft() returns (h: Heap<int>)
    ensures h.items == [2, 3, 4, 5, 6] && Valid(h, Identity)
  {
    h := Clear(New<int>());
    h := Push(h, 2);
    h := Push(h, 3);
    h := Push(h, 4);
    h := Push(h, 5);
    h := Push(h, 6);
  }

  /** The heap of `MultipleSiftHeapifyRight` after its seven pushes. */
  method PushedRight() returns (h: Heap<int>)
    ensures h.items == [1, 3, 2, 5, 6, 7, 8] && Valid(h, Identity)
  {
    h := Clear(New<int>());
    h := Push(h, 1);
    h := Push(h, 3);
    h := Push(h, 2);
    h := Push(h, 5);
    h := Push(h, 6);
    h := Push(h, 7);
    h := Push(h, 8);
  }

  /** Push 1, 3, 2, 5, 6, 7, 8 and pop: the next peek is 2. */
  method MultipleSiftHeapifyRight() returns (top: int)
    ensures top == 2
  {
    var h := PushedRight();
    assert Distinct(h.items);
    var r1, h1 := PopLeast(h);
    assert 1 in h.items;
    var h2;
    top, h2 := PeekLeast(h1);
    assert 2 in h1.items;
  }
}
