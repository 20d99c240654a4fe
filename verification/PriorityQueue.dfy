/** The array heap behind both searches: Go's container/heap operations over the slices `Neighbors`
    and `nodeQueue`.  Both slices order their elements by one number (`-Distance` and `lb`), so the
    heap is generic in that key.  The slices are local to a search, so they are values here. */
module PriorityQueue {

  function Parent(i: int): int
    requires i > 0
  {
    (i - 1) / 2
  }

  ghost predicate IsHeap<T>(items: seq<T>, key: T -> real) {
    forall i :: 0 < i < |items| ==> key(items[Parent(i)]) <= key(items[i])
  }

  /** The heap order puts an element with the smallest key at the root. */
  lemma {:induction false} RootIsLeast<T>(items: seq<T>, key: T -> real, i: nat)
    requires IsHeap(items, key) && i < |items|
    ensures key(items[0]) <= key(items[i])
    decreases i
  {
    if i == 0 {
    } else {
      RootIsLeast(items, key, Parent(i));
    }
  }

  lemma RootIsLeastOfAll<T>(items: seq<T>, key: T -> real)
    requires IsHeap(items, key)
    ensures forall x :: x in multiset(items) ==> key(items[0]) <= key(x)
  {
    forall x | x in multiset(items)
      ensures key(items[0]) <= key(x)
    {
      var i :| 0 <= i < |items| && items[i] == x;
      RootIsLeast(items, key, i);
    }
  }

  ghost predicate HeapExceptAt<T>(items: seq<T>, key: T -> real, j: int) {
    && (forall i :: 0 < i < |items| && i != j ==> key(items[Parent(i)]) <= key(items[i]))
    && (forall i :: 0 < i < |items| && j > 0 && Parent(i) == j ==> key(items[Parent(j)]) <= key(items[i]))
  }

  ghost predicate HeapExceptBelow<T>(items: seq<T>, key: T -> real, j: int) {
    && (forall i :: 0 < i < |items| && Parent(i) != j ==> key(items[Parent(i)]) <= key(items[i]))
    && (forall i :: 0 < i < |items| && j > 0 && Parent(i) == j ==> key(items[Parent(j)]) <= key(items[i]))
  }

  function Swap<T>(s: seq<T>, i: nat, j: nat): (r: seq<T>)
    requires i < |s| && j < |s|
    ensures |r| == |s| && multiset(r) == multiset(s)
  {
    s[i := s[j]][j := s[i]]
  }

  /** One sift-up step: everything is in order but the edge above `j`. */
  lemma SiftUpStep<T>(items: seq<T>, key: T -> real, j: nat)
    requires HeapExceptAt(items, key, j)
    requires 0 < j < |items| && key(items[j]) < key(items[Parent(j)])
    ensures HeapExceptAt(Swap(items, Parent(j), j), key, Parent(j))
  {
    var i := Parent(j);
    var r := Swap(items, i, j);
    forall c | 0 < c < |r| && c != i
      ensures key(r[Parent(c)]) <= key(r[c])
    {
      assert c != j ==> r[c] == items[c] && key(items[Parent(c)]) <= key(items[c]);
    }
    forall c | 0 < c < |r| && i > 0 && Parent(c) == i
      ensures key(r[Parent(i)]) <= key(r[c])
    {
      assert r[c] == if c == j then items[i] else items[c];
      assert key(items[Parent(i)]) <= key(items[i]) <= key(r[c]);
    }
  }

  /** One sift-down step: `j` is the child of `i` with the least key. */
  lemma SiftDownStep<T>(items: seq<T>, key: T -> real, i: nat, j: nat)
    requires HeapExceptBelow(items, key, i)
    requires 0 < j < |items| && Parent(j) == i && key(items[j]) < key(items[i])
    requires forall c :: 0 < c < |items| && Parent(c) == i ==> key(items[j]) <= key(items[c])
    ensures HeapExceptBelow(Swap(items, i, j), key, j)
  {
  }

  /** heap.Push: append, then sift the new element up. */
  method Push<T>(heap: seq<T>, key: T -> real, x: T) returns (items: seq<T>)
    requires IsHeap(heap, key)
    ensures IsHeap(items, key)
    ensures multiset(items) == multiset(heap) + multiset{x} && |items| == |heap| + 1
  {
    items := heap + [x];
    var j := |heap|;
    assert forall i :: 0 < i < |heap| ==> 0 <= Parent(i) < i;
    while j > 0 && key(items[j]) < key(items[Parent(j)])
      invariant 0 <= j < |items| == |heap| + 1
      invariant HeapExceptAt(items, key, j)
      invariant multiset(items) == multiset(heap) + multiset{x}
    {
      SiftUpStep(items, key, j);
      items := Swap(items, Parent(j), j);
      j := Parent(j);
    }
  }

  /** heap.Pop: move the last element to the root, sift it down, return the old root. */
  method Pop<T>(heap: seq<T>, key: T -> real) returns (x: T, items: seq<T>)
    requires IsHeap(heap, key) && heap != []
    ensures IsHeap(items, key)
    ensures x == heap[0] && forall y :: y in multiset(heap) ==> key(x) <= key(y)
    ensures multiset(heap) == multiset(items) + multiset{x} && |items| == |heap| - 1
  {
    RootIsLeastOfAll(heap, key);
    var n := |heap| - 1;
    x := heap[0];
    items := Swap(heap, 0, n);
    assert items == items[..n] + [x];
    items := SiftDown(items[..n], key);
  }

  /** The child of `i` with the least key. */
  method LeastChild<T>(items: seq<T>, key: T -> real, i: nat) returns (j: nat)
    requires 2 * i + 1 < |items|
    ensures 0 < j < |items| && Parent(j) == i
    ensures forall c :: 0 < c < |items| && Parent(c) == i ==> key(items[j]) <= key(items[c])
  {
    j := 2 * i + 1;
    if j + 1 < |items| && key(items[j + 1]) < key(items[j]) {
      j := j + 1;
    }
    assert forall c :: 0 < c < |items| && Parent(c) == i ==> c == 2 * i + 1 || c == 2 * i + 2;
  }

  method SiftDown<T>(heap: seq<T>, key: T -> real) returns (items: seq<T>)
    requires HeapExceptBelow(heap, key, 0)
    ensures IsHeap(items, key)
    ensures multiset(items) == multiset(heap) && |items| == |heap|
  {
    items := heap;
    var i := 0;
    while 2 * i + 1 < |items|
      invariant 0 <= i && |items| == |heap|
      invariant HeapExceptBelow(items, key, i)
      invariant multiset(items) == multiset(heap)
    {
      var j := LeastChild(items, key, i);
      if key(items[i]) <= key(items[j]) {
        return;
      }
      SiftDownStep(items, key, i, j);
      items := Swap(items, i, j);
      i := j;
    }
  }
}
