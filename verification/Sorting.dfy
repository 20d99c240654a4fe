/** sort.Slice with a less-than on one number per element: sorted and a permutation, ties in any order. */
module Sorting {

  ghost predicate SortedBy<T>(xs: seq<T>, key: T -> real) {
    forall i, j :: 0 <= i < j < |xs| ==> key(xs[i]) <= key(xs[j])
  }

  method Sort<T>(xs: seq<T>, key: T -> real) returns (ys: seq<T>)
    ensures SortedBy(ys, key)
    ensures multiset(ys) == multiset(xs) && |ys| == |xs|
  {
    ys := [];
    for n := 0 to |xs|
      invariant SortedBy(ys, key)
      invariant |ys| == n && multiset(ys) == multiset(xs[..n])
    {
      ys := InsertInOrder(ys, xs[n], key);
      assert xs[..n + 1] == xs[..n] + [xs[n]];
    }
    assert xs[..|xs|] == xs;
  }

  method InsertInOrder<T>(ys: seq<T>, x: T, key: T -> real) returns (zs: seq<T>)
    requires SortedBy(ys, key)
    ensures SortedBy(zs, key)
    ensures multiset(zs) == multiset(ys) + multiset{x} && |zs| == |ys| + 1
  {
    var i := |ys|;
    while i > 0 && key(x) < key(ys[i - 1])
      invariant 0 <= i <= |ys|
      invariant forall j :: i <= j < |ys| ==> key(x) < key(ys[j])
    {
      i := i - 1;
    }
    zs := Spliced(ys, i, x);
  }

  /** `x` between the elements that do not exceed it and those above it. */
  function Spliced<T>(ys: seq<T>, i: nat, x: T): (zs: seq<T>)
    requires i <= |ys|
    ensures multiset(zs) == multiset(ys) + multiset{x} && |zs| == |ys| + 1
    ensures forall j :: 0 <= j < |zs| ==> zs[j] == if j < i then ys[j] else if j == i then x else ys[j - 1]
  {
    assert ys == ys[..i] + ys[i..];
    ys[..i] + [x] + ys[i..]
  }
}
