/** Images of sequences and of their permutations. */
module Bags {

  function Image<T, U>(xs: seq<T>, f: T -> U): (ys: seq<U>)
    ensures |ys| == |xs| && forall i :: 0 <= i < |xs| ==> ys[i] == f(xs[i])
  {
    seq(|xs|, i requires 0 <= i < |xs| => f(xs[i]))
  }

  lemma ImageAppend<T, U>(xs: seq<T>, ys: seq<T>, f: T -> U)
    ensures Image(xs + ys, f) == Image(xs, f) + Image(ys, f)
  {
  }

  function Without<T>(ys: seq<T>, i: nat): (zs: seq<T>)
    requires i < |ys|
    ensures |zs| == |ys| - 1
  {
    ys[..i] + ys[i + 1..]
  }

  lemma Removed<T>(ys: seq<T>, i: nat)
    requires i < |ys|
    ensures multiset(ys) == multiset(Without(ys, i)) + multiset{ys[i]}
  {
    assert ys == ys[..i] + ([ys[i]] + ys[i + 1..]);
  }

  lemma ImageWithout<T, U>(ys: seq<T>, i: nat, f: T -> U)
    requires i < |ys|
    ensures Image(Without(ys, i), f) == Without(Image(ys, f), i)
  {
  }

  lemma Cancel<T>(a: multiset<T>, b: multiset<T>, x: T)
    requires a + multiset{x} == b + multiset{x}
    ensures a == b
  {
    assert a == (a + multiset{x}) - multiset{x};
  }

  /** Permuting before the map permutes after it. */
  lemma {:induction false} ImagePermutes<T, U>(xs: seq<T>, ys: seq<T>, f: T -> U)
    requires multiset(xs) == multiset(ys)
    ensures multiset(Image(xs, f)) == multiset(Image(ys, f))
    decreases |xs|
  {
    hide Image, Without;
    if xs == [] {
      assert |multiset(ys)| == 0;
    } else {
      assert xs[0] in multiset(ys);
      var i :| 0 <= i < |ys| && ys[i] == xs[0];
      var us, vs := Without(xs, 0), Without(ys, i);
      Removed(xs, 0);
      Removed(ys, i);
      Cancel(multiset(us), multiset(vs), xs[0]);
      ImagePermutes(us, vs, f);
      ImageWithout(xs, 0, f);
      ImageWithout(ys, i, f);
      Removed(Image(xs, f), 0);
      Removed(Image(ys, f), i);
    }
  }
}
