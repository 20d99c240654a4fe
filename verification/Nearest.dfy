/** What a k-nearest-neighbour answer is, independently of any index, and the bookkeeping both tree
    searches keep on the way to one. */
module Nearest {
  import opened CoverShape

  datatype Neighbor = Neighbor(point: Point, distance: real)

  function At(query: Point, p: Point, dist: Distance): Neighbor {
    Neighbor(p, dist(query, p))
  }

  function Min(a: int, b: int): int {
    if a < b then a else b
  }

  ghost predicate Ascending(r: seq<Neighbor>) {
    forall i, j :: 0 <= i < j < |r| ==> r[i].distance <= r[j].distance
  }

  /** `r` lists min(k, n) of the stored points with their distances, nearest first, no stored point twice. */
  ghost predicate Listing(stored: multiset<Point>, query: Point, k: nat, dist: Distance, r: seq<Neighbor>) {
    && |r| == Min(k, |stored|)
    && Ascending(r)
    && (forall i :: 0 <= i < |r| ==> r[i].distance == dist(query, r[i].point))
    && (forall p :: multiset(r)[At(query, p, dist)] <= stored[p])
  }

  /** No stored point left out of `r` is closer than any point in it. */
  ghost predicate Closest(stored: multiset<Point>, query: Point, dist: Distance, r: seq<Neighbor>) {
    forall p, i :: 0 <= i < |r| && multiset(r)[At(query, p, dist)] < stored[p] ==> r[i].distance <= dist(query, p)
  }

  // ---------------------------------------------------------------- the answer is unique up to ties

  lemma SubBag<X>(a: multiset<X>, b: multiset<X>)
    requires forall y :: a[y] <= b[y]
    ensures |a| <= |b|
  {
    assert b == a + (b - a);
  }

  lemma MoreElements<X>(a: multiset<X>, b: multiset<X>) returns (x: X)
    requires |a| > |b|
    ensures a[x] > b[x]
  {
    if forall y :: a[y] <= b[y] {
      SubBag(a, b);
    }
    x :| a[x] > b[x];
  }

  lemma OccursBefore(r: seq<Neighbor>, i: nat, x: Neighbor)
    requires Ascending(r) && i < |r| && x.distance < r[i].distance
    ensures multiset(r)[x] == multiset(r[..i])[x]
  {
    assert r == r[..i] + r[i..];
    assert x !in r[i..];
  }

  /** Where `r` is nearer than `t` at position i, some point of `r` is missing from `t`. */
  lemma MissingFrom(stored: multiset<Point>, query: Point, k: nat, dist: Distance, r: seq<Neighbor>, t: seq<Neighbor>,
                    i: nat)
    returns (p: Point)
    requires Listing(stored, query, k, dist, r) && Listing(stored, query, k, dist, t)
    requires i < |r| && r[i].distance < t[i].distance
    ensures multiset(t)[At(query, p, dist)] < stored[p] && dist(query, p) <= r[i].distance
  {
    var x := MoreElements(multiset(r[..i + 1]), multiset(t[..i]));
    p := x.point;
    assert x in r[..i + 1];
    assert r == r[..i + 1] + r[i + 1..];
    OccursBefore(t, i, x);
    assert x == At(query, p, dist) && multiset(r)[x] <= stored[p];
  }

  lemma NotFurther(stored: multiset<Point>, query: Point, k: nat, dist: Distance, r: seq<Neighbor>, t: seq<Neighbor>,
                   i: nat)
    requires Listing(stored, query, k, dist, r) && Listing(stored, query, k, dist, t)
    requires Closest(stored, query, dist, t)
    requires i < |r|
    ensures t[i].distance <= r[i].distance
  {
    if r[i].distance < t[i].distance {
      var p := MissingFrom(stored, query, k, dist, r, t, i);
      assert false;
    }
  }

  /** Any two exact answers have the same distances, position by position. */
  lemma SameDistances(stored: multiset<Point>, query: Point, k: nat, dist: Distance, r: seq<Neighbor>, t: seq<Neighbor>)
    requires Listing(stored, query, k, dist, r) && Closest(stored, query, dist, r)
    requires Listing(stored, query, k, dist, t) && Closest(stored, query, dist, t)
    ensures |r| == |t| && forall i :: 0 <= i < |r| ==> r[i].distance == t[i].distance
  {
    forall i | 0 <= i < |r|
      ensures r[i].distance == t[i].distance
    {
      NotFurther(stored, query, k, dist, r, t, i);
      NotFurther(stored, query, k, dist, t, r, i);
    }
  }

  /** Asking for at least as many as are stored lists every stored point exactly as often as it is
      stored, whatever the distance function is. */
  lemma FullListing(stored: multiset<Point>, query: Point, k: nat, dist: Distance, r: seq<Neighbor>)
    requires Listing(stored, query, k, dist, r) && k >= |stored|
    ensures forall p :: multiset(r)[At(query, p, dist)] == stored[p]
    ensures Closest(stored, query, dist, r)
  {
    forall p ensures multiset(r)[At(query, p, dist)] == stored[p] {
      if multiset(r)[At(query, p, dist)] < stored[p] {
        PointsOfListing(stored - multiset{p}, query, dist, r);
        assert false;
      }
    }
  }

  /** A listing drawn from `stored` has no more elements than it. */
  lemma {:induction false} PointsOfListing(stored: multiset<Point>, query: Point, dist: Distance, r: seq<Neighbor>)
    requires forall i :: 0 <= i < |r| ==> r[i] == At(query, r[i].point, dist)
    requires forall p :: multiset(r)[At(query, p, dist)] <= stored[p]
    ensures |r| <= |stored|
  {
    if r == [] {
    } else {
      var n := |r| - 1;
      var last := r[n].point;
      assert r == r[..n] + [r[n]];
      assert multiset(r)[At(query, last, dist)] <= stored[last];
      PointsOfListing(stored - multiset{last}, query, dist, r[..n]);
    }
  }

  // ---------------------------------------------------------------- search state

  /** What a search has found when the points `done` are behind it (offered to the heap, or pruned):
      `items` are the k nearest of them.  The last clause is claimed only when pruning is exact. */
  ghost predicate Found(items: multiset<Neighbor>, done: multiset<Point>, query: Point, k: nat, dist: Distance,
                        exact: bool) {
    && |items| == Min(|done|, k)
    && (forall x :: x in items ==> x == At(query, x.point, dist))
    && (forall p :: items[At(query, p, dist)] <= done[p])
    && (|items| < k ==> forall p :: items[At(query, p, dist)] == done[p])
    && (exact ==> Nearer(items, done, query, dist))
  }

  ghost predicate Nearer(items: multiset<Neighbor>, done: multiset<Point>, query: Point, dist: Distance) {
    forall p, x :: x in items && items[At(query, p, dist)] < done[p] ==> x.distance <= dist(query, p)
  }

  lemma OfferToShort(items: multiset<Neighbor>, done: multiset<Point>, query: Point, k: nat, dist: Distance,
                     exact: bool, p: Point)
    requires Found(items, done, query, k, dist, exact) && |items| < k
    ensures Found(items + multiset{At(query, p, dist)}, done + multiset{p}, query, k, dist, exact)
  {
  }

  lemma OfferFurther(items: multiset<Neighbor>, done: multiset<Point>, query: Point, k: nat, dist: Distance,
                     exact: bool, p: Point)
    requires Found(items, done, query, k, dist, exact) && |items| == k
    requires forall x :: x in items ==> x.distance <= dist(query, p)
    ensures Found(items, done + multiset{p}, query, k, dist, exact)
  {
  }

  lemma OfferNearer(items: multiset<Neighbor>, done: multiset<Point>, query: Point, k: nat, dist: Distance, exact: bool,
                    p: Point, worst: Neighbor, rest: multiset<Neighbor>)
    requires Found(items, done, query, k, dist, exact) && |items| == k
    requires items == rest + multiset{worst}
    requires forall x :: x in items ==> x.distance <= worst.distance
    requires dist(query, p) < worst.distance
    ensures Found(rest + multiset{At(query, p, dist)}, done + multiset{p}, query, k, dist, exact)
  {
  }

  lemma Prune(items: multiset<Neighbor>, done: multiset<Point>, query: Point, k: nat, dist: Distance, exact: bool,
              gone: multiset<Point>)
    requires Found(items, done, query, k, dist, exact) && |items| == k
    requires exact ==> forall p, x :: p in gone && x in items ==> x.distance <= dist(query, p)
    ensures Found(items, done + gone, query, k, dist, exact)
  {
  }

  // ---------------------------------------------------------------- points waiting in a queue

  /** The points below all queue elements together. */
  ghost function Gather<X>(m: multiset<X>, below: X -> multiset<Point>): multiset<Point>
    decreases |m|
  {
    if m == multiset{} then multiset{}
    else
      var x :| x in m;
      Gather(m - multiset{x}, below) + below(x)
  }

  lemma {:induction false} GatherAdd<X>(m: multiset<X>, below: X -> multiset<Point>, x: X)
    ensures Gather(m + multiset{x}, below) == Gather(m, below) + below(x)
    decreases |m|
  {
    var more := m + multiset{x};
    var y :| y in more && Gather(more, below) == Gather(more - multiset{y}, below) + below(y);
    if y == x {
      assert more - multiset{y} == m;
    } else {
      var less := m - multiset{y};
      assert more - multiset{y} == less + multiset{x};
      assert less + multiset{y} == m;
      GatherAdd(less, below, x);
      GatherAdd(less, below, y);
    }
  }
}
