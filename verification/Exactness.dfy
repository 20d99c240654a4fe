/** When the searches are exact: a metric makes every bound sound, the Euclidean formula is one, and
    both searches then agree.  Runs of the cosine distance and of the level bound that miss the nearest
    point show where exactness stops. */
module Exactness {
  import opened Wire
  import opened Bags
  import opened BruteForce
  import opened CoverIndex
  import opened CoverShape
  import opened CoverTree
  import opened Nearest
  import opened TreeSearch
  import opened Vectors

  // ---------------------------------------------------------------- the exact condition

  /** Every node's bound reaches every point below it. */
  ghost predicate BoundsReach(s: Snapshot) {
    forall n, p :: n in s.view && p in Contents(s.view[n]) ==>
      Between(s.dist, s.view[n].point, p) <= Bound(s, s.view[n])
  }

  /** Over a metric, the bounds a search prunes by are sound for every query exactly when every node's
      bound reaches every point below it. */
  lemma SoundBoundsIff(s: Snapshot, universe: iset<Point>)
    requires Metric(s.dist, universe) && forall p :: p in universe ==> Between(s.dist, p, p) == 0.0
    requires forall n, p :: n in s.view && p in Contents(s.view[n]) ==> p in universe
    ensures (forall q :: q in universe ==> SoundBounds(s, q)) <==> BoundsReach(s)
  {
    hide Bound, Contents;
    if BoundsReach(s) {
      forall q | q in universe
        ensures SoundBounds(s, q)
      {
        ReachingIsSound(s, universe, q);
      }
    }
    if forall q :: q in universe ==> SoundBounds(s, q) {
      forall n, p | n in s.view && p in Contents(s.view[n])
        ensures Between(s.dist, s.view[n].point, p) <= Bound(s, s.view[n])
      {
        assert SoundBounds(s, p);
        assert s.dist(p, p) == Between(s.dist, p, p) == 0.0;
        assert s.view[n].point in Contents(s.view[n]);
        assert s.dist(p, s.view[n].point) == s.dist(s.view[n].point, p);
      }
    }
  }

  lemma ReachingIsSound(s: Snapshot, universe: iset<Point>, q: Point)
    requires Metric(s.dist, universe) && q in universe && BoundsReach(s)
    requires forall n, p :: n in s.view && p in Contents(s.view[n]) ==> p in universe
    ensures SoundBounds(s, q)
  {
    hide Bound, Contents;
    forall n, p | n in s.view && p in Contents(s.view[n])
      ensures s.dist(q, s.view[n].point) - Bound(s, s.view[n]) <= s.dist(q, p)
    {
      assert s.view[n].point in Contents(s.view[n]);
      assert Between(s.dist, s.view[n].point, p) == s.dist(s.view[n].point, p) == s.dist(p, s.view[n].point);
      assert s.dist(q, s.view[n].point) <= s.dist(q, p) + s.dist(p, s.view[n].point);
    }
  }

  /** Any two answers that meet the searches' contract under sound bounds have the same distances:
      depth-first and best-first return the same distance sequence. */
  lemma SearchesAgree(s: Snapshot, query: Point, k: nat, depthFirst: seq<Neighbor>, bestFirst: seq<Neighbor>)
    requires SoundBounds(s, query) || ExactPruning(s, query)
    requires Listing(Points(s), query, k, s.dist, depthFirst) && Listing(Points(s), query, k, s.dist, bestFirst)
    requires SoundBounds(s, query) || ExactPruning(s, query) ==> Closest(Points(s), query, s.dist, depthFirst)
    requires SoundBounds(s, query) || ExactPruning(s, query) ==> Closest(Points(s), query, s.dist, bestFirst)
    ensures |depthFirst| == |bestFirst|
    ensures forall i :: 0 <= i < |depthFirst| ==> depthFirst[i].distance == bestFirst[i].distance
  {
    SameDistances(Points(s), query, k, s.dist, depthFirst, bestFirst);
  }

  // ---------------------------------------------------------------- Euclidean indexes are exact

  /** The Euclidean distance of the vector library is the L2 formula. */
  ghost predicate EuclideanIsL2(lib: Library, sqrt: real -> real) {
    forall p: Point, q: Point :: |p.vector| == |q.vector| ==>
      lib.euclidean(p, q) == L2(Reals(lib.val, p.vector), Reals(lib.val, q.vector), sqrt)
  }

  /** Among points of one dimension the Euclidean distance is a metric. */
  lemma EuclideanIsMetric(lib: Library, sqrt: real -> real, universe: iset<Point>, dim: nat)
    requires IsSqrt(sqrt) && EuclideanIsL2(lib, sqrt)
    requires forall p: Point :: p in universe ==> |p.vector| == dim
    ensures Metric(lib.euclidean, universe)
  {
    forall p, q | p in universe && q in universe
      ensures lib.euclidean(p, q) == lib.euclidean(q, p)
    {
      L2Symmetric(Reals(lib.val, p.vector), Reals(lib.val, q.vector), sqrt);
    }
    forall p, q, r | p in universe && q in universe && r in universe
      ensures lib.euclidean(p, r) <= lib.euclidean(p, q) + lib.euclidean(q, r)
    {
      L2Triangle(Reals(lib.val, p.vector), Reals(lib.val, q.vector), Reals(lib.val, r.vector), sqrt);
    }
  }

  /** A Euclidean tree with per-node bounds is searched exactly by every query of its dimension. */
  lemma EuclideanSearchIsExact(t: Tree, s: Snapshot, query: Point, sqrt: real -> real)
    requires Ready(t, s) && t.metric == Euclidean && t.boundStrategy == BoundPerNode
    requires IsSqrt(sqrt) && EuclideanIsL2(t.lib, sqrt)
    requires forall p: Point :: p in Points(s) ==> |p.vector| == |query.vector|
    ensures ExactPruning(s, query)
  {
    SnapshotHolds(t, s);
    EuclideanIsMetric(t.lib, sqrt, Universe(Points(s), query), |query.vector|);
  }

  lemma PointsHaveDimension(lib: Library, vecs: seq<seq<U32>>, dim: nat, p: Point)
    requires p in multiset(PointsOf(lib, vecs)) && forall i :: 0 <= i < |vecs| ==> |vecs[i]| == dim
    ensures |p.vector| == dim
  {
    var i :| 0 <= i < |vecs| && PointsOf(lib, vecs)[i] == p;
  }

  /** An index built with the Euclidean distance and per-node bounds answers every query with the
      min(k, n) nearest stored points: no point left out is closer than one reported. */
  lemma BuiltEuclideanIndexIsExact(index: CoverIndex.Index, sqrt: real -> real, q: seq<U32>, k: int,
                                   neighbors: seq<Neighbor>, r: Result<seq<Hit>>)
    requires index.Valid() && index.tree != null && |index.ids| == |index.vecs|
    requires Filled(index.tree, index.ids, index.vecs) && Uniform(Items(index.dim, index.ids, index.vecs))
    requires index.tree.metric == Euclidean && index.tree.boundStrategy == BoundPerNode
    requires IsSqrt(sqrt) && EuclideanIsL2(index.lib, sqrt)
    requires Reports(index.lib, index.tree.Bag(), index.tree.values, index.dim, index.tree.Dist(), q, k, neighbors, r)
    requires r.Ok? && r.value != []
    requires ExactPruning(Snap(index.tree), QueryPoint(index.lib, q)) ==>
               Closest(index.tree.Bag(), QueryPoint(index.lib, q), index.tree.Dist(), neighbors)
    ensures Listing(index.tree.Bag(), QueryPoint(index.lib, q), Wanted(k, |index.ids|), index.lib.euclidean, neighbors)
    ensures Closest(index.tree.Bag(), QueryPoint(index.lib, q), index.lib.euclidean, neighbors)
  {
    hide Filled, Tree.Valid, ExactPruning, Listing, Closest, EuclideanIsL2, PointsOf, Points, Ready, Snap;
    var t, s := index.tree, Snap(index.tree);
    FilledKeeps(t, index.ids, index.vecs);
    TreeIsReady(t, s);
    SnapshotHolds(t, s);
    forall p: Point | p in Points(s)
      ensures |p.vector| == |QueryPoint(index.lib, q).vector|
    {
      PointsHaveDimension(index.lib, index.vecs, index.dim, p);
    }
    EuclideanSearchIsExact(t, s, QueryPoint(index.lib, q), sqrt);
  }

  /** The reported score keeps the order of two distances exactly as long as the nearer is below 2:
      from there on every distance is reported as -1. */
  lemma ScoresKeepOrderIff(near: real, far: real)
    requires 0.0 <= near < far
    ensures Clamp(1.0 - near) > Clamp(1.0 - far) <==> near < 2.0
    ensures near >= 2.0 ==> Clamp(1.0 - near) == Clamp(1.0 - far) == -1.0
  {
  }

  // ---------------------------------------------------------------- searches that miss the nearest point

  /** The root alone is an exact answer exactly when no stored point is closer. */
  lemma RootAloneIsExactIff(stored: multiset<Point>, query: Point, dist: Distance, root: Point)
    ensures Closest(stored, query, dist, [At(query, root, dist)])
            <==> forall p :: p in stored ==> Between(dist, query, root) <= Between(dist, query, p)
  {
    var r := [At(query, root, dist)];
    assert multiset(r) == multiset{r[0]};
    forall p | p in stored && !(Between(dist, query, root) <= Between(dist, query, p))
      ensures !Closest(stored, query, dist, r)
    {
      assert At(query, p, dist) != r[0];
      assert multiset(r)[At(query, p, dist)] == 0;
    }
  }

  /** Three insertions: the second lands below the first, the third wraps both. */
  lemma AttachThenWrap(a: Point, b: Point, c: Point, base: real, dist: Distance)
    requires base > 1.0 && Between(dist, b, a) < 1.0 <= Between(dist, c, a)
    ensures Grown([a, b, c], base, dist) ==
            Some(Shape(1, Pow(base, 1), c, [Shape(0, 1.0, a, [Shape(-1, Pow(base, -1), b, [])])]))
  {
    PowZero(base);
    assert [a, b, c][..2] == [a, b] && [a, b][..1] == [a] && [a][..0] == [];
    var first := Shape(0, 1.0, a, []);
    var second := Shape(0, 1.0, a, [Shape(-1, Pow(base, -1), b, [])]);
    assert Grown([a], base, dist) == Some(first);
    assert Place(first, b, 0, base, dist) == Attach(a, -1);
    assert first.children + [Shape(-1, Pow(base, -1), b, [])] == second.children;
    assert Grown([a, b], base, dist) == Some(second);
    assert Place(second, c, 0, base, dist) == Wrap(1);
  }

  /** Three insertions: each wraps what was there. */
  lemma WrapTwice(a: Point, b: Point, c: Point, base: real, dist: Distance)
    requires base > 1.0 && Between(dist, b, a) >= 1.0 && Between(dist, c, b) >= base
    ensures Grown([a, b, c], base, dist) ==
            Some(Shape(2, Pow(base, 2), c, [Shape(1, base, b, [Shape(0, 1.0, a, [])])]))
  {
    PowZero(base);
    PowStep(base, 0);
    assert Pow(base, 1) == base;
    assert [a, b, c][..2] == [a, b] && [a, b][..1] == [a] && [a][..0] == [];
    var first := Shape(0, 1.0, a, []);
    var second := Shape(1, base, b, [first]);
    assert Grown([a], base, dist) == Some(first);
    assert Place(first, b, 0, base, dist) == Wrap(1);
    assert Grown([a, b], base, dist) == Some(second);
    assert Place(second, c, 1, base, dist) == Wrap(2);
    assert Place(second, c, 0, base, dist) == Wrap(2);
  }

  /** Whatever the distance: when the root is nearer than the bound of its only child's subtree lets any
      point below seem, a search for one neighbour answers the root. */
  lemma RadiusStops(s: Snapshot, query: Point, a: Point, b: Point, c: Point, leaf: Shape)
    requires s.boundStrategy == BoundPerNode && s.root != null && s.root in s.view
    requires s.view[s.root].point == c && leaf.point == b && leaf.children == []
    requires s.view[s.root].children == [Shape(0, 1.0, a, [leaf])]
    requires Between(s.dist, a, b) >= 0.0
    requires Between(s.dist, query, a) - Between(s.dist, a, b) >= Between(s.dist, query, c)
    ensures StopsAtRoot(s, query)
  {
    var child := Shape(0, 1.0, a, [leaf]);
    assert Reach(child, 0, s.dist) == 0.0;
    assert Radius(leaf, s.dist) == 0.0;
    assert Reach(child, 1, s.dist) == Max(0.0, s.dist(a, b) + 0.0);
    assert Radius(child, s.dist) == s.dist(a, b);
  }

  lemma LevelStops(s: Snapshot, query: Point, b: Point, c: Point, below: seq<Shape>)
    requires s.boundStrategy == BoundLevel && s.root != null && s.root in s.view
    requires s.view[s.root].point == c && s.view[s.root].children == [Shape(1, s.baseValue, b, below)]
    requires Between(s.dist, query, b) - LevelRadius(s.baseValue, s.baseValue) >= Between(s.dist, query, c)
    ensures StopsAtRoot(s, query)
  {
  }

  /** A few numbers as IEEE 754 binary32 patterns. */
  const ZERO: U32 := 0
  const ONE: U32 := 0x3F800000
  const TWO: U32 := 0x40000000
  const THREE: U32 := 0x40400000
  const TWENTY_ONE: U32 := 0x41A80000
  const MINUS_FOUR: U32 := 0xC0800000

  ghost predicate Ieee(val: U32 -> real) {
    && val(ZERO) == 0.0 && val(ONE) == 1.0 && val(TWO) == 2.0 && val(THREE) == 3.0
    && val(TWENTY_ONE) == 21.0 && val(MINUS_FOUR) == -4.0
    && val(DEFAULT_BASE) == 10905190.0 / 8388608.0
  }

  lemma DotOfTwo(a: Vec, b: Vec)
    requires |a| == |b| == 2
    ensures Dot(a, b) == a[0] * b[0] + a[1] * b[1]
  {
    assert Dot(a[..1][..0], b[..1][..0]) == 0.0;
    assert Dot(a[..1], b[..1]) == a[0] * b[0];
  }

  lemma NormOfTwo(f: Floats, v: seq<U32>, n: real)
    requires IsSqrt(f.sqrt) && |v| == 2 && n >= 0.0
    requires f.val(v[0]) * f.val(v[0]) + f.val(v[1]) * f.val(v[1]) == n * n
    ensures Norm(f, v) == n
  {
    var a := Reals(f.val, v);
    DotOfTwo(a, a);
    SquareIsPositive(n);
    var m := f.sqrt(n * n);
    assert m >= 0.0 && m * m == n * n;
    assert Dot(a, a) == n * n;
    RootOrder(m, n);
    RootOrder(n, m);
  }

  lemma ScoreOfTwo(f: Floats, q: seq<U32>, v: seq<U32>, m: real, n: real)
    requires |q| == |v| == 2 && Norm(f, q) == m > 0.0 && Norm(f, v) == n > 0.0
    ensures m * n != 0.0
    ensures Score(f, q, v) == (f.val(q[0]) * f.val(v[0]) + f.val(q[1]) * f.val(v[1])) / (m * n)
  {
    DotOfTwo(Reals(f.val, q), Reals(f.val, v));
  }

  /** The vectors of the cosine run. */
  const UP: seq<U32> := [ZERO, ONE]
  const DIAGONAL: seq<U32> := [ONE, ONE]
  const DOWN: seq<U32> := [THREE, MINUS_FOUR]
  const RIGHT: seq<U32> := [ONE, ZERO]

  lemma RunNorms(f: Floats) returns (root2: real)
    requires IsSqrt(f.sqrt) && Ieee(f.val)
    ensures root2 * root2 == 2.0 && 1.25 < root2 < 1.5
    ensures Norm(f, UP) == 1.0 && Norm(f, DIAGONAL) == root2 && Norm(f, DOWN) == 5.0 && Norm(f, RIGHT) == 1.0
  {
    root2 := f.sqrt(2.0);
    RootOrder(1.25, root2);
    RootOrder(root2, 1.5);
    NormOfTwo(f, UP, 1.0);
    NormOfTwo(f, DIAGONAL, root2);
    NormOfTwo(f, DOWN, 5.0);
    NormOfTwo(f, RIGHT, 1.0);
  }

  /** The scores of the cosine run; 1/root2 is half of root2. */
  lemma RunScores(f: Floats) returns (h: real)
    requires IsSqrt(f.sqrt) && Ieee(f.val)
    ensures Norm(f, UP) > 0.0 && Norm(f, DIAGONAL) > 0.0 && Norm(f, DOWN) > 0.0 && Norm(f, RIGHT) > 0.0
    ensures forall u, v :: u in [UP, DIAGONAL, DOWN, RIGHT] && v in [UP, DIAGONAL, DOWN, RIGHT] ==>
              Norm(f, u) * Norm(f, v) != 0.0
    ensures 0.625 < h < 0.75
    ensures Score(f, RIGHT, UP) == 0.0 && Score(f, RIGHT, DIAGONAL) == h && Score(f, RIGHT, DOWN) == 0.6
    ensures Score(f, DIAGONAL, UP) == h && Score(f, UP, DIAGONAL) == h && Score(f, DOWN, UP) == -0.8
  {
    var root2 := RunNorms(f);
    h := 1.0 / root2;
    assert h == root2 / 2.0;
    ScoreOfTwo(f, RIGHT, UP, 1.0, 1.0);
    ScoreOfTwo(f, RIGHT, DIAGONAL, 1.0, root2);
    ScoreOfTwo(f, RIGHT, DOWN, 1.0, 5.0);
    ScoreOfTwo(f, DIAGONAL, UP, root2, 1.0);
    ScoreOfTwo(f, UP, DIAGONAL, 1.0, root2);
    ScoreOfTwo(f, DOWN, UP, 5.0, 1.0);
  }

  ghost predicate CosineRun(dist: Distance, a: Point, b: Point, c: Point, query: Point) {
    && Between(dist, b, a) < 1.0 <= Between(dist, c, a) && Between(dist, a, b) >= 0.0
    && Between(dist, query, a) - Between(dist, a, b) >= Between(dist, query, c)
    && Between(dist, query, c) == 0.4 && Between(dist, query, b) < 0.4
  }

  lemma CosineRunDistances(lib: Library, f: Floats)
    requires CosineLibrary(lib, f) && Ieee(f.val)
    ensures var ps := PointsOf(lib, [UP, DIAGONAL, DOWN]);
            CosineRun(lib.cosine, ps[0], ps[1], ps[2], QueryPoint(lib, RIGHT))
    ensures lib.val(lib.magnitude(RIGHT)) != 0.0 && IsSqrt(f.sqrt)
  {
    hide Norm, Score;
    var h := RunScores(f);
    var ps, q := PointsOf(lib, [UP, DIAGONAL, DOWN]), QueryPoint(lib, RIGHT);
    CosineIs(lib, f, ps[1], ps[0]);
    CosineIs(lib, f, ps[2], ps[0]);
    CosineIs(lib, f, ps[0], ps[1]);
    CosineIs(lib, f, q, ps[0]);
    CosineIs(lib, f, q, ps[1]);
    CosineIs(lib, f, q, ps[2]);
  }

  lemma CosineIs(lib: Library, f: Floats, p: Point, q: Point)
    requires CosineLibrary(lib, f) && |p.vector| == |q.vector|
    requires p.magnitude == lib.magnitude(p.vector) && q.magnitude == lib.magnitude(q.vector)
    requires Norm(f, p.vector) * Norm(f, q.vector) != 0.0
    ensures Between(lib.cosine, p, q) == 1.0 - Score(f, p.vector, q.vector)
  {
  }

  /** What a filled tree looks like from a query. */
  lemma FilledLooks(t: Tree, ids: seq<Bytes>, vectors: seq<seq<U32>>)
    requires |ids| == |vectors| && Filled(t, ids, vectors)
    ensures t.Base() > 1.0 && t.Bag() == multiset(PointsOf(t.lib, vectors))
    ensures Grown(PointsOf(t.lib, vectors), t.Base(), t.Dist()).Some? ==>
              && t.root != null && t.root in t.view
              && t.view[t.root] == Grown(PointsOf(t.lib, vectors), t.Base(), t.Dist()).value
  {
  }

  lemma CosineRunStops(t: Tree, ids: seq<Bytes>, query: Point)
    requires |ids| == 3 && Filled(t, ids, [UP, DIAGONAL, DOWN]) && t.boundStrategy == BoundPerNode
    requires var ps := PointsOf(t.lib, [UP, DIAGONAL, DOWN]); CosineRun(t.Dist(), ps[0], ps[1], ps[2], query)
    ensures StopsAtRoot(Snap(t), query)
    ensures t.root in t.view && t.view[t.root].point == PointsOf(t.lib, [UP, DIAGONAL, DOWN])[2]
  {
    hide Filled, Grown, StopsAtRoot, Pow;
    var ps := PointsOf(t.lib, [UP, DIAGONAL, DOWN]);
    FilledLooks(t, ids, [UP, DIAGONAL, DOWN]);
    assert ps == [ps[0], ps[1], ps[2]];
    AttachThenWrap(ps[0], ps[1], ps[2], t.Base(), t.Dist());
    RadiusStops(Snap(t), query, ps[0], ps[1], ps[2], Shape(-1, Pow(t.Base(), -1), ps[1], []));
  }

  lemma RunDistance(dist: Distance, a: Point, b: Point, c: Point, query: Point)
    requires CosineRun(dist, a, b, c, query)
    ensures Between(dist, query, c) == 0.4
  {
  }

  lemma NotEmptyAnswer(bag: multiset<Point>, query: Point, k: nat, dist: Distance, neighbors: seq<Neighbor>,
                       ids: seq<Bytes>)
    requires Listing(bag, query, k, dist, neighbors) && k > 0 && |bag| > 0
    ensures Image(neighbors, HitOf(ids)) != []
  {
  }

  lemma AnswerOfRoot(r: Result<seq<Hit>>, neighbors: seq<Neighbor>, ids: seq<Bytes>, query: Point, root: Point, d: real,
                     dist: Distance)
    requires r == Ok(Image(neighbors, HitOf(ids))) && neighbors == [At(query, root, dist)]
    requires 0 <= root.index < |ids| && Between(dist, query, root) == d && 0.0 <= d <= 2.0
    ensures r == Ok([Hit(ids[root.index], 1.0 - d)])
  {
    assert Image(neighbors, HitOf(ids)) == [HitOf(ids)(neighbors[0])];
  }

  /** A query for one neighbour of a filled index whose search stops at the root. */
  method AskOne(index: CoverIndex.Index, ids: seq<Bytes>, vectors: seq<seq<U32>>, q: seq<U32>, ghost root: Point,
                ghost d: real) returns (r: Result<seq<Hit>>)
    requires index.Valid() && index.tree != null && |ids| == |vectors| > 0 && index.ids == ids
    requires Filled(index.tree, ids, vectors) && index.dim == |q| > 0 && index.lib.val(index.lib.magnitude(q)) != 0.0
    requires StopsAtRoot(Snap(index.tree), QueryPoint(index.lib, q))
    requires index.tree.root in index.tree.view && index.tree.view[index.tree.root].point == root
    requires 0 <= root.index < |ids| && 0.0 <= d <= 2.0
    requires Between(index.tree.Dist(), QueryPoint(index.lib, q), root) == d
    modifies index.tree.view.Keys
    ensures r == Ok([Hit(ids[root.index], 1.0 - d)])
  {
    hide Tree.Valid, Filled, StopsAtRoot, Listing, Closest, SoundBounds, ExactPruning, PointsOf, Image, HitOf, At;
    var lib, t := index.lib, index.tree;
    ghost var bag, query, dist := t.Bag(), QueryPoint(lib, q), t.Dist();
    FilledKeeps(t, ids, vectors);
    ghost var neighbors;
    r, neighbors := index.Query(q, 1);
    NotEmptyAnswer(bag, query, 1, dist, neighbors, ids);
    AnswerOfRoot(r, neighbors, ids, query, root, d, dist);
  }

  /** A run that misses: an index over three vectors with the cosine distance and per-node bounds answers
      a query for one neighbour with the third vector, although the second has the higher score. */
  method CosineQueryMissesNearest(lib: Library, f: Floats, ids: seq<Bytes>) returns (r: Result<seq<Hit>>)
    requires CosineLibrary(lib, f) && Ieee(f.val) && lib.val(DEFAULT_BASE) > 1.0 && |ids| == 3
    ensures r == Ok([Hit(ids[2], 0.6)])
    ensures Norm(f, RIGHT) * Norm(f, DIAGONAL) != 0.0 && Score(f, RIGHT, DIAGONAL) > 0.6
  {
    hide Tree.Valid, Filled, StopsAtRoot, CosineLibrary, CosineRun, Norm, Score, QueryPoint;
    CosineRunDistances(lib, f);
    ghost var h := RunScores(f);
    ghost var ps := PointsOf(lib, [UP, DIAGONAL, DOWN]);
    RunDistance(lib.cosine, ps[0], ps[1], ps[2], QueryPoint(lib, RIGHT));
    var index := new CoverIndex.Index(lib, DEFAULT_BASE, BoundPerNode, None);
    var ok := index.Build(ids, [UP, DIAGONAL, DOWN]);
    CosineRunStops(index.tree, ids, QueryPoint(lib, RIGHT));
    r := AskOne(index, ids, [UP, DIAGONAL, DOWN], RIGHT, ps[2], 0.4);
  }

  // ---------------------------------------------------------------- the level bound

  lemma L2OfOne(f: Floats, u: seq<U32>, v: seq<U32>, d: real)
    requires IsSqrt(f.sqrt) && |u| == |v| == 1 && d >= 0.0
    requires f.val(u[0]) - f.val(v[0]) == d || f.val(v[0]) - f.val(u[0]) == d
    ensures L2(Reals(f.val, u), Reals(f.val, v), f.sqrt) == d
  {
    var x := Diff(Reals(f.val, u), Reals(f.val, v));
    assert Dot(x[..0], x[..0]) == 0.0;
    assert Dot(x, x) == x[0] * x[0] == d * d;
    SquareIsPositive(d);
    var m := f.sqrt(d * d);
    assert m >= 0.0 && m * m == d * d;
    RootOrder(m, d);
    RootOrder(d, m);
  }

  lemma EuclideanIs(lib: Library, f: Floats, p: Point, q: Point, d: real)
    requires EuclideanIsL2(lib, f.sqrt) && IsSqrt(f.sqrt) && f.val == lib.val && |p.vector| == |q.vector| == 1
    requires d >= 0.0
    requires lib.val(p.vector[0]) - lib.val(q.vector[0]) == d || lib.val(q.vector[0]) - lib.val(p.vector[0]) == d
    ensures Between(lib.euclidean, p, q) == d
  {
    L2OfOne(f, p.vector, q.vector, d);
  }

  lemma LevelRunStops(t: Tree, f: Floats, ids: seq<Bytes>)
    requires |ids| == 3 && Filled(t, ids, [[ONE], [TWENTY_ONE], [TWO]])
    requires t.boundStrategy == BoundLevel && t.metric == Euclidean && t.base == DEFAULT_BASE
    requires EuclideanIsL2(t.lib, f.sqrt) && IsSqrt(f.sqrt) && f.val == t.lib.val && Ieee(f.val)
    ensures var ps, query := PointsOf(t.lib, [[ONE], [TWENTY_ONE], [TWO]]), QueryPoint(t.lib, [ONE]);
            && StopsAtRoot(Snap(t), query)
            && t.root in t.view && t.view[t.root].point == ps[2]
            && Between(t.lib.euclidean, query, ps[2]) == 1.0 && Between(t.lib.euclidean, query, ps[0]) == 0.0
  {
    hide Filled, Grown, StopsAtRoot, Pow, EuclideanIsL2;
    var ps, query := PointsOf(t.lib, [[ONE], [TWENTY_ONE], [TWO]]), QueryPoint(t.lib, [ONE]);
    EuclideanIs(t.lib, f, ps[1], ps[0], 20.0);
    EuclideanIs(t.lib, f, ps[2], ps[1], 19.0);
    EuclideanIs(t.lib, f, query, ps[0], 0.0);
    EuclideanIs(t.lib, f, query, ps[1], 20.0);
    EuclideanIs(t.lib, f, query, ps[2], 1.0);
    FilledLooks(t, ids, [[ONE], [TWENTY_ONE], [TWO]]);
    assert ps == [ps[0], ps[1], ps[2]];
    WrapTwice(ps[0], ps[1], ps[2], t.Base(), t.Dist());
    LevelStops(Snap(t), query, ps[1], ps[2], [Shape(0, 1.0, ps[0], [])]);
  }

  /** A run that misses: with the level bound an index over three Euclidean points answers a query that
      equals its first point with the third, at distance 1. */
  method LevelQueryMissesNearest(lib: Library, f: Floats, ids: seq<Bytes>) returns (r: Result<seq<Hit>>)
    requires EuclideanIsL2(lib, f.sqrt) && IsSqrt(f.sqrt) && f.val == lib.val && Ieee(f.val)
    requires lib.val(lib.magnitude([ONE])) != 0.0 && |ids| == 3
    ensures r == Ok([Hit(ids[2], 0.0)])
    ensures L2(Reals(f.val, [ONE]), Reals(f.val, [ONE]), f.sqrt) == 0.0
  {
    hide Tree.Valid, Filled, StopsAtRoot, EuclideanIsL2, QueryPoint;
    ghost var ps := PointsOf(lib, [[ONE], [TWENTY_ONE], [TWO]]);
    L2OfOne(f, [ONE], [ONE], 0.0);
    var index := new CoverIndex.Index(lib, DEFAULT_BASE, BoundLevel, Some(Euclidean));
    var ok := index.Build(ids, [[ONE], [TWENTY_ONE], [TWO]]);
    LevelRunStops(index.tree, f, ids);
    r := AskOne(index, ids, [[ONE], [TWENTY_ONE], [TWO]], [ONE], ps[2], 1.0);
  }
}
