/** The level bound: when it is exact.  A tree grown by insertions that never wrap has each child one
    level below its parent and within the parent's level, and there the geometric bound reaches every
    descendant. */
module LevelBound {
  import opened Wire
  import opened BruteForce
  import opened CoverIndex
  import opened CoverShape
  import opened CoverTree
  import opened Exactness
  import opened Nearest
  import opened TreeSearch
  import opened Vectors

  // ---------------------------------------------------------------- the bound itself

  /** The bound is a geometric series: the node's own level, and the bound of the level below. */
  lemma LevelRadiusSteps(base: real, baseLevel: real)
    requires base > 1.0
    ensures LevelRadius(base, baseLevel) == baseLevel + LevelRadius(base, baseLevel / base)
    ensures baseLevel >= 0.0 ==> LevelRadius(base, baseLevel) >= baseLevel
  {
    var x := baseLevel / (base - 1.0);
    assert x * (base - 1.0) == baseLevel;
    assert baseLevel * base == (x * base) * (base - 1.0);
    assert (baseLevel / base) * base == baseLevel;
  }

  /** Without a usable base no lower bound is positive, as long as distances are float32 numbers. */
  lemma NoBaseNoPruning(base: real, baseLevel: real, distance: real)
    requires base <= 1.0 && distance <= 340282346638528859811704183484516925440.0
    ensures distance - LevelRadius(base, baseLevel) <= 0.0
  {
  }

  // ---------------------------------------------------------------- the shape

  ghost predicate Nested(s: Shape, base: real, dist: Distance)
    requires base > 0.0
    decreases s
  {
    forall i :: 0 <= i < |s.children| ==>
      && s.children[i].level == s.level - 1
      && dist(s.children[i].point, s.point) < Pow(base, s.level)
      && Nested(s.children[i], base, dist)
  }

  /** A child of a nested tree is within the parent's baseLevel, and one step down in level. */
  lemma ChildIsNested(s: Shape, i: nat, base: real, dist: Distance)
    requires base > 1.0 && Nested(s, base, dist) && LevelsExact(s, base) && i < |s.children|
    ensures Nested(s.children[i], base, dist) && LevelsExact(s.children[i], base)
    ensures s.children[i].baseLevel == s.baseLevel / base && dist(s.children[i].point, s.point) < s.baseLevel
  {
    hide Pow;
    PowStep(base, s.level);
  }

  /** In a nested tree the level bound of a node reaches every point below it. */
  lemma {:induction false} LevelBoundReaches(s: Shape, p: Point, base: real, dist: Distance, universe: iset<Point>)
    requires base > 1.0 && Nested(s, base, dist) && LevelsExact(s, base)
    requires Metric(dist, universe) && forall q :: q in Contents(s) ==> q in universe && dist(q, q) == 0.0
    requires p in Contents(s)
    ensures dist(s.point, p) <= LevelRadius(base, s.baseLevel)
    decreases s
  {
    hide Nested, LevelsExact, LevelRadius, Pow;
    LevelRadiusSteps(base, s.baseLevel);
    if p == s.point {
      PositiveLevel(s, base);
    } else {
      var i := ChildHolding(s.children, p);
      var child := s.children[i];
      ChildContents(s.children, i);
      forall q | q in Contents(child)
        ensures q in universe && dist(q, q) == 0.0
      {
        assert q in Contents(s);
      }
      ChildIsNested(s, i, base, dist);
      LevelBoundReaches(child, p, base, dist, universe);
      assert child.point in Contents(s) && s.point in Contents(s);
      assert dist(s.point, p) <= dist(s.point, child.point) + dist(child.point, p);
    }
  }

  lemma PositiveLevel(s: Shape, base: real)
    requires base > 0.0 && LevelsExact(s, base)
    ensures s.baseLevel > 0.0
  {
  }

  // ---------------------------------------------------------------- insertions that never wrap

  /** Starting at a node with the tracked level at the node's own, an insertion that attaches keeps the
      shape nested. */
  lemma {:induction false} PlaceNested(node: Shape, point: Point, base: real, dist: Distance)
    requires base > 1.0 && Distinct(node) && Nested(node, base, dist)
    requires Place(node, point, node.level, base, dist).Attach?
    ensures var r := Place(node, point, node.level, base, dist);
            Nested(Graft(node, r.parent, NewNode(point, r.level, base, [])), base, dist)
    decreases node
  {
    var r := Place(node, point, node.level, base, dist);
    var leaf := NewNode(point, r.level, base, []);
    var i := FirstNear(node.children, point, Pow(base, node.level), dist);
    if i < |node.children| {
      var child := node.children[i];
      DistinctChild(node, i);
      PlaceNested(child, point, base, dist);
      PlaceParentIsStored(child, point, child.level, base, dist);
      forall j | 0 <= j < |node.children|
        ensures j != i ==> Graft(node.children[j], r.parent, leaf) == node.children[j]
      {
        if j != i {
          OnlyOneChildChanges(node, i, j, r.parent, leaf);
        }
      }
    } else {
      var ss := node.children + [leaf];
      assert Nested(leaf, base, dist);
      assert forall j :: 0 <= j < |ss| ==> ss[j] == if j < |node.children| then node.children[j] else leaf;
    }
  }

  /** No insertion after the first makes a new root. */
  ghost predicate NeverWraps(points: seq<Point>, base: real, dist: Distance)
    requires base > 1.0
  {
    forall n :: 0 < n < |points| ==>
      var before := Grown(points[..n], base, dist);
      before.Some? && Place(before.value, points[n], 0, base, dist).Attach?
  }

  lemma InsertedNested(tree: Shape, point: Point, base: real, dist: Distance)
    requires base > 1.0 && Distinct(tree) && Nested(tree, base, dist) && tree.level == 0
    requires Place(tree, point, 0, base, dist).Attach?
    ensures var r := Inserted(Some(tree), point, base, dist).value;
            r.level == 0 && Nested(r, base, dist)
  {
    hide Nested, Place, Distinct, Pow;
    PlaceNested(tree, point, base, dist);
  }

  lemma NeverWrapsBefore(points: seq<Point>, n: nat, base: real, dist: Distance)
    requires base > 1.0 && n <= |points| && NoRepeats(points) && NeverWraps(points, base, dist)
    ensures NoRepeats(points[..n]) && NeverWraps(points[..n], base, dist)
  {
    hide Place, Grown;
    forall m | 0 < m < n
      ensures points[..n][..m] == points[..m]
    {
    }
  }

  lemma LastOf(points: seq<Point>, n: nat, base: real, dist: Distance)
    requires base > 1.0 && |points| == n + 1 && NeverWraps(points, base, dist)
    ensures Grown(points, base, dist) == Inserted(Grown(points[..n], base, dist), points[n], base, dist)
    ensures n > 0 ==> var before := Grown(points[..n], base, dist);
                      before.Some? && Place(before.value, points[n], 0, base, dist).Attach?
  {
    hide Place, Inserted;
  }

  /** A run in which only the first insertion makes a root leaves a nested tree. */
  lemma {:induction false} GrownNested(points: seq<Point>, base: real, dist: Distance)
    requires base > 1.0 && points != [] && NoRepeats(points) && NeverWraps(points, base, dist)
    ensures var tree := Grown(points, base, dist);
            tree.Some? && tree.value.level == 0 && Nested(tree.value, base, dist)
    decreases |points|
  {
    hide Place, Grown, NeverWraps, NoRepeats, Contents, Distinct, Pow, Apply;
    var n := |points| - 1;
    LastOf(points, n, base, dist);
    if n == 0 {
      NothingGrown(points[..n], base, dist);
    } else {
      NeverWrapsBefore(points, n, base, dist);
      GrownNested(points[..n], base, dist);
      GrownContents(points[..n], base, dist);
      InsertedNested(Grown(points[..n], base, dist).value, points[n], base, dist);
    }
  }

  lemma NothingGrown(points: seq<Point>, base: real, dist: Distance)
    requires base > 1.0 && points == []
    ensures Grown(points, base, dist) == None
  {
  }

  // ---------------------------------------------------------------- every node of the heap tree

  predicate IsIn(sub: Shape, s: Shape)
    decreases s
  {
    sub == s || exists i :: 0 <= i < |s.children| && IsIn(sub, s.children[i])
  }

  /** The node of a stored point can be reached from any node above it. */
  lemma {:induction false} NodeOf(t: Tree, s: Snapshot, m: Node, p: Point) returns (n: Node)
    requires Ready(t, s) && m in s.view && p in Contents(s.view[m])
    ensures n in s.view && s.view[n].point == p && IsIn(s.view[n], s.view[m])
    decreases s.view[m]
  {
    hide Ready;
    NodeSays(t, s, m);
    if s.view[m].point == p {
      n := m;
    } else {
      var i := ChildHolding(s.view[m].children, p);
      n := NodeOf(t, s, m.children[i], p);
    }
  }

  lemma OneNodePerPoint(t: Tree, s: Snapshot, n: Node, m: Node)
    requires Ready(t, s) && n in s.view && m in s.view && s.view[n].point == s.view[m].point
    ensures n == m
  {
  }

  lemma PointIsStored(t: Tree, s: Snapshot, n: Node)
    requires Ready(t, s) && n in s.view
    ensures s.root != null && s.root in s.view && Contents(s.view[n]) <= Contents(s.view[s.root])
    ensures s.view[n].point in Contents(s.view[s.root])
  {
    assert Fits(s.view[n], t.Bag());
  }

  /** Every node of a tree denotes a subtree of what the root denotes. */
  lemma NodesAreBelowRoot(t: Tree, s: Snapshot, n: Node)
    requires Ready(t, s) && n in s.view
    ensures s.root != null && s.root in s.view && IsIn(s.view[n], s.view[s.root])
  {
    hide Ready, IsIn;
    PointIsStored(t, s, n);
    var m := NodeOf(t, s, s.root, s.view[n].point);
    OneNodePerPoint(t, s, n, m);
  }

  lemma {:induction false} NestedBelow(s: Shape, sub: Shape, base: real, dist: Distance)
    requires base > 0.0 && Nested(s, base, dist) && LevelsExact(s, base) && IsIn(sub, s)
    ensures Nested(sub, base, dist) && LevelsExact(sub, base)
    decreases s
  {
    if sub == s {
    } else {
      var i :| 0 <= i < |s.children| && IsIn(sub, s.children[i]);
      NestedBelow(s.children[i], sub, base, dist);
    }
  }

  /** Over a metric, searches of a nested tree by the level bound are exact for every query. */
  lemma LevelBoundIsExact(t: Tree, s: Snapshot, query: Point)
    requires Ready(t, s) && t.Graded() && t.boundStrategy == BoundLevel
    requires t.root != null ==> Nested(t.view[t.root], t.Base(), t.Dist())
    requires Metric(s.dist, Universe(Points(s), query))
    requires forall p :: p in Points(s) ==> Between(s.dist, p, p) == 0.0
    ensures SoundBounds(s, query)
  {
    hide Nested, LevelsExact, Contents, LevelRadius;
    forall n, p | n in s.view && p in Contents(s.view[n])
      ensures s.dist(query, s.view[n].point) - Bound(s, s.view[n]) <= s.dist(query, p)
    {
      NodeReaches(t, s, query, n, p);
    }
  }

  lemma NodeReaches(t: Tree, s: Snapshot, query: Point, n: Node, p: Point)
    requires Ready(t, s) && t.Graded() && t.boundStrategy == BoundLevel
    requires t.root != null ==> Nested(t.view[t.root], t.Base(), t.Dist())
    requires Metric(s.dist, Universe(Points(s), query))
    requires forall p :: p in Points(s) ==> Between(s.dist, p, p) == 0.0
    requires n in s.view && p in Contents(s.view[n])
    ensures Between(s.dist, query, s.view[n].point) - Bound(s, s.view[n]) <= Between(s.dist, query, p)
  {
    hide Ready, Nested, LevelsExact, Contents, LevelRadius, IsIn, Metric;
    var u := Universe(Points(s), query);
    NodeSays(t, s, n);
    SnapshotHolds(t, s);
    NodesAreBelowRoot(t, s, n);
    PointIsStored(t, s, n);
    NestedBelow(s.view[s.root], s.view[n], t.Base(), s.dist);
    LevelBoundReaches(s.view[n], p, t.Base(), s.dist, u);
    TowardsQuery(s.dist, u, query, s.view[n].point, p);
  }

  lemma TowardsQuery(dist: Distance, universe: iset<Point>, query: Point, center: Point, p: Point)
    requires Metric(dist, universe) && query in universe && center in universe && p in universe
    ensures Between(dist, query, center) - Between(dist, center, p) <= Between(dist, query, p)
  {
    assert dist(query, center) <= dist(query, p) + dist(p, center);
  }

  // ---------------------------------------------------------------- the index

  lemma PointsAreDistinct(lib: Library, vecs: seq<seq<U32>>)
    ensures NoRepeats(PointsOf(lib, vecs))
  {
  }

  lemma SelfDistanceIsZero(lib: Library, sqrt: real -> real, p: Point)
    requires IsSqrt(sqrt) && EuclideanIsL2(lib, sqrt)
    ensures Between(lib.euclidean, p, p) == 0.0
  {
    var v := Reals(lib.val, p.vector);
    L2Separates(v, v, sqrt);
  }

  lemma FilledIsNested(t: Tree, ids: seq<Bytes>, vecs: seq<seq<U32>>)
    requires |ids| == |vecs| && Filled(t, ids, vecs)
    requires NeverWraps(PointsOf(t.lib, vecs), t.Base(), t.Dist())
    ensures t.root != null ==> t.root in t.view && Nested(t.view[t.root], t.Base(), t.Dist())
  {
    hide Tree.Valid, Nested, PointsOf, Grown, NeverWraps, NoRepeats;
    if t.root != null {
      var ps := PointsOf(t.lib, vecs);
      PointsAreDistinct(t.lib, vecs);
      if ps == [] {
        NothingGrown(ps, t.Base(), t.Dist());
      } else {
        GrownNested(ps, t.Base(), t.Dist());
      }
    }
  }

  /** An index built with the Euclidean distance and the level bound, no insertion of which made a new
      root, answers every query with the min(k, n) nearest stored points. */
  lemma BuiltLevelIndexIsExact(index: CoverIndex.Index, sqrt: real -> real, q: seq<U32>, k: int,
                               neighbors: seq<Neighbor>, r: Result<seq<Hit>>)
    requires index.Valid() && index.tree != null && |index.ids| == |index.vecs|
    requires Filled(index.tree, index.ids, index.vecs) && Uniform(Items(index.dim, index.ids, index.vecs))
    requires index.tree.metric == Euclidean && index.tree.boundStrategy == BoundLevel
    requires IsSqrt(sqrt) && EuclideanIsL2(index.lib, sqrt)
    requires NeverWraps(PointsOf(index.lib, index.vecs), index.tree.Base(), index.lib.euclidean)
    requires Reports(index.lib, index.tree.Bag(), index.tree.values, index.dim, index.tree.Dist(), q, k, neighbors, r)
    requires r.Ok? && r.value != []
    requires SoundBounds(Snap(index.tree), QueryPoint(index.lib, q)) ==>
               Closest(index.tree.Bag(), QueryPoint(index.lib, q), index.tree.Dist(), neighbors)
    ensures Listing(index.tree.Bag(), QueryPoint(index.lib, q), Wanted(k, |index.ids|), index.lib.euclidean, neighbors)
    ensures Closest(index.tree.Bag(), QueryPoint(index.lib, q), index.lib.euclidean, neighbors)
  {
    hide Filled, Tree.Valid, SoundBounds, Listing, Closest, EuclideanIsL2, PointsOf, Points, Ready, Snap, NeverWraps,
         Nested, Metric;
    var t, s, query := index.tree, Snap(index.tree), QueryPoint(index.lib, q);
    FilledKeeps(t, index.ids, index.vecs);
    FilledIsNested(t, index.ids, index.vecs);
    FilledIsGraded(t, index.ids, index.vecs);
    TreeIsReady(t, s);
    SnapshotHolds(t, s);
    forall p: Point | p in Points(s)
      ensures |p.vector| == |query.vector| && Between(s.dist, p, p) == 0.0
    {
      PointsHaveDimension(index.lib, index.vecs, index.dim, p);
      SelfDistanceIsZero(index.lib, sqrt, p);
    }
    EuclideanIsMetric(t.lib, sqrt, Universe(Points(s), query), |query.vector|);
    LevelBoundIsExact(t, s, query);
  }

  lemma FilledIsGraded(t: Tree, ids: seq<Bytes>, vecs: seq<seq<U32>>)
    requires |ids| == |vecs| && Filled(t, ids, vecs)
    ensures t.Graded()
  {
  }
}
