/** The cover index of index/cover: Build and Query over the cover tree, its binary form, and its
    agreement with the linear scan. */
module CoverIndex {
  import opened Wire
  import opened Bags
  import opened BruteForce
  import opened CoverShape
  import opened CoverTree
  import opened Nearest
  import opened TreeSearch
  import opened Vectors

  function Clamp(v: real): real {
    if v > 1.0 then 1.0 else if v < -1.0 then -1.0 else v
  }

  /** The points Build inserts, with the indices the tree gives them. */
  function PointsOf(lib: Library, vectors: seq<seq<U32>>): (ps: seq<Point>)
    ensures |ps| == |vectors|
    ensures forall i :: 0 <= i < |ps| ==> ps[i] == Point(i, lib.magnitude(vectors[i]), vectors[i])
  {
    seq(|vectors|, i requires 0 <= i < |vectors| => Point(i, lib.magnitude(vectors[i]), vectors[i]))
  }

  /** The hit Query reports for a neighbour. */
  function HitOf(values: seq<Bytes>): Neighbor -> Hit {
    (n: Neighbor) => Hit(ValueAt(values, n.point.index), Clamp(1.0 - n.distance))
  }

  function QueryPoint(lib: Library, query: seq<U32>): Point {
    Point(0, lib.magnitude(query), query)
  }

  // ---------------------------------------------------------------- agreement with the linear scan

  /** The vector library's cosine distance is one minus the cosine, and its magnitude is zero exactly
      for zero vectors. */
  ghost predicate CosineLibrary(lib: Library, f: Floats) {
    && IsSqrt(f.sqrt)
    && (forall v :: lib.val(lib.magnitude(v)) == 0.0 <==> Norm(f, v) == 0.0)
    && (forall p: Point, q: Point ::
          |p.vector| == |q.vector| && p.magnitude == lib.magnitude(p.vector) && q.magnitude == lib.magnitude(q.vector)
          && Norm(f, p.vector) * Norm(f, q.vector) != 0.0
          ==> lib.cosine(p, q) == 1.0 - Score(f, p.vector, q.vector))
  }

  function Seen(query: Point, dist: Distance): Point -> Neighbor {
    (p: Point) => At(query, p, dist)
  }

  lemma {:induction false} SeenCount(ps: seq<Point>, query: Point, dist: Distance, x: Neighbor)
    ensures multiset(Image(ps, Seen(query, dist)))[x] ==
            if x == At(query, x.point, dist) then multiset(ps)[x.point] else 0
  {
    if ps == [] {
    } else {
      var n := |ps| - 1;
      SeenCount(ps[..n], query, dist, x);
      ImageAppend(ps[..n], [ps[n]], Seen(query, dist));
      assert ps == ps[..n] + [ps[n]];
      assert Image(ps, Seen(query, dist)) == Image(ps[..n], Seen(query, dist)) + [At(query, ps[n], dist)];
    }
  }

  /** A listing of everything is a permutation of the stored points with their distances. */
  lemma ListsEverything(ps: seq<Point>, query: Point, dist: Distance, neighbors: seq<Neighbor>)
    requires Listing(multiset(ps), query, |ps|, dist, neighbors)
    ensures multiset(neighbors) == multiset(Image(ps, Seen(query, dist)))
  {
    FullListing(multiset(ps), query, |ps|, dist, neighbors);
    forall x ensures multiset(neighbors)[x] == multiset(Image(ps, Seen(query, dist)))[x] {
      SeenCount(ps, query, dist, x);
      if x in neighbors {
        var i :| 0 <= i < |neighbors| && neighbors[i] == x;
        assert x == At(query, x.point, dist);
      }
    }
  }

  /** For a stored vector of non-zero norm the reported score is the cosine: clamping changes nothing. */
  lemma ScoreReported(lib: Library, f: Floats, q: seq<U32>, v: seq<U32>, index: int)
    requires CosineLibrary(lib, f) && |q| == |v| && Norm(f, q) != 0.0 && Norm(f, v) != 0.0
    ensures Norm(f, q) * Norm(f, v) != 0.0
    ensures var d := Between(lib.cosine, QueryPoint(lib, q), Point(index, lib.magnitude(v), v));
            Clamp(1.0 - d) == 1.0 - d == Score(f, q, v)
  {
    ScoreInRange(f, q, v);
    var p, x := QueryPoint(lib, q), Point(index, lib.magnitude(v), v);
    assert lib.cosine(p, x) == 1.0 - Score(f, p.vector, x.vector);
  }

  ghost predicate NoZeros(f: Floats, vecs: seq<seq<U32>>) {
    forall i :: 0 <= i < |vecs| ==> Norm(f, vecs[i]) != 0.0
  }

  lemma HitOfPoint(lib: Library, f: Floats, ids: seq<Bytes>, vecs: seq<seq<U32>>, q: seq<U32>, i: nat)
    requires CosineLibrary(lib, f) && i < |ids| == |vecs| && NoZeros(f, vecs) && Norm(f, q) != 0.0 && |vecs[i]| == |q|
    ensures Norm(f, q) * Norm(f, vecs[i]) != 0.0
    ensures HitOf(ids)(At(QueryPoint(lib, q), Point(i, lib.magnitude(vecs[i]), vecs[i]), lib.cosine))
            == Hit(ids[i], Score(f, q, vecs[i]))
  {
    hide Norm, Score;
    ScoreReported(lib, f, q, vecs[i], i);
  }

  /** The hits of the first `n` stored points are the hits of the scan over the first `n` items. */
  lemma {:induction false} HitsOfPoints(lib: Library, f: Floats, ids: seq<Bytes>, vecs: seq<seq<U32>>, q: seq<U32>,
                                        n: nat, hits: seq<Hit>)
    requires CosineLibrary(lib, f) && |ids| == |vecs| && n <= |ids| && NoZeros(f, vecs) && Norm(f, q) != 0.0
    requires forall i :: 0 <= i < |vecs| ==> |vecs[i]| == |q|
    requires |hits| == n
    requires forall i :: 0 <= i < n ==>
               hits[i] == HitOf(ids)(At(QueryPoint(lib, q), Point(i, lib.magnitude(vecs[i]), vecs[i]), lib.cosine))
    ensures multiset(hits) == Hits(f, ids[..n], vecs[..n], q)
    decreases n
  {
    hide Hits, Norm, Score, CosineLibrary, HitOf, QueryPoint;
    HitsNone(f, ids, vecs, q);
    if n == 0 {
    } else {
      var i := n - 1;
      HitsOfPoints(lib, f, ids, vecs, q, i, hits[..i]);
      HitsStep(f, ids, vecs, q, i);
      HitOfPoint(lib, f, ids, vecs, q, i);
      assert hits[i] == Hit(ids[i], Score(f, q, vecs[i]));
      assert hits == hits[..i] + [hits[i]];
    }
  }

  lemma AscendingGivesDescending(values: seq<Bytes>, neighbors: seq<Neighbor>)
    requires Ascending(neighbors)
    ensures Descending(Image(neighbors, HitOf(values)))
  {
  }

  lemma SameHits(lib: Library, f: Floats, ids: seq<Bytes>, vecs: seq<seq<U32>>, q: seq<U32>, neighbors: seq<Neighbor>)
    requires CosineLibrary(lib, f) && |ids| == |vecs| && Norm(f, q) != 0.0 && NoZeros(f, vecs)
    requires forall i :: 0 <= i < |vecs| ==> |vecs[i]| == |q|
    requires Listing(multiset(PointsOf(lib, vecs)), QueryPoint(lib, q), |vecs|, lib.cosine, neighbors)
    ensures multiset(Image(neighbors, HitOf(ids))) == Hits(f, ids, vecs, q)
  {
    hide Hits, Norm, Score, Image, Listing, CosineLibrary, NoZeros, HitOf, Seen, PointsOf, QueryPoint;
    var ps, query := PointsOf(lib, vecs), QueryPoint(lib, q);
    var seen := Image(ps, Seen(query, lib.cosine));
    ListsEverything(ps, query, lib.cosine, neighbors);
    ImagePermutes(neighbors, seen, HitOf(ids));
    ImagesOfPoints(lib, ids, vecs, q, Image(seen, HitOf(ids)));
    HitsOfPoints(lib, f, ids, vecs, q, |ids|, Image(seen, HitOf(ids)));
    assert ids[..|ids|] == ids && vecs[..|ids|] == vecs;
  }

  lemma ImagesOfPoints(lib: Library, ids: seq<Bytes>, vecs: seq<seq<U32>>, q: seq<U32>, hits: seq<Hit>)
    requires hits == Image(Image(PointsOf(lib, vecs), Seen(QueryPoint(lib, q), lib.cosine)), HitOf(ids))
    ensures |hits| == |vecs|
    ensures forall i :: 0 <= i < |vecs| ==>
               hits[i] == HitOf(ids)(At(QueryPoint(lib, q), Point(i, lib.magnitude(vecs[i]), vecs[i]), lib.cosine))
  {
  }

  /** Asking the cover index for everything gives what the linear scan gives, for every Build input
      without zero vectors and every query. */
  lemma AnswersAgree(lib: Library, f: Floats, ids: seq<Bytes>, vecs: seq<seq<U32>>, q: seq<U32>, k: int,
                     neighbors: seq<Neighbor>)
    requires CosineLibrary(lib, f) && |ids| == |vecs| && Norm(f, q) != 0.0 && NoZeros(f, vecs)
    requires forall i :: 0 <= i < |vecs| ==> |vecs[i]| == |q|
    requires k <= 0 || k >= |vecs|
    requires Listing(multiset(PointsOf(lib, vecs)), QueryPoint(lib, q), |vecs|, lib.cosine, neighbors)
    ensures Best(Hits(f, ids, vecs, q), k, Image(neighbors, HitOf(ids)))
  {
    hide Hits, Norm, Score, Image, CosineLibrary, NoZeros, HitOf, PointsOf, QueryPoint;
    var hits := Image(neighbors, HitOf(ids));
    SameHits(lib, f, ids, vecs, q, neighbors);
    AscendingGivesDescending(ids, neighbors);
    FirstAreBest(hits, Hits(f, ids, vecs, q), k);
    assert |multiset(PointsOf(lib, vecs))| == |vecs| == |hits|;
    assert hits[..Wanted(k, |hits|)] == hits;
  }

  lemma {:induction false} ZerosAreSkipped(f: Floats, ids: seq<Bytes>, vecs: seq<seq<U32>>, q: seq<U32>)
    requires |ids| == |vecs| && Norm(f, q) != 0.0
    requires forall i :: 0 <= i < |vecs| ==> |vecs[i]| == |q|
    ensures |Hits(f, ids, vecs, q)| <= |ids|
    ensures |Hits(f, ids, vecs, q)| == |ids| <==> NoZeros(f, vecs)
  {
    hide Norm, Score;
    if ids == [] {
    } else {
      var n := |ids| - 1;
      ZerosAreSkipped(f, ids[..n], vecs[..n], q);
      if NoZeros(f, vecs[..n]) && Norm(f, vecs[n]) != 0.0 {
        forall i | 0 <= i < |vecs|
          ensures Norm(f, vecs[i]) != 0.0
        {
          assert i < n ==> vecs[i] == vecs[..n][i];
        }
      }
      if NoZeros(f, vecs) {
        assert forall i :: 0 <= i < n ==> vecs[..n][i] == vecs[i];
      }
    }
  }

  /** The two indexes agree exactly when no stored vector is zero: the scan leaves zero vectors out,
      the tree reports them at whatever distance the library gives. */
  lemma AgreementIff(lib: Library, f: Floats, ids: seq<Bytes>, vecs: seq<seq<U32>>, q: seq<U32>,
                     neighbors: seq<Neighbor>)
    requires CosineLibrary(lib, f) && |ids| == |vecs| && Norm(f, q) != 0.0
    requires forall i :: 0 <= i < |vecs| ==> |vecs[i]| == |q|
    requires Listing(multiset(PointsOf(lib, vecs)), QueryPoint(lib, q), |vecs|, lib.cosine, neighbors)
    ensures multiset(Image(neighbors, HitOf(ids))) == Hits(f, ids, vecs, q) <==> NoZeros(f, vecs)
  {
    hide Hits, Norm, Score, Image;
    ZerosAreSkipped(f, ids, vecs, q);
    if NoZeros(f, vecs) {
      SameHits(lib, f, ids, vecs, q, neighbors);
    }
    assert |multiset(Image(neighbors, HitOf(ids)))| == |neighbors|;
  }

  // ---------------------------------------------------------------- the index

  /** What Query answers over the stored points `bag`, by way of `neighbors`. */
  ghost predicate Reports(lib: Library, bag: multiset<Point>, values: seq<Bytes>, dim: nat, dist: Distance,
                          q: seq<U32>, k: int, neighbors: seq<Neighbor>, r: Result<seq<Hit>>)
  {
    if dim == 0 || values == [] then r == Ok([])
    else if |q| != dim then r == Err
    else if lib.val(lib.magnitude(q)) == 0.0 then r == Ok([])
    else
      && r == Ok(Image(neighbors, HitOf(values)))
      && Listing(bag, QueryPoint(lib, q), Wanted(k, |values|), dist, neighbors)
  }

  /** An answer over n stored points has k hits, and n when k asks for more or is not positive, with the
      nearest first. */
  lemma AnswerSize(lib: Library, bag: multiset<Point>, values: seq<Bytes>, dim: nat, dist: Distance, q: seq<U32>,
                   k: int, neighbors: seq<Neighbor>, r: Result<seq<Hit>>)
    requires Reports(lib, bag, values, dim, dist, q, k, neighbors, r) && |bag| == |values|
    requires dim != 0 && values != [] && |q| == dim && lib.val(lib.magnitude(q)) != 0.0
    ensures r.Ok? && |r.value| == if 1 <= k <= |values| then k else |values|
    ensures Descending(r.value)
  {
    AscendingGivesDescending(values, neighbors);
  }

  /** The whole contract of the two indexes: for one Build input, a query for everything gets the same
      answer from both, errors and empty answers included. */
  lemma CoverRefinesBruteForce(lib: Library, f: Floats, ids: seq<Bytes>, vecs: seq<seq<U32>>, dim: nat, q: seq<U32>,
                               k: int,
                               neighbors: seq<Neighbor>, r: Result<seq<Hit>>)
    requires CosineLibrary(lib, f) && Uniform(Items(dim, ids, vecs)) && NoZeros(f, vecs)
    requires k <= 0 || k >= |vecs|
    requires Reports(lib, multiset(PointsOf(lib, vecs)), ids, dim, lib.cosine, q, k, neighbors, r)
    ensures Answers(f, Items(dim, ids, vecs), q, k, r)
  {
    hide Hits, Best, Norm, Score, Image, Listing, HitOf, PointsOf, QueryPoint;
    assert lib.val(lib.magnitude(q)) == 0.0 <==> Norm(f, q) == 0.0;
    if dim != 0 && ids != [] && |q| == dim && Norm(f, q) != 0.0 {
      AnswersAgree(lib, f, ids, vecs, q, k, neighbors);
    }
  }

  /** The tree holds `ids` and `vecs` in order. */
  ghost predicate Keeps(t: Tree, ids: seq<Bytes>, vecs: seq<seq<U32>>)
    reads t`values, t`indexMap
  {
    && t.Indexed() && t.values == ids && |vecs| == |ids|
    && forall i :: 0 <= i < |vecs| ==> t.Stored()[i].vector == vecs[i]
  }

  predicate Rectangular(vectors: seq<seq<U32>>) {
    forall i :: 0 <= i < |vectors| ==> |vectors[i]| == |vectors[0]|
  }

  /** The state of the loop over Insert after `n` items. */
  ghost predicate Filled(t: Tree, ids: seq<Bytes>, vectors: seq<seq<U32>>)
    requires |ids| == |vectors|
    reads t, t.view.Keys
  {
    && t.Valid() && t.Graded() && t.values == ids && t.Stored() == PointsOf(t.lib, vectors)
    && t.AsShape() == Grown(PointsOf(t.lib, vectors), t.Base(), t.Dist())
  }

  lemma FilledNone(t: Tree)
    requires t.Valid() && t.Graded() && t.root == null && t.values == []
    ensures Filled(t, [], [])
  {
  }

  lemma StampedIs(lib: Library, v: seq<U32>, i: int)
    ensures Stamped(lib, Point(0, lib.magnitude(v), v), i) == Point(i, lib.magnitude(v), v)
  {
  }

  lemma PointsOfAppend(lib: Library, vectors: seq<seq<U32>>, v: seq<U32>)
    ensures PointsOf(lib, vectors + [v]) == PointsOf(lib, vectors) + [Point(|vectors|, lib.magnitude(v), v)]
  {
  }

  lemma GrownAppend(ps: seq<Point>, p: Point, base: real, dist: Distance)
    requires base > 1.0
    ensures Grown(ps + [p], base, dist) == Inserted(Grown(ps, base, dist), p, base, dist)
  {
  }

  /** One turn of the Build loop. */
  method InsertItem(t: Tree, id: Bytes, v: seq<U32>, ghost ids: seq<Bytes>,
                    ghost vectors: seq<seq<U32>>) returns (ghost node: Node)
    requires |ids| == |vectors| && Filled(t, ids, vectors)
    modifies t`root, t`view, t`values, t`indexMap, t`version, t.view.Keys`children
    ensures Filled(t, ids + [id], vectors + [v])
    ensures t.view.Keys == old(t.view.Keys) + {node} && fresh(node)
    ensures t.base == old(t.base) && t.metric == old(t.metric) && t.boundStrategy == old(t.boundStrategy)
  {
    hide Tree.Valid, Tree.Graded, Inserted, Grown, Stamped, PointsOf;
    StampedIs(t.lib, v, |vectors|);
    PointsOfAppend(t.lib, vectors, v);
    GradedBase(t);
    GrownAppend(PointsOf(t.lib, vectors), Point(|vectors|, t.lib.magnitude(v), v), t.Base(), t.Dist());
    var index;
    index, node := t.Insert(id, Point(0, t.lib.magnitude(v), v));
  }

  lemma GradedBase(t: Tree)
    requires t.Graded()
    ensures t.Base() > 1.0
  {
  }

  method SearchTree(t: Tree, query: Point, k: nat) returns (found: seq<Neighbor>)
    requires t.Valid() && k > 0
    modifies t.view.Keys
    ensures t.Valid()
    ensures Listing(t.Bag(), query, k, t.Dist(), found)
    ensures SoundBounds(Snap(t), query) || ExactPruning(Snap(t), query) ==> Closest(t.Bag(), query, t.Dist(), found)
    ensures k == 1 && StopsAtRoot(Snap(t), query) ==> t.root != null && t.root in t.view
                                                      && found == [At(query, t.view[t.root].point, t.Dist())]
  {
    hide Tree.Valid, Listing, Closest, SoundBounds, ExactPruning, PrunesBelow;
    ghost var s := Snap(t);
    SnapshotHolds(t, s);
    found := BestFirst(t, query, k, s);
    SnapshotHolds(t, s);
  }

  /** The ids and clamped scores of the neighbours found. */
  method Report(values: seq<Bytes>, found: seq<Neighbor>) returns (hits: seq<Hit>)
    ensures hits == Image(found, HitOf(values))
  {
    hits := [];
    for i := 0 to |found|
      invariant |hits| == i && forall j :: 0 <= j < i ==> hits[j] == HitOf(values)(found[j])
    {
      hits := hits + [HitOf(values)(found[i])];
    }
  }

  class Index {
    const lib: Library
    var base: U32
    var dim: nat
    var ids: seq<Bytes>
    var vecs: seq<seq<U32>>
    var tree: Tree?
    var boundStrategy: BoundStrategy
    /** None is the empty name. */
    var distance: Option<MetricName>

    constructor (lib: Library, base: U32, boundStrategy: BoundStrategy, distance: Option<MetricName>)
      ensures Valid() && this.lib == lib && this.base == base && this.boundStrategy == boundStrategy
              && this.distance == distance
      ensures tree == null && ids == [] && vecs == [] && dim == 0
    {
      this.lib, this.base, this.boundStrategy, this.distance := lib, base, boundStrategy, distance;
      dim, ids, vecs, tree := 0, [], [], null;
    }

    /** The cached ids and vectors are those of the tree. */
    ghost predicate Valid()
      reads this, tree, if tree == null then {} else tree.view.Keys
    {
      if tree == null then ids == [] && vecs == []
      else tree.lib == lib && tree.Valid() && Keeps(tree, ids, vecs)
    }

    function Metric(): MetricName
      reads `distance
    {
      if distance.None? then Cosine else distance.value
    }

    /** ensureTree: a new tree with the defaults filled in. */
    method EnsureTree() returns (t: Tree)
      requires lib.val(DEFAULT_BASE) > 1.0
      modifies `base, `distance, `tree
      ensures base == if lib.val(old(base)) <= 1.0 then DEFAULT_BASE else old(base)
      ensures distance == Some(old(Metric()))
      ensures tree == t && fresh(t) && t.lib == lib && t.base == base && t.metric == old(Metric())
              && t.boundStrategy == boundStrategy
      ensures Filled(t, [], []) && t.view == map[]
    {
      if lib.val(base) <= 1.0 {
        base := DEFAULT_BASE;
      }
      distance := Some(Metric());
      t := new Tree(lib, base, distance.value);
      t.boundStrategy := boundStrategy;
      tree := t;
      FilledNone(t);
    }

    /** Build: on ragged input an error and no change; otherwise a tree grown by inserting the points in order. */
    method Build(newIds: seq<Bytes>, vectors: seq<seq<U32>>) returns (ok: bool)
      requires lib.val(DEFAULT_BASE) > 1.0
      modifies this
      ensures ok <==> |newIds| == |vectors| && Rectangular(vectors)
      ensures !ok ==> unchanged(this)
      ensures ok ==> Valid() && ids == newIds && vecs == vectors && dim == if newIds == [] then 0 else |vectors[0]|
      ensures ok ==> tree != null && fresh(tree) && fresh(tree.view.Keys) && Filled(tree, ids, vecs)
      ensures ok ==> tree.metric == old(Metric()) && tree.boundStrategy == old(boundStrategy)
      ensures ok ==> tree.base == if lib.val(old(base)) <= 1.0 then DEFAULT_BASE else old(base)
    {
      hide Filled, Tree.Valid;
      if |newIds| != |vectors| {
        return false;
      }
      for j := 0 to |vectors|
        invariant forall i :: 0 <= i < j ==> |vectors[i]| == |vectors[0]|
      {
        if |vectors[j]| != |vectors[0]| {
          return false;
        }
      }
      var t := EnsureTree();
      assert newIds[..0] == [] && vectors[..0] == [];
      for j := 0 to |newIds|
        invariant Filled(t, newIds[..j], vectors[..j]) && fresh(t) && fresh(t.view.Keys)
        invariant t.base == base && t.metric == old(Metric()) && t.boundStrategy == boundStrategy
        invariant tree == t && base == if lib.val(old(base)) <= 1.0 then DEFAULT_BASE else old(base)
        invariant boundStrategy == old(boundStrategy)
      {
        ghost var node := InsertItem(t, newIds[j], vectors[j], newIds[..j], vectors[..j]);
        assert newIds[..j + 1] == newIds[..j] + [newIds[j]] && vectors[..j + 1] == vectors[..j] + [vectors[j]];
      }
      assert newIds[..|newIds|] == newIds && vectors[..|newIds|] == vectors;
      ids, vecs, dim := newIds, vectors, if |newIds| == 0 then 0 else |vectors[0]|;
      FilledKeeps(t, newIds, vectors);
      return true;
    }

    /** Query: a nearest-neighbour search over the tree; k <= 0 or k > n asks for all n. */
    method Query(query: seq<U32>, k: int) returns (r: Result<seq<Hit>>, ghost neighbors: seq<Neighbor>)
      requires Valid()
      modifies if tree == null then {} else tree.view.Keys
      ensures Valid()
      ensures tree == null ==> r == Ok([])
      ensures tree != null ==>
                Reports(lib, tree.Bag(), tree.values, dim, tree.Dist(), query, k, neighbors, r)
      ensures tree != null && r.Ok? && r.value != []
              && (|| SoundBounds(Snap(tree), QueryPoint(lib, query))
                  || ExactPruning(Snap(tree), QueryPoint(lib, query))) ==>
                Closest(tree.Bag(), QueryPoint(lib, query), tree.Dist(), neighbors)
      ensures tree != null && r.Ok? && r.value != [] && Wanted(k, |ids|) == 1
              && StopsAtRoot(Snap(tree), QueryPoint(lib, query)) ==>
                && tree.root != null && tree.root in tree.view
                && neighbors == [At(QueryPoint(lib, query), tree.view[tree.root].point, tree.Dist())]
    {
      hide Tree.Valid, Listing, Closest, SoundBounds, ExactPruning, PrunesBelow, Image, HitOf;
      neighbors := [];
      if tree == null || dim == 0 || |ids| == 0 {
        return Ok([]), [];
      }
      if |query| != dim {
        return Err, [];
      }
      var mag := lib.magnitude(query);
      if lib.val(mag) == 0.0 {
        return Ok([]), [];
      }
      var count := if k <= 0 || k > |ids| then |ids| else k;
      var found := SearchTree(tree, Point(0, mag, query), count);
      var hits := Report(tree.values, found);
      return Ok(hits), found;
    }
  }

  lemma FilledKeeps(t: Tree, ids: seq<Bytes>, vectors: seq<seq<U32>>)
    requires |ids| == |vectors| && Filled(t, ids, vectors)
    ensures t.Valid() && Keeps(t, ids, vectors) && t.Bag() == multiset(PointsOf(t.lib, vectors))
  {
  }

  /** After Build with the cosine distance, Query for everything meets the linear scan's contract on the
      same input. */
  lemma BuiltIndexRefinesBruteForce(index: Index, f: Floats, q: seq<U32>, k: int, neighbors: seq<Neighbor>,
                                    r: Result<seq<Hit>>)
    requires index.Valid() && index.tree != null && |index.ids| == |index.vecs|
    requires Filled(index.tree, index.ids, index.vecs) && index.tree.metric == Cosine
    requires CosineLibrary(index.lib, f) && Uniform(Items(index.dim, index.ids, index.vecs)) && NoZeros(f, index.vecs)
    requires k <= 0 || k >= |index.vecs|
    requires Reports(index.lib, index.tree.Bag(), index.tree.values, index.dim, index.tree.Dist(), q, k, neighbors, r)
    ensures Answers(f, Items(index.dim, index.ids, index.vecs), q, k, r)
  {
    hide Reports, Answers, Filled, CosineLibrary, Uniform, NoZeros, Tree.Valid;
    FilledKeeps(index.tree, index.ids, index.vecs);
    CoverRefinesBruteForce(index.lib, f, index.ids, index.vecs, index.dim, q, k, neighbors, r);
  }
}
