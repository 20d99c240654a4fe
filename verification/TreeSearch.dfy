/** Queries over the cover tree: the memoised radius, and the depth-first and best-first
    nearest-neighbour searches. */
module TreeSearch {
  import opened Wire
  import opened CoverShape
  import opened CoverTree
  import opened Nearest
  import opened PriorityQueue
  import opened Sorting

  /** What a query may rely on and must keep: it stamps radii into nodes and changes nothing else. */
  datatype Snapshot = Snapshot(
    root: Node?, base: U32, baseValue: real, metric: MetricName, dist: Distance, values: seq<Bytes>,
    indexMap: map<int, Point>,
    version: nat, boundStrategy: BoundStrategy, view: map<Node, Shape>)

  ghost function Snap(t: Tree): Snapshot
    reads t
  {
    Snapshot(t.root, t.base, t.Base(), t.metric, t.Dist(), t.values, t.indexMap, t.version, t.boundStrategy, t.view)
  }

  ghost predicate Ready(t: Tree, s: Snapshot)
    reads t, t.view.Keys
  {
    t.Valid() && Snap(t) == s
  }

  lemma TreeIsReady(t: Tree, s: Snapshot)
    requires t.Valid() && s == Snap(t)
    ensures Ready(t, s) && t.Indexed() && s.root == t.root && s.view == t.view && s.values == t.values
  {
  }

  // ---------------------------------------------------------------- radius

  ghost predicate Kids(children: seq<Node>, kids: seq<Shape>, view: map<Node, Shape>) {
    |children| == |kids| && forall i :: 0 <= i < |kids| ==> children[i] in view && view[children[i]] == kids[i]
  }

  lemma KidAt(children: seq<Node>, kids: seq<Shape>, view: map<Node, Shape>, i: nat)
    requires Kids(children, kids, view) && i < |kids|
    ensures |children| == |kids| && children[i] in view && view[children[i]] == kids[i]
  {
  }

  /** What the fields of the tree and of a node say about the snapshot. */
  lemma NodeSays(t: Tree, s: Snapshot, n: Node)
    requires Ready(t, s) && n in s.view
    ensures n.point == s.view[n].point && n.baseLevel == s.view[n].baseLevel && n.level == s.view[n].level
    ensures |n.children| == |s.view[n].children| && Kids(n.children, s.view[n].children, s.view)
    ensures t.version == s.version && t.boundStrategy == s.boundStrategy && t.Base() == s.baseValue && t.Dist()
            == s.dist
    ensures n.radiusComputed == s.version ==> n.radius == Radius(s.view[n], s.dist)
  {
  }

  /** What the fields of the tree itself say about the snapshot. */
  lemma TreeSays(t: Tree, s: Snapshot)
    requires Ready(t, s)
    ensures t.root == s.root && t.base == s.base && t.metric == s.metric && t.values == s.values
    ensures t.root != null ==> t.root in s.view
  {
  }

  method Stamp(t: Tree, n: Node, r: real, ghost s: Snapshot)
    requires Ready(t, s) && n in s.view && r == Radius(s.view[n], s.dist)
    modifies n
    ensures Ready(t, s)
  {
    hide Tree.Linked, Tree.Indexed, Tree.Conserves, Tree.AsShape, Tree.Bag, Tree.Stored, Radius, Contents, LevelsExact;
    n.radius := r;
    n.radiusComputed := t.version;
  }

  /** One turn of the ensureRadius loop, for child `i` of the node that denotes `whole`. */
  method ReachChild(t: Tree, p: Point, child: Node, dist: Distance, maxR: real,
                    ghost s: Snapshot, ghost whole: Shape, ghost i: nat)
    returns (r: real)
    requires Ready(t, s) && child in s.view && dist == s.dist && p == whole.point
    requires i < |whole.children| && s.view[child] == whole.children[i] && maxR == Reach(whole, i, dist)
    modifies s.view.Keys
    ensures Ready(t, s)
    ensures r == Reach(whole, i + 1, dist)
    decreases whole.children[i], 2
  {
    hide Ready, Radius, Reach, Between;
    NodeSays(t, s, child);
    ReachStep(whole, i, dist);
    var d := Between(dist, p, child.point);
    var cr := EnsureRadius(t, child, dist, s);
    r := Max(maxR, d + cr);
  }

  method MaxReach(t: Tree, n: Node, dist: Distance, ghost s: Snapshot) returns (r: real)
    requires Ready(t, s) && n in s.view && dist == s.dist
    modifies s.view.Keys
    ensures Ready(t, s)
    ensures r == Radius(s.view[n], dist)
    decreases s.view[n], 0
  {
    hide Ready, Radius, Reach, Kids;
    NodeSays(t, s, n);
    ReachEnds(s.view[n], dist);
    var children, p := n.children, n.point;
    ghost var whole := s.view[n];
    r := 0.0;
    var i := 0;
    while i < |children|
      invariant Ready(t, s)
      invariant 0 <= i <= |children|
      invariant r == Reach(whole, i, dist)
    {
      KidAt(children, whole.children, s.view, i);
      r := ReachChild(t, p, children[i], dist, r, s, whole, i);
      i := i + 1;
    }
  }

  lemma ReachStep(s: Shape, i: nat, dist: Distance)
    requires i < |s.children|
    ensures Reach(s, i + 1, dist) ==
            Max(Reach(s, i, dist), Between(dist, s.point, s.children[i].point) + Radius(s.children[i], dist))
  {
  }

  lemma ReachEnds(s: Shape, dist: Distance)
    ensures Reach(s, 0, dist) == 0.0 && Reach(s, |s.children|, dist) == Radius(s, dist)
  {
  }

  /** ensureRadius: whatever is memoised, the answer is the uncached radius. */
  method EnsureRadius(t: Tree, n: Node, dist: Distance, ghost s: Snapshot) returns (r: real)
    requires Ready(t, s) && n in s.view && dist == s.dist
    modifies s.view.Keys
    ensures Ready(t, s)
    ensures r == Radius(s.view[n], dist)
    decreases s.view[n], 1
  {
    hide Ready;
    NodeSays(t, s, n);
    if n.radiusComputed == t.version {
      return n.radius;
    }
    if |n.children| == 0 {
      r := 0.0;
    } else {
      r := MaxReach(t, n, dist, s);
    }
    Stamp(t, n, r, s);
  }

  /** The bound a search subtracts from the distance to a subtree's root. */
  ghost function Bound(s: Snapshot, shape: Shape): real {
    if s.boundStrategy == BoundLevel then LevelRadius(s.baseValue, shape.baseLevel) else Radius(shape, s.dist)
  }

  method BoundRadius(t: Tree, n: Node, ghost s: Snapshot) returns (r: real)
    requires Ready(t, s) && n in s.view
    modifies s.view.Keys
    ensures Ready(t, s)
    ensures r == Bound(s, s.view[n])
  {
    hide Ready, Radius;
    NodeSays(t, s, n);
    if t.boundStrategy == BoundLevel {
      return LevelRadius(t.Base(), n.baseLevel);
    }
    var dist := t.Dist();
    r := EnsureRadius(t, n, dist, s);
  }

  // ---------------------------------------------------------------- when pruning is exact

  ghost function Universe(stored: multiset<Point>, query: Point): iset<Point> {
    iset p | p in stored || p == query
  }

  /** The stored points seen from a snapshot. */
  ghost function Points(s: Snapshot): multiset<Point> {
    if s.root == null || s.root !in s.view then multiset{} else Contents(s.view[s.root])
  }

  lemma SnapshotHolds(t: Tree, s: Snapshot)
    requires Ready(t, s)
    ensures t.Valid() && Snap(t) == s && t.Indexed() && t.Bag() == Points(s) && t.Dist() == s.dist && t.root == s.root
    ensures AllFit(s.view, Points(s))
    ensures s.root != null ==> s.root in s.view && multiset{} + Contents(s.view[s.root]) == Points(s)
  {
  }

  /** Pruning by the memoised radius under a metric. */
  ghost predicate ExactPruning(s: Snapshot, query: Point) {
    s.boundStrategy == BoundPerNode && Metric(s.dist, Universe(Points(s), query))
  }

  /** Every lower bound a search computes is below every distance in its subtree. */
  ghost predicate SoundBounds(s: Snapshot, query: Point) {
    forall n, p :: n in s.view && p in Contents(s.view[n]) ==>
      s.dist(query, s.view[n].point) - Bound(s, s.view[n]) <= s.dist(query, p)
  }

  /** A search whose worst neighbour is at `worst` skips the subtree. */
  ghost predicate PrunedAt(s: Snapshot, query: Point, shape: Shape, worst: real) {
    Between(s.dist, query, shape.point) - Bound(s, shape) >= worst
  }

  ghost predicate AllPruned(s: Snapshot, query: Point, whole: Shape, worst: real) {
    forall i :: 0 <= i < |whole.children| ==> PrunedAt(s, query, whole.children[i], worst)
  }

  ghost predicate PrunesBelow(s: Snapshot, query: Point, shape: Shape) {
    AllPruned(s, query, shape, Between(s.dist, query, shape.point))
  }

  /** A search for one neighbour that has met the root skips everything below it. */
  ghost predicate StopsAtRoot(s: Snapshot, query: Point) {
    s.root != null && s.root in s.view && PrunesBelow(s, query, s.view[s.root])
  }

  lemma ExactPruningIsSound(s: Snapshot, query: Point)
    requires ExactPruning(s, query) && AllFit(s.view, Points(s))
    ensures SoundBounds(s, query)
  {
    forall n, p | n in s.view && p in Contents(s.view[n])
      ensures s.dist(query, s.view[n].point) - Bound(s, s.view[n]) <= s.dist(query, p)
    {
      assert Fits(s.view[n], Points(s));
      LowerBound(s.view[n], query, p, s.dist, Universe(Points(s), query));
    }
  }

  // ---------------------------------------------------------------- the two heaps

  datatype NodeItem = NodeItem(node: Node, lb: real, centerDist: real)

  function Nearness(x: NodeItem): real {
    x.lb
  }

  function Farness(x: Neighbor): real {
    -x.distance
  }

  /** The search found `nh` among the points `done`. */
  ghost predicate Holding(nh: seq<Neighbor>, done: multiset<Point>, query: Point, k: nat, dist: Distance, exact: bool) {
    IsHeap(nh, Farness) && Found(multiset(nh), done, query, k, dist, exact)
  }

  lemma WorstFirst(nh: seq<Neighbor>)
    requires IsHeap(nh, Farness)
    ensures forall x :: x in multiset(nh) ==> x.distance <= nh[0].distance
  {
    RootIsLeastOfAll(nh, Farness);
  }

  /** Offer one point: fill up to k, then replace the farthest when the new point is nearer. */
  method Offer(nh: seq<Neighbor>, query: Point, k: nat, dist: Distance, p: Point, dc: real,
               ghost done: multiset<Point>, ghost exact: bool) returns (r: seq<Neighbor>)
    requires Holding(nh, done, query, k, dist, exact) && dc == dist(query, p)
    ensures Holding(r, done + multiset{p}, query, k, dist, exact)
    ensures nh == [] && k > 0 ==> r == [Neighbor(p, dc)]
  {
    WorstFirst(nh);
    if |nh| < k {
      r := Push(nh, Farness, Neighbor(p, dc));
      OnlyElement(r, multiset(nh), Neighbor(p, dc));
      OfferToShort(multiset(nh), done, query, k, dist, exact, p);
    } else if k > 0 && dc < nh[0].distance {
      var worst, rest := Pop(nh, Farness);
      r := Push(rest, Farness, Neighbor(p, dc));
      OfferNearer(multiset(nh), done, query, k, dist, exact, p, worst, multiset(rest));
    } else {
      r := nh;
      OfferFurther(multiset(nh), done, query, k, dist, exact, p);
    }
  }

  lemma OnlyElement<T>(xs: seq<T>, rest: multiset<T>, x: T)
    requires multiset(xs) == rest + multiset{x}
    ensures |xs| == 1 ==> xs == [x]
    ensures xs == [x] ==> rest == multiset{}
  {
    assert x in multiset(xs);
    assert rest == multiset(xs) - multiset{x};
  }

  /** `result` are the farthest elements of `heap`, in order, and `nh` the rest. */
  ghost predicate Drained(heap: seq<Neighbor>, nh: seq<Neighbor>, result: seq<Neighbor>) {
    && Ascending(result) && multiset(heap) == multiset(nh) + multiset(result) && |nh| + |result| == |heap|
    && forall x: Neighbor, y: Neighbor :: x in multiset(nh) && y in result ==> x.distance <= y.distance
  }

  lemma DrainStep(heap: seq<Neighbor>, nh: seq<Neighbor>, result: seq<Neighbor>, x: Neighbor, rest: seq<Neighbor>)
    requires Drained(heap, nh, result) && multiset(nh) == multiset(rest) + multiset{x} && |rest| == |nh| - 1
    requires forall y :: y in multiset(nh) ==> Farness(x) <= Farness(y)
    ensures Drained(heap, rest, [x] + result)
  {
    assert x in multiset(nh);
    forall y: Neighbor, z: Neighbor | y in multiset(rest) && z in [x] + result
      ensures y.distance <= z.distance
    {
      assert y in multiset(nh);
    }
  }

  /** Empty the heap from the farthest to the nearest. */
  method Drain(heap: seq<Neighbor>) returns (result: seq<Neighbor>)
    requires IsHeap(heap, Farness)
    ensures multiset(result) == multiset(heap) && |result| == |heap| && Ascending(result)
  {
    var nh := heap;
    result := [];
    while |nh| > 0
      invariant IsHeap(nh, Farness) && Drained(heap, nh, result)
      decreases |nh|
    {
      var x, rest := Pop(nh, Farness);
      DrainStep(heap, nh, result, x, rest);
      nh := rest;
      result := [x] + result;
    }
  }

  /** A drained heap that has every stored point behind it is the answer. */
  lemma DrainedIsListing(nh: multiset<Neighbor>, stored: multiset<Point>, query: Point, k: nat, dist: Distance,
                         exact: bool,
                         result: seq<Neighbor>)
    requires Found(nh, stored, query, k, dist, exact)
    requires multiset(result) == nh && Ascending(result)
    ensures Listing(stored, query, k, dist, result)
    ensures exact ==> Closest(stored, query, dist, result)
  {
  }

  // ---------------------------------------------------------------- best-first search

  ghost function Below(view: map<Node, Shape>): NodeItem -> multiset<Point> {
    (x: NodeItem) => if x.node in view then Contents(view[x.node]) else multiset{}
  }

  ghost predicate ItemOk(s: Snapshot, query: Point, x: NodeItem) {
    && x.node in s.view
    && x.centerDist == Between(s.dist, query, s.view[x.node].point)
    && x.lb == x.centerDist - Bound(s, s.view[x.node])
  }

  ghost predicate Queue(s: Snapshot, query: Point, pq: seq<NodeItem>) {
    IsHeap(pq, Nearness) && forall x :: x in multiset(pq) ==> ItemOk(s, query, x)
  }

  ghost function Waiting(s: Snapshot, pq: seq<NodeItem>): multiset<Point> {
    Gather(multiset(pq), Below(s.view))
  }

  lemma {:induction false} GatherMember(m: multiset<NodeItem>, view: map<Node, Shape>, p: Point) returns (x: NodeItem)
    requires p in Gather(m, Below(view))
    ensures x in m && x.node in view && p in Contents(view[x.node])
    decreases |m|
  {
    var y :| y in m && Gather(m, Below(view)) == Gather(m - multiset{y}, Below(view)) + Below(view)(y);
    if p in Below(view)(y) {
      x := y;
    } else {
      x := GatherMember(m - multiset{y}, view, p);
    }
  }

  /** When the nearest bound is no better than the worst neighbour, the whole queue can go. */
  lemma PruneQueue(s: Snapshot, query: Point, k: nat, exact: bool, nh: seq<Neighbor>, done: multiset<Point>,
                   pq: seq<NodeItem>, top: NodeItem)
    requires Holding(nh, done, query, k, s.dist, exact) && |nh| == k && k > 0
    requires exact ==> SoundBounds(s, query)
    requires Queue(s, query, pq) && pq != [] && top == pq[0] && top.lb >= nh[0].distance
    ensures Holding(nh, done + Waiting(s, pq), query, k, s.dist, exact)
  {
    WorstFirst(nh);
    RootIsLeastOfAll(pq, Nearness);
    if exact {
      forall p, x: Neighbor | p in Waiting(s, pq) && x in multiset(nh)
        ensures x.distance <= s.dist(query, p)
      {
        var item := GatherMember(multiset(pq), s.view, p);
        assert ItemOk(s, query, item) && Nearness(top) <= Nearness(item);
      }
    }
    Prune(multiset(nh), done, query, k, s.dist, exact, Waiting(s, pq));
  }

  /** The queue entry of a subtree: the distance to its root and the lower bound. */
  method Probe(t: Tree, query: Point, n: Node, dist: Distance, ghost s: Snapshot) returns (item: NodeItem)
    requires Ready(t, s) && n in s.view && dist == s.dist
    modifies s.view.Keys
    ensures Ready(t, s)
    ensures ItemOk(s, query, item) && item.node == n
  {
    hide Ready, Bound, Between;
    NodeSays(t, s, n);
    var cd := Between(dist, query, n.point);
    var r := BoundRadius(t, n, s);
    item := NodeItem(n, cd - r, cd);
  }

  lemma PruneSubtree(s: Snapshot, query: Point, k: nat, exact: bool, nh: seq<Neighbor>, done: multiset<Point>, n: Node)
    requires Holding(nh, done, query, k, s.dist, exact) && |nh| == k && n in s.view
    requires exact ==> SoundBounds(s, query)
    requires k > 0 ==> Between(s.dist, query, s.view[n].point) - Bound(s, s.view[n]) >= nh[0].distance
    ensures Holding(nh, done + Contents(s.view[n]), query, k, s.dist, exact)
  {
    WorstFirst(nh);
    Prune(multiset(nh), done, query, k, s.dist, exact, Contents(s.view[n]));
  }

  /** The state between two rounds: every point is behind the search or below a queued node. */
  ghost predicate Searching(s: Snapshot, query: Point, k: nat, exact: bool, nh: seq<Neighbor>, pq: seq<NodeItem>,
                            done: multiset<Point>, all: multiset<Point>)
  {
    && Holding(nh, done, query, k, s.dist, exact) && Queue(s, query, pq)
    && all == done + Waiting(s, pq)
    && (exact ==> SoundBounds(s, query))
  }

  /** The same between two children of a popped node: the children from `i` on are still to be seen. */
  ghost predicate Partway(s: Snapshot, query: Point, k: nat, exact: bool, nh: seq<Neighbor>, pq: seq<NodeItem>,
                          done: multiset<Point>, all: multiset<Point>, kids: seq<Shape>, i: nat)
    requires i <= |kids|
  {
    && Holding(nh, done, query, k, s.dist, exact) && Queue(s, query, pq)
    && all == done + Waiting(s, pq) + ContentsAll(kids[i..])
    && (exact ==> SoundBounds(s, query))
  }

  /** Queue one subtree, or prune it. */
  method Enqueue(query: Point, k: nat, nh: seq<Neighbor>, pq: seq<NodeItem>, item: NodeItem,
                 ghost done: multiset<Point>,
                 ghost exact: bool, ghost s: Snapshot, ghost all: multiset<Point>, ghost kids: seq<Shape>, ghost i: nat)
    returns (queue: seq<NodeItem>, ghost after: multiset<Point>)
    requires k > 0 && ItemOk(s, query, item) && i < |kids| && s.view[item.node] == kids[i]
    requires Partway(s, query, k, exact, nh, pq, done, all, kids, i)
    ensures Partway(s, query, k, exact, nh, queue, after, all, kids, i + 1)
    ensures |done| <= |after|
    ensures |nh| == k && item.lb >= nh[0].distance ==> queue == pq
  {
    if |nh| == k && item.lb >= nh[0].distance {
      PartwayPruned(query, k, nh, pq, item, done, exact, s, all, kids, i);
      return pq, done + Contents(s.view[item.node]);
    }
    queue := Push(pq, Nearness, item);
    after := done;
    PartwayPushed(query, k, nh, pq, queue, item, done, exact, s, all, kids, i);
  }

  lemma PartwayPruned(query: Point, k: nat, nh: seq<Neighbor>, pq: seq<NodeItem>, item: NodeItem, done: multiset<Point>,
                      exact: bool, s: Snapshot, all: multiset<Point>, kids: seq<Shape>, i: nat)
    requires k > 0 && ItemOk(s, query, item) && i < |kids| && s.view[item.node] == kids[i]
    requires Partway(s, query, k, exact, nh, pq, done, all, kids, i)
    requires |nh| == k && item.lb >= nh[0].distance
    ensures Partway(s, query, k, exact, nh, pq, done + Contents(kids[i]), all, kids, i + 1)
  {
    ContentsAllStep(kids, i);
    PruneSubtree(s, query, k, exact, nh, done, item.node);
  }

  lemma PartwayPushed(query: Point, k: nat, nh: seq<Neighbor>, pq: seq<NodeItem>, queue: seq<NodeItem>, item: NodeItem,
                      done: multiset<Point>, exact: bool, s: Snapshot, all: multiset<Point>, kids: seq<Shape>, i: nat)
    requires ItemOk(s, query, item) && i < |kids| && s.view[item.node] == kids[i]
    requires Partway(s, query, k, exact, nh, pq, done, all, kids, i)
    requires IsHeap(queue, Nearness) && multiset(queue) == multiset(pq) + multiset{item}
    ensures Partway(s, query, k, exact, nh, queue, done, all, kids, i + 1)
  {
    ContentsAllStep(kids, i);
    GatherAdd(multiset(pq), Below(s.view), item);
  }

  /** Child `i` of a popped node. */
  method VisitChild(t: Tree, query: Point, k: nat, dist: Distance, children: seq<Node>, i: nat, nh: seq<Neighbor>,
                    pq: seq<NodeItem>,
                    ghost done: multiset<Point>, ghost exact: bool, ghost s: Snapshot, ghost all: multiset<Point>,
                    ghost kids: seq<Shape>)
    returns (queue: seq<NodeItem>, ghost after: multiset<Point>)
    requires Ready(t, s) && dist == s.dist && k > 0
    requires i < |children| == |kids| && Kids(children, kids, s.view)
    requires Partway(s, query, k, exact, nh, pq, done, all, kids, i)
    modifies s.view.Keys
    ensures Ready(t, s)
    ensures Partway(s, query, k, exact, nh, queue, after, all, kids, i + 1)
    ensures |done| <= |after|
    ensures |nh| == k && PrunedAt(s, query, kids[i], nh[0].distance) ==> queue == pq
  {
    hide Ready, Partway, ItemOk, Kids, PrunedAt;
    var child := children[i];
    KidAt(children, kids, s.view, i);
    var item := Probe(t, query, child, dist, s);
    ItemPruned(s, query, item, if |nh| == k then nh[0].distance else 0.0);
    queue, after := Enqueue(query, k, nh, pq, item, done, exact, s, all, kids, i);
  }

  lemma ItemPruned(s: Snapshot, query: Point, x: NodeItem, worst: real)
    requires ItemOk(s, query, x)
    ensures x.node in s.view && (PrunedAt(s, query, s.view[x.node], worst) <==> x.lb >= worst)
  {
  }

  /** The loop over the children of a popped node. */
  method Expand(t: Tree, query: Point, k: nat, dist: Distance, n: Node, nh: seq<Neighbor>, pq: seq<NodeItem>,
                ghost done: multiset<Point>, ghost exact: bool, ghost s: Snapshot, ghost all: multiset<Point>)
    returns (queue: seq<NodeItem>, ghost after: multiset<Point>)
    requires Ready(t, s) && n in s.view && dist == s.dist && k > 0
    requires Partway(s, query, k, exact, nh, pq, done, all, s.view[n].children, 0)
    modifies s.view.Keys
    ensures Ready(t, s)
    ensures Searching(s, query, k, exact, nh, queue, after, all) && |done| <= |after|
    ensures |nh| == k && AllPruned(s, query, s.view[n], nh[0].distance) ==> queue == pq
  {
    hide Ready, Partway, Searching, ItemOk, Kids, PrunedAt;
    NodeSays(t, s, n);
    var children := n.children;
    ghost var kids := s.view[n].children;
    queue, after := pq, done;
    ghost var pruned := |nh| == k && AllPruned(s, query, s.view[n], nh[0].distance);
    var i := 0;
    while i < |children|
      invariant Ready(t, s) && 0 <= i <= |children|
      invariant Partway(s, query, k, exact, nh, queue, after, all, kids, i)
      invariant |done| <= |after|
      invariant pruned ==> queue == pq
    {
      queue, after := VisitChild(t, query, k, dist, children, i, nh, queue, after, exact, s, all, kids);
      i := i + 1;
    }
    AllChildrenSeen(s, query, k, exact, nh, queue, after, all, kids);
  }

  lemma AllChildrenSeen(s: Snapshot, query: Point, k: nat, exact: bool, nh: seq<Neighbor>, pq: seq<NodeItem>,
                        done: multiset<Point>, all: multiset<Point>, kids: seq<Shape>)
    requires Partway(s, query, k, exact, nh, pq, done, all, kids, |kids|)
    ensures Searching(s, query, k, exact, nh, pq, done, all)
  {
  }

  lemma ContentsAllStep(ss: seq<Shape>, i: nat)
    requires i < |ss|
    ensures ContentsAll(ss[i..]) == Contents(ss[i]) + ContentsAll(ss[i + 1..])
  {
  }

  lemma ItemFacts(s: Snapshot, query: Point, x: NodeItem)
    requires ItemOk(s, query, x)
    ensures x.node in s.view && x.centerDist == s.dist(query, s.view[x.node].point)
  {
  }

  method PopNearest(query: Point, k: nat, nh: seq<Neighbor>, pq: seq<NodeItem>,
                    ghost done: multiset<Point>, ghost exact: bool, ghost s: Snapshot, ghost all: multiset<Point>)
    returns (top: NodeItem, rest: seq<NodeItem>)
    requires Searching(s, query, k, exact, nh, pq, done, all) && pq != []
    ensures ItemOk(s, query, top) && top == pq[0] && Queue(s, query, rest)
    ensures multiset(pq) == multiset(rest) + multiset{top}
  {
    top, rest := Pop(pq, Nearness);
    assert top in multiset(pq);
  }

  lemma StopHere(s: Snapshot, query: Point, k: nat, exact: bool, nh: seq<Neighbor>, pq: seq<NodeItem>,
                 done: multiset<Point>, all: multiset<Point>)
    requires Searching(s, query, k, exact, nh, pq, done, all) && pq != []
    requires |nh| == k && k > 0 && pq[0].lb >= nh[0].distance
    ensures Searching(s, query, k, exact, nh, [], all, all)
  {
    PruneQueue(s, query, k, exact, nh, done, pq, pq[0]);
  }

  lemma PoppedAndOffered(s: Snapshot, query: Point, k: nat, exact: bool, nh: seq<Neighbor>, found: seq<Neighbor>,
                         pq: seq<NodeItem>, rest: seq<NodeItem>, top: NodeItem, done: multiset<Point>,
                         all: multiset<Point>)
    requires Searching(s, query, k, exact, nh, pq, done, all)
    requires top.node in s.view && multiset(pq) == multiset(rest) + multiset{top} && Queue(s, query, rest)
    requires Holding(found, done + multiset{s.view[top.node].point}, query, k, s.dist, exact)
    ensures var shape := s.view[top.node];
            Partway(s, query, k, exact, found, rest, done + multiset{shape.point}, all, shape.children, 0)
  {
    hide Holding, Queue, SoundBounds;
    var shape := s.view[top.node];
    GatherAdd(multiset(rest), Below(s.view), top);
    assert shape.children[0..] == shape.children;
    assert all == done + Waiting(s, rest) + Contents(shape);
  }

  /** Offer the point of a popped node. */
  method OfferTop(t: Tree, query: Point, k: nat, dist: Distance, nh: seq<Neighbor>, top: NodeItem,
                  ghost done: multiset<Point>, ghost exact: bool, ghost s: Snapshot) returns (found: seq<Neighbor>)
    requires Ready(t, s) && dist == s.dist && ItemOk(s, query, top)
    requires Holding(nh, done, query, k, dist, exact)
    ensures top.node in s.view && Holding(found, done + multiset{s.view[top.node].point}, query, k, dist, exact)
    ensures nh == [] && k > 0 ==> found == [Neighbor(s.view[top.node].point, top.centerDist)]
  {
    hide Ready, ItemOk, Holding;
    ItemFacts(s, query, top);
    NodeSays(t, s, top.node);
    found := Offer(nh, query, k, dist, top.node.point, top.centerDist, done, exact);
  }

  /** The search for one neighbour ends with the point of `item` alone. */
  ghost predicate EndsWith(s: Snapshot, query: Point, k: nat, item: NodeItem) {
    k == 1 && item.node in s.view && AllPruned(s, query, s.view[item.node], item.centerDist)
  }

  /** One round of the best-first loop: pop the nearest bound; stop, or offer its point and expand it. */
  method Round(t: Tree, query: Point, k: nat, dist: Distance, nh: seq<Neighbor>, pq: seq<NodeItem>,
               ghost done: multiset<Point>, ghost exact: bool, ghost s: Snapshot, ghost all: multiset<Point>)
    returns (stop: bool, found: seq<Neighbor>, queue: seq<NodeItem>, ghost after: multiset<Point>)
    requires Ready(t, s) && dist == s.dist && k > 0 && pq != []
    requires Searching(s, query, k, exact, nh, pq, done, all)
    modifies s.view.Keys
    ensures Ready(t, s)
    ensures Searching(s, query, k, exact, found, queue, after, all)
    ensures if stop then queue == [] else |done| < |after|
    ensures nh == [] && |pq| == 1 && EndsWith(s, query, k, pq[0]) ==>
              queue == [] && found == [Neighbor(s.view[pq[0].node].point, pq[0].centerDist)]
  {
    hide Ready, Searching, Partway, ItemOk, Holding, Queue, AllPruned;
    SearchingHolds(s, query, k, exact, nh, pq, done, all);
    var top, rest := PopNearest(query, k, nh, pq, done, exact, s, all);
    OnlyElement(pq, multiset(rest), top);
    var worst := if |nh| == k then nh[0].distance else MAX_FLOAT32;
    if |nh| == k && top.lb >= worst {
      StopHere(s, query, k, exact, nh, pq, done, all);
      return true, nh, [], all;
    }
    found := OfferTop(t, query, k, dist, nh, top, done, exact, s);
    PoppedAndOffered(s, query, k, exact, nh, found, pq, rest, top, done, all);
    ghost var done' := done + multiset{s.view[top.node].point};
    queue, after := Expand(t, query, k, dist, top.node, found, rest, done', exact, s, all);
    stop := false;
  }

  lemma SearchingHolds(s: Snapshot, query: Point, k: nat, exact: bool, nh: seq<Neighbor>, pq: seq<NodeItem>,
                       done: multiset<Point>, all: multiset<Point>)
    requires Searching(s, query, k, exact, nh, pq, done, all)
    ensures Holding(nh, done, query, k, s.dist, exact) && |done| <= |all|
  {
  }

  lemma EndsThere(s: Snapshot, query: Point, k: nat, item: NodeItem)
    ensures EndsWith(s, query, k, item) ==> item.node in s.view
  {
  }

  /** The loop of the best-first search. */
  method Rounds(t: Tree, query: Point, k: nat, dist: Distance, first: NodeItem,
                ghost exact: bool, ghost s: Snapshot, ghost all: multiset<Point>)
    returns (nh: seq<Neighbor>)
    requires Ready(t, s) && dist == s.dist && k > 0
    requires Searching(s, query, k, exact, [], [first], multiset{}, all)
    modifies s.view.Keys
    ensures Ready(t, s)
    ensures Holding(nh, all, query, k, dist, exact)
    ensures EndsWith(s, query, k, first) ==> nh == [Neighbor(s.view[first.node].point, first.centerDist)]
  {
    hide Ready, Searching, Holding, EndsWith;
    EndsThere(s, query, k, first);
    nh := [];
    var pq := [first];
    ghost var done := multiset{};
    while |pq| > 0
      invariant Ready(t, s)
      invariant Searching(s, query, k, exact, nh, pq, done, all)
      invariant EndsWith(s, query, k, first) ==>
                  if pq == [] then nh == [Neighbor(s.view[first.node].point, first.centerDist)]
                  else nh == [] && pq == [first]
      decreases |pq| > 0, |all| - |done|
    {
      SearchingHolds(s, query, k, exact, nh, pq, done, all);
      var stop;
      stop, nh, pq, done := Round(t, query, k, dist, nh, pq, done, exact, s, all);
      SearchingHolds(s, query, k, exact, nh, pq, done, all);
    }
    SearchEnds(s, query, k, exact, nh, pq, done, all);
  }

  lemma SearchEnds(s: Snapshot, query: Point, k: nat, exact: bool, nh: seq<Neighbor>, pq: seq<NodeItem>,
                   done: multiset<Point>, all: multiset<Point>)
    requires Searching(s, query, k, exact, nh, pq, done, all) && pq == []
    ensures Holding(nh, all, query, k, s.dist, exact)
  {
  }

  lemma SearchStarts(s: Snapshot, query: Point, k: nat, exact: bool, first: NodeItem)
    requires ItemOk(s, query, first) && k > 0
    requires exact ==> SoundBounds(s, query)
    ensures Searching(s, query, k, exact, [], [first], multiset{}, Contents(s.view[first.node]))
  {
    GatherAdd(multiset{}, Below(s.view), first);
    assert multiset([first]) == multiset{} + multiset{first};
  }

  method BestFirstFrom(t: Tree, query: Point, k: nat, dist: Distance, root: Node, ghost exact: bool, ghost s: Snapshot)
    returns (result: seq<Neighbor>)
    requires Ready(t, s) && dist == s.dist && root in s.view && k > 0
    requires exact ==> SoundBounds(s, query)
    modifies s.view.Keys
    ensures Ready(t, s)
    ensures Listing(Contents(s.view[root]), query, k, dist, result)
    ensures exact ==> Closest(Contents(s.view[root]), query, dist, result)
    ensures k == 1 && PrunesBelow(s, query, s.view[root]) ==> result == [At(query, s.view[root].point, dist)]
  {
    hide Ready, Searching, SoundBounds, ItemOk, Listing, Closest, Holding, EndsWith, PrunesBelow, At;
    var first := Probe(t, query, root, dist, s);
    RootEnds(s, query, k, first);
    SearchStarts(s, query, k, exact, first);
    var nh := Rounds(t, query, k, dist, first, exact, s, Contents(s.view[root]));
    result := DrainHeld(nh, Contents(s.view[root]), query, k, dist, exact);
  }

  lemma RootEnds(s: Snapshot, query: Point, k: nat, item: NodeItem)
    requires ItemOk(s, query, item)
    ensures item.node in s.view
    ensures At(query, s.view[item.node].point, s.dist) == Neighbor(s.view[item.node].point, item.centerDist)
    ensures EndsWith(s, query, k, item) <==> k == 1 && PrunesBelow(s, query, s.view[item.node])
  {
  }

  /** KNearestNeighborsBestFirst: for any distance and either bound it lists min(k, n) distinct stored
      points, nearest first; when every bound it prunes by is sound, as radius bounds under a metric are, no
      closer point is left out.  A search for one neighbour whose root prunes everything below it answers
      the root. */
  method BestFirst(t: Tree, query: Point, k: nat, ghost s: Snapshot) returns (result: seq<Neighbor>)
    requires Ready(t, s) && k > 0
    modifies s.view.Keys
    ensures Ready(t, s)
    ensures Listing(Points(s), query, k, s.dist, result)
    ensures SoundBounds(s, query) || ExactPruning(s, query) ==> Closest(Points(s), query, s.dist, result)
    ensures k == 1 && StopsAtRoot(s, query) ==> result == [At(query, s.view[s.root].point, s.dist)]
  {
    hide Ready, SoundBounds, ExactPruning, Closest, PrunesBelow, At;
    SnapshotHolds(t, s);
    if t.root == null {
      NothingStored(query, k, s.dist);
      return [];
    }
    if ExactPruning(s, query) {
      ExactPruningIsSound(s, query);
    }
    ghost var exact := SoundBounds(s, query);
    var dist := t.Dist();
    result := BestFirstFrom(t, query, k, dist, t.root, exact, s);
  }

  lemma NoPoints(s: Snapshot)
    requires s.root == null
    ensures Points(s) == multiset{}
  {
  }

  lemma NothingStored(query: Point, k: nat, dist: Distance)
    ensures Listing(multiset{}, query, k, dist, []) && Closest(multiset{}, query, dist, [])
  {
  }

  // ---------------------------------------------------------------- depth-first search

  datatype ChildDist = ChildDist(child: Node, dist: real)

  function ByDistance(x: ChildDist): real {
    x.dist
  }

  function AtLeast0(k: int): nat {
    if k < 0 then 0 else k
  }

  ghost function BelowChild(view: map<Node, Shape>): ChildDist -> multiset<Point> {
    (x: ChildDist) => if x.child in view then Contents(view[x.child]) else multiset{}
  }

  ghost predicate ChildOk(s: Snapshot, query: Point, whole: Shape, x: ChildDist) {
    x.child in s.view && s.view[x.child] in whole.children && x.dist == Between(s.dist, query, s.view[x.child].point)
  }

  ghost predicate ChildrenOk(s: Snapshot, query: Point, whole: Shape, cds: multiset<ChildDist>) {
    forall x :: x in cds ==> ChildOk(s, query, whole, x)
  }

  /** `cds` are the first `i` children with their distances. */
  ghost predicate Measured(s: Snapshot, query: Point, whole: Shape, i: nat, cds: seq<ChildDist>)
    requires i <= |whole.children|
  {
    && ChildrenOk(s, query, whole, multiset(cds))
    && Gather(multiset(cds), BelowChild(s.view)) == ContentsAll(whole.children[..i])
  }

  lemma MeasuredOne(s: Snapshot, query: Point, whole: Shape, i: nat, cds: seq<ChildDist>, cd: ChildDist)
    requires i < |whole.children| && Measured(s, query, whole, i, cds)
    requires cd.child in s.view && s.view[cd.child] == whole.children[i]
    requires cd.dist == Between(s.dist, query, s.view[cd.child].point)
    ensures Measured(s, query, whole, i + 1, cds + [cd])
  {
    hide Gather, ContentsAll, Contents, ChildOk;
    var kids := whole.children;
    ChildIsOk(s, query, whole, i, cd);
    GatherAdd(multiset(cds), BelowChild(s.view), cd);
    ContentsAllAppend(kids[..i], kids[i]);
    assert kids[..i + 1] == kids[..i] + [kids[i]];
    assert multiset(cds + [cd]) == multiset(cds) + multiset{cd};
  }

  lemma ChildIsOk(s: Snapshot, query: Point, whole: Shape, i: nat, x: ChildDist)
    requires i < |whole.children| && x.child in s.view && s.view[x.child] == whole.children[i]
    requires x.dist == Between(s.dist, query, s.view[x.child].point)
    ensures ChildOk(s, query, whole, x)
  {
  }

  lemma MeasuredEnds(s: Snapshot, query: Point, whole: Shape)
    ensures Measured(s, query, whole, 0, [])
    ensures whole.children[..|whole.children|] == whole.children
  {
  }

  /** The children with their distances, as the depth-first search collects them. */
  method MeasureChildren(t: Tree, query: Point, dist: Distance, n: Node,
                         ghost s: Snapshot) returns (cds: seq<ChildDist>)
    requires Ready(t, s) && dist == s.dist && n in s.view
    ensures Measured(s, query, s.view[n], |s.view[n].children|, cds)
  {
    hide Ready, Kids, Measured, Between;
    NodeSays(t, s, n);
    var children := n.children;
    ghost var whole := s.view[n];
    MeasuredEnds(s, query, whole);
    cds := [];
    var i := 0;
    while i < |children|
      invariant 0 <= i <= |children| == |whole.children|
      invariant Measured(s, query, whole, i, cds)
    {
      var child := children[i];
      KidAt(children, whole.children, s.view, i);
      NodeSays(t, s, child);
      var cd := ChildDist(child, Between(dist, query, child.point));
      MeasuredOne(s, query, whole, i, cds, cd);
      cds := cds + [cd];
      i := i + 1;
    }
  }

  lemma SortedMeasured(s: Snapshot, query: Point, whole: Shape, cds: seq<ChildDist>, sorted: seq<ChildDist>)
    requires Measured(s, query, whole, |whole.children|, cds) && multiset(sorted) == multiset(cds)
    ensures ChildrenOk(s, query, whole, multiset(sorted))
    ensures Gather(multiset(sorted), BelowChild(s.view)) == ContentsAll(whole.children)
  {
    MeasuredEnds(s, query, whole);
  }

  lemma ChildFacts(s: Snapshot, query: Point, whole: Shape, x: ChildDist)
    requires ChildOk(s, query, whole, x)
    ensures x.child in s.view && x.dist == Between(s.dist, query, s.view[x.child].point)
    ensures whole decreases to s.view[x.child]
  {
    var i :| 0 <= i < |whole.children| && whole.children[i] == s.view[x.child];
  }

  /** One sorted child: prune its subtree or search it. */
  method TryChild(t: Tree, query: Point, k: int, dist: Distance, h: seq<Neighbor>, cd: ChildDist,
                  ghost done: multiset<Point>, ghost exact: bool, ghost s: Snapshot, ghost whole: Shape)
    returns (r: seq<Neighbor>)
    requires Ready(t, s) && dist == s.dist && ChildOk(s, query, whole, cd)
    requires Holding(h, done, query, AtLeast0(k), dist, exact)
    requires exact ==> SoundBounds(s, query)
    modifies s.view.Keys
    ensures Ready(t, s)
    ensures Holding(r, done + BelowChild(s.view)(cd), query, AtLeast0(k), dist, exact)
    ensures cd.child in s.view
    ensures 0 < k == |h| && PrunedAt(s, query, s.view[cd.child], h[0].distance) ==> r == h
    decreases whole, 0
  {
    hide Ready, ChildOk, Holding, SoundBounds, Bound, Contents, Between;
    ChildFacts(s, query, whole, cd);
    HeldCount(h, done, query, AtLeast0(k), dist, exact);
    var worst := if |h| == k && k > 0 then h[0].distance else MAX_FLOAT32;
    var radius := BoundRadius(t, cd.child, s);
    if |h| == k && cd.dist - radius >= worst {
      PruneSubtree(s, query, k, exact, h, done, cd.child);
      return h;
    }
    r := Visit(t, query, k, dist, cd.child, h, done, exact, s);
  }

  lemma HeldCount(h: seq<Neighbor>, done: multiset<Point>, query: Point, k: nat, dist: Distance, exact: bool)
    requires Holding(h, done, query, k, dist, exact)
    ensures |h| <= k
  {
  }

  /** The loop over the sorted children. */
  method TryChildren(t: Tree, query: Point, k: int, dist: Distance, start: seq<Neighbor>, cds: seq<ChildDist>,
                     ghost done: multiset<Point>, ghost exact: bool, ghost s: Snapshot, ghost whole: Shape)
    returns (h: seq<Neighbor>)
    requires Ready(t, s) && dist == s.dist && ChildrenOk(s, query, whole, multiset(cds))
    requires Holding(start, done, query, AtLeast0(k), dist, exact)
    requires exact ==> SoundBounds(s, query)
    modifies s.view.Keys
    ensures Ready(t, s)
    ensures Holding(h, done + Gather(multiset(cds), BelowChild(s.view)), query, AtLeast0(k), dist, exact)
    ensures 0 < k == |start| && AllPruned(s, query, whole, start[0].distance) ==> h == start
    decreases whole, 1
  {
    hide Ready, ChildOk, Holding, SoundBounds, Gather, BelowChild, AtLeast0, PrunedAt, AllPruned;
    h := start;
    ghost var seen := done;
    var i := 0;
    NothingGathered(s.view);
    assert cds[..0] == [];
    while i < |cds|
      invariant Ready(t, s) && 0 <= i <= |cds|
      invariant Holding(h, seen, query, AtLeast0(k), dist, exact)
      invariant seen == done + Gather(multiset(cds[..i]), BelowChild(s.view))
      invariant 0 < k == |start| && AllPruned(s, query, whole, start[0].distance) ==> h == start
    {
      assert cds[i] in multiset(cds);
      PrunedChild(s, query, whole, cds[i], if |start| > 0 then start[0].distance else 0.0);
      h := TryChild(t, query, k, dist, h, cds[i], seen, exact, s, whole);
      GatherAdd(multiset(cds[..i]), BelowChild(s.view), cds[i]);
      assert cds[..i + 1] == cds[..i] + [cds[i]];
      seen := seen + BelowChild(s.view)(cds[i]);
      i := i + 1;
    }
    assert cds[..i] == cds;
  }

  lemma PrunedChild(s: Snapshot, query: Point, whole: Shape, x: ChildDist, worst: real)
    requires ChildOk(s, query, whole, x)
    ensures x.child in s.view && (AllPruned(s, query, whole, worst) ==> PrunedAt(s, query, s.view[x.child], worst))
  {
    hide PrunedAt;
  }

  lemma NothingGathered(view: map<Node, Shape>)
    ensures Gather(multiset{}, BelowChild(view)) == multiset{}
  {
  }

  /** kNearestNeighbors at one node. */
  method Visit(t: Tree, query: Point, k: int, dist: Distance, n: Node, h: seq<Neighbor>,
               ghost done: multiset<Point>, ghost exact: bool, ghost s: Snapshot)
    returns (r: seq<Neighbor>)
    requires Ready(t, s) && dist == s.dist && n in s.view
    requires Holding(h, done, query, AtLeast0(k), dist, exact)
    requires exact ==> SoundBounds(s, query)
    modifies s.view.Keys
    ensures Ready(t, s)
    ensures Holding(r, done + Contents(s.view[n]), query, AtLeast0(k), dist, exact)
    ensures h == [] && k == 1 && PrunesBelow(s, query, s.view[n]) ==> r == [At(query, s.view[n].point, dist)]
    decreases s.view[n], 2
  {
    hide Ready, Holding, SoundBounds, Gather, BelowChild, ChildrenOk, Between, Contents, ContentsAll, Measured,
         AllPruned, At;
    OfferedFirst(query, s.view[n].point, dist);
    NodeSays(t, s, n);
    ghost var p := s.view[n].point;
    var dc := Between(dist, query, n.point);
    r := OfferDistance(h, query, AtLeast0(k), dist, n.point, dc, done, exact);
    ContentsSplit(done, s.view[n]);
    if |n.children| == 0 {
      return;
    }
    var cds := MeasureChildren(t, query, dist, n, s);
    var sorted := Sort(cds, ByDistance);
    SortedMeasured(s, query, s.view[n], cds, sorted);
    r := TryChildren(t, query, k, dist, r, sorted, done + multiset{p}, exact, s, s.view[n]);
  }

  lemma OfferedFirst(query: Point, p: Point, dist: Distance)
    ensures At(query, p, dist) == Neighbor(p, Between(dist, query, p))
  {
  }

  lemma ContentsSplit(done: multiset<Point>, shape: Shape)
    ensures done + Contents(shape) == (done + multiset{shape.point}) + ContentsAll(shape.children)
    ensures |shape.children| == 0 ==> done + Contents(shape) == done + multiset{shape.point}
  {
  }

  method OfferDistance(nh: seq<Neighbor>, query: Point, k: nat, dist: Distance, p: Point, dc: real,
                       ghost done: multiset<Point>, ghost exact: bool) returns (r: seq<Neighbor>)
    requires Holding(nh, done, query, k, dist, exact) && dc == Between(dist, query, p)
    ensures Holding(r, done + multiset{p}, query, k, dist, exact)
    ensures nh == [] && k > 0 ==> r == [Neighbor(p, dc)]
  {
    r := Offer(nh, query, k, dist, p, dc, done, exact);
  }

  /** KNearestNeighbors: the depth-first search meets the same specification, for every k. */
  method DepthFirst(t: Tree, query: Point, k: int, ghost s: Snapshot) returns (result: seq<Neighbor>)
    requires Ready(t, s)
    modifies s.view.Keys
    ensures Ready(t, s)
    ensures Listing(Points(s), query, AtLeast0(k), s.dist, result)
    ensures SoundBounds(s, query) || ExactPruning(s, query) ==> Closest(Points(s), query, s.dist, result)
    ensures k == 1 && StopsAtRoot(s, query) ==> result == [At(query, s.view[s.root].point, s.dist)]
  {
    hide Ready, SoundBounds, ExactPruning, Holding, Closest, Listing, Contents, Points, PrunesBelow, At;
    SnapshotHolds(t, s);
    if t.root == null {
      NothingStored(query, AtLeast0(k), s.dist);
      NoPoints(s);
      return [];
    }
    if ExactPruning(s, query) {
      ExactPruningIsSound(s, query);
    }
    ghost var exact := SoundBounds(s, query);
    NothingHeld(query, AtLeast0(k), s.dist, exact);
    var dist := t.Dist();
    var h := Visit(t, query, k, dist, t.root, [], multiset{}, exact, s);
    result := DrainHeld(h, Points(s), query, AtLeast0(k), dist, exact);
  }

  method DrainHeld(h: seq<Neighbor>, ghost stored: multiset<Point>, query: Point, k: nat, dist: Distance,
                   ghost exact: bool)
    returns (result: seq<Neighbor>)
    requires Holding(h, stored, query, k, dist, exact)
    ensures Listing(stored, query, k, dist, result)
    ensures exact ==> Closest(stored, query, dist, result)
    ensures |h| == 1 ==> result == h
  {
    result := Drain(h);
    if |h| == 1 {
      assert h == [h[0]];
      OnlyElement(result, multiset{}, h[0]);
    }
    DrainedIsListing(multiset(h), stored, query, k, dist, exact, result);
  }

  lemma NothingHeld(query: Point, k: nat, dist: Distance, exact: bool)
    ensures Holding([], multiset{}, query, k, dist, exact)
  {
  }
}
