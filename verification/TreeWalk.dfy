/** ForEach: the recursive walk with its set of visited indices. */
module TreeWalk {
  import opened Wire
  import opened CoverShape
  import opened CoverTree
  import opened TreeSearch

  /** The walk as coded: a node whose index was seen before is skipped with its whole subtree. */
  function Walked(s: Shape, visited: set<int>): (seq<Point>, set<int>)
    decreases s, 1
  {
    if s.point.index in visited then ([], visited)
    else
      var (ps, after) := WalkedAll(s.children, visited + {s.point.index});
      ([s.point] + ps, after)
  }

  function WalkedAll(ss: seq<Shape>, visited: set<int>): (seq<Point>, set<int>)
    decreases ss, 0
  {
    if ss == [] then ([], visited)
    else
      var (ps, middle) := Walked(ss[0], visited);
      var (qs, after) := WalkedAll(ss[1..], middle);
      (ps + qs, after)
  }

  ghost function Indices(m: multiset<Point>): set<int> {
    set p | p in m :: p.index
  }

  /** No two different points share an index, and none is stored twice. */
  ghost predicate IndexedOnce(m: multiset<Point>) {
    && (forall p :: m[p] <= 1)
    && (forall p, q :: p in m && q in m && p.index == q.index ==> p == q)
  }

  /** With unique indices the walk skips nothing: it is the preorder. */
  lemma {:induction false} WalkSkipsNothing(s: Shape, visited: set<int>)
    requires IndexedOnce(Contents(s)) && Indices(Contents(s)) !! visited
    ensures Walked(s, visited) == (Preorder(s), visited + Indices(Contents(s)))
    decreases s, 1
  {
    var rest := ContentsAll(s.children);
    assert Contents(s)[s.point] == 1 + rest[s.point];
    assert s.point.index in Indices(Contents(s));
    forall p | p in rest
      ensures p.index in Indices(Contents(s)) && p.index != s.point.index
    {
      assert p in Contents(s);
    }
    IndexedOnceBelow(rest, Contents(s));
    WalkAllSkipsNothing(s.children, visited + {s.point.index});
    assert Indices(Contents(s)) == {s.point.index} + Indices(rest);
    assert visited + {s.point.index} + Indices(rest) == visited + Indices(Contents(s));
    assert s.point.index !in visited;
  }

  lemma IndexedOnceBelow(m: multiset<Point>, n: multiset<Point>)
    requires m <= n && IndexedOnce(n)
    ensures IndexedOnce(m)
  {
  }

  lemma {:induction false} WalkAllSkipsNothing(ss: seq<Shape>, visited: set<int>)
    requires IndexedOnce(ContentsAll(ss)) && Indices(ContentsAll(ss)) !! visited
    ensures WalkedAll(ss, visited) == (PreorderAll(ss), visited + Indices(ContentsAll(ss)))
    decreases ss, 0
  {
    if ss != [] {
      var a, b := Contents(ss[0]), ContentsAll(ss[1..]);
      assert ContentsAll(ss) == a + b;
      IndexedOnceBelow(a, a + b);
      IndexedOnceBelow(b, a + b);
      assert Indices(a + b) == Indices(a) + Indices(b);
      WalkSkipsNothing(ss[0], visited);
      DisjointIndices(a, b);
      WalkAllSkipsNothing(ss[1..], visited + Indices(a));
      assert visited + Indices(a) + Indices(b) == visited + Indices(a + b);
    } else {
      assert visited + Indices(multiset{}) == visited;
    }
  }

  lemma DisjointIndices(a: multiset<Point>, b: multiset<Point>)
    requires IndexedOnce(a + b)
    ensures Indices(a) !! Indices(b)
  {
  }

  function Tagged(values: seq<Bytes>, ps: seq<Point>): (r: seq<(Bytes, Point)>)
    ensures |r| == |ps|
    ensures forall i :: 0 <= i < |ps| ==> r[i] == (ValueAt(values, ps[i].index), ps[i])
  {
    seq(|ps|, i requires 0 <= i < |ps| => (ValueAt(values, ps[i].index), ps[i]))
  }

  /** `seen` are the points of a walk over `whole` before its child `i`. */
  ghost predicate Along(whole: Shape, visited: set<int>, seen: seq<Point>, i: nat, after: set<int>)
    requires i <= |whole.children|
  {
    var (ps, last) := WalkedAll(whole.children[i..], after);
    Walked(whole, visited) == (seen + ps, last)
  }

  lemma AlongStarts(whole: Shape, visited: set<int>)
    requires whole.point.index !in visited
    ensures Along(whole, visited, [whole.point], 0, visited + {whole.point.index})
  {
  }

  lemma AlongStep(whole: Shape, visited: set<int>, seen: seq<Point>, i: nat, after: set<int>)
    requires i < |whole.children| && Along(whole, visited, seen, i, after)
    ensures var (ps, next) := Walked(whole.children[i], after); Along(whole, visited, seen + ps, i + 1, next)
  {
    WalkedAllStep(whole.children, i, after);
    var (ps, middle) := Walked(whole.children[i], after);
    var (qs, last) := WalkedAll(whole.children[i + 1..], middle);
    assert seen + (ps + qs) == (seen + ps) + qs;
  }

  lemma AlongEnds(whole: Shape, visited: set<int>, seen: seq<Point>, after: set<int>)
    requires Along(whole, visited, seen, |whole.children|, after)
    ensures Walked(whole, visited) == (seen, after)
  {
    assert whole.children[|whole.children|..] == [];
    assert seen + [] == seen;
  }

  lemma WalkEdges(values: seq<Bytes>, whole: Shape, visited: set<int>)
    ensures Tagged(values, []) == []
    ensures Tagged(values, [whole.point]) == [(ValueAt(values, whole.point.index), whole.point)]
    ensures whole.point.index in visited ==> Walked(whole, visited) == ([], visited)
  {
  }

  method Walk(t: Tree, n: Node, visited: set<int>, ghost s: Snapshot) returns (visits: seq<(Bytes, Point)>,
              after: set<int>)
    requires Ready(t, s) && n in s.view
    ensures Tagged(s.values, Walked(s.view[n], visited).0) == visits && Walked(s.view[n], visited).1 == after
    decreases s.view[n]
  {
    hide Ready, Kids, Along, WalkedAll, Walked, Tagged;
    NodeSays(t, s, n);
    WalkEdges(s.values, s.view[n], visited);
    TreeSays(t, s);
    var children, p := n.children, n.point;
    if p.index in visited {
      return [], visited;
    }
    ghost var whole := s.view[n];
    AlongStarts(whole, visited);
    visits, after := [(ValueAt(t.values, p.index), p)], visited + {p.index};
    ghost var seen := [p];
    var i := 0;
    while i < |children|
      invariant 0 <= i <= |children| == |whole.children|
      invariant visits == Tagged(s.values, seen)
      invariant Along(whole, visited, seen, i, after)
    {
      KidAt(children, whole.children, s.view, i);
      AlongStep(whole, visited, seen, i, after);
      ghost var here := Walked(whole.children[i], after).0;
      var more;
      more, after := Walk(t, children[i], after, s);
      TaggedAppend(s.values, seen, here);
      seen := seen + here;
      visits := visits + more;
      i := i + 1;
    }
    AlongEnds(whole, visited, seen, after);
  }

  lemma TaggedAppend(values: seq<Bytes>, a: seq<Point>, b: seq<Point>)
    ensures Tagged(values, a + b) == Tagged(values, a) + Tagged(values, b)
  {
  }

  lemma WalkedAllStep(ss: seq<Shape>, i: nat, visited: set<int>)
    requires i < |ss|
    ensures var (ps, middle) := Walked(ss[i], visited);
            var (qs, after) := WalkedAll(ss[i + 1..], middle);
            WalkedAll(ss[i..], visited) == (ps + qs, after)
  {
  }

  /** ForEach visits every stored point exactly once, in preorder, with its value. */
  method ForEach(t: Tree, ghost s: Snapshot) returns (visits: seq<(Bytes, Point)>)
    requires Ready(t, s)
    ensures s.root == null ==> visits == []
    ensures s.root != null ==> s.root in s.view && visits == Tagged(s.values, Preorder(s.view[s.root]))
    ensures |visits| == |s.values|
  {
    SnapshotHolds(t, s);
    if t.root == null {
      assert |t.Bag()| == |t.Stored()|;
      return [];
    }
    var after;
    visits, after := Walk(t, t.root, {}, s);
    StoredIndexedOnce(t);
    WalkSkipsNothing(s.view[t.root], {});
    PreorderContents(s.view[t.root]);
    assert |multiset(Preorder(s.view[t.root]))| == |t.Bag()| == |t.Stored()|;
  }

  lemma StoredIndexedOnce(t: Tree)
    requires t.Indexed()
    ensures IndexedOnce(t.Bag())
  {
    forall p ensures t.Bag()[p] <= 1 {
      t.StoredOnce(p);
    }
    forall p, q | p in t.Bag() && q in t.Bag() && p.index == q.index
      ensures p == q
    {
      var i :| 0 <= i < |t.Stored()| && t.Stored()[i] == p;
      var j :| 0 <= j < |t.Stored()| && t.Stored()[j] == q;
      assert i == p.index == j;
    }
  }
}
