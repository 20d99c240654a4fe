/** The cover tree as a value: what a tree of heap nodes denotes, where an insertion puts a point,
    and what every insertion keeps. */
module CoverShape {
  import opened Wire

  /** A point; `magnitude` and the coordinates are binary32 patterns. */
  datatype Point = Point(index: int, magnitude: U32, vector: seq<U32>)

  type Distance = (Point, Point) -> real

  function Between(dist: Distance, p: Point, q: Point): real {
    dist(p, q)
  }

  datatype Shape = Shape(level: int, baseLevel: real, point: Point, children: seq<Shape>)

  // ---------------------------------------------------------------- contents

  function Preorder(s: Shape): (ps: seq<Point>)
    ensures |ps| > 0
    decreases s, 1
  {
    [s.point] + PreorderAll(s.children)
  }

  function PreorderAll(ss: seq<Shape>): seq<Point>
    decreases ss, 0
  {
    if ss == [] then [] else Preorder(ss[0]) + PreorderAll(ss[1..])
  }

  /** The points of a subtree, with multiplicity. */
  ghost function Contents(s: Shape): (m: multiset<Point>)
    ensures s.point in m
    decreases s, 1
  {
    multiset{s.point} + ContentsAll(s.children)
  }

  ghost function ContentsAll(ss: seq<Shape>): multiset<Point>
    decreases ss, 0
  {
    if ss == [] then multiset{} else Contents(ss[0]) + ContentsAll(ss[1..])
  }

  ghost predicate Distinct(s: Shape) {
    forall p :: Contents(s)[p] <= 1
  }

  lemma {:induction false} PreorderContents(s: Shape)
    ensures multiset(Preorder(s)) == Contents(s)
    decreases s, 1
  {
    PreorderAllContents(s.children);
  }

  lemma {:induction false} PreorderAllContents(ss: seq<Shape>)
    ensures multiset(PreorderAll(ss)) == ContentsAll(ss)
    decreases ss, 0
  {
    if ss == [] {
    } else {
      PreorderContents(ss[0]);
      PreorderAllContents(ss[1..]);
    }
  }

  lemma {:induction false} ContentsAllAppend(ss: seq<Shape>, t: Shape)
    ensures ContentsAll(ss + [t]) == ContentsAll(ss) + Contents(t)
  {
    if ss == [] {
      assert [] + [t] == [t] && [t][1..] == [];
    } else {
      ContentsAllAppend(ss[1..], t);
      assert (ss + [t])[1..] == ss[1..] + [t];
    }
  }

  lemma {:induction false} ChildContents(ss: seq<Shape>, i: nat)
    requires i < |ss|
    ensures Contents(ss[i]) <= ContentsAll(ss)
  {
    if i == 0 {
    } else {
      ChildContents(ss[1..], i - 1);
    }
  }

  lemma DistinctChild(s: Shape, i: nat)
    requires Distinct(s) && i < |s.children|
    ensures Distinct(s.children[i])
    ensures s.point !in Contents(s.children[i])
  {
    ChildContents(s.children, i);
    assert Contents(s)[s.point] == 1 + ContentsAll(s.children)[s.point];
    forall p ensures Contents(s.children[i])[p] <= 1 {
      assert Contents(s)[p] <= 1;
    }
  }

  lemma FirstCounts(ss: seq<Shape>, p: Point)
    requires ss != []
    ensures ContentsAll(ss)[p] == Contents(ss[0])[p] + ContentsAll(ss[1..])[p]
  {
    hide Contents;
  }

  lemma ChildCounts(ss: seq<Shape>, i: nat, p: Point)
    requires i < |ss|
    ensures Contents(ss[i])[p] <= ContentsAll(ss)[p]
  {
    hide Contents, ContentsAll;
    ChildContents(ss, i);
  }

  lemma {:induction false} SiblingsCount(ss: seq<Shape>, i: nat, j: nat, p: Point)
    requires i < j < |ss|
    ensures Contents(ss[i])[p] + Contents(ss[j])[p] <= ContentsAll(ss)[p]
  {
    hide Contents, ContentsAll;
    FirstCounts(ss, p);
    if i > 0 {
      SiblingsCount(ss[1..], i - 1, j - 1, p);
    } else {
      ChildCounts(ss[1..], j - 1, p);
    }
  }

  // ---------------------------------------------------------------- powers of the base

  function Pow(base: real, e: int): (r: real)
    requires base > 0.0
    ensures r > 0.0
    decreases if e < 0 then -e else e
  {
    if e == 0 then 1.0
    else if e > 0 then base * Pow(base, e - 1)
    else Pow(base, e + 1) / base
  }

  lemma PowZero(base: real)
    requires base > 0.0
    ensures Pow(base, 0) == 1.0
  {
  }

  lemma PowStep(base: real, e: int)
    requires base > 0.0
    ensures Pow(base, e) * base == Pow(base, e + 1)
    ensures Pow(base, e) / base == Pow(base, e - 1)
  {
  }

  // ---------------------------------------------------------------- insertion

  /** Where the insertion loop ends: below an existing node, or above the whole tree. */
  datatype Placement = Attach(parent: Point, level: int) | Wrap(level: int)

  /** The first child closer than `radius`, or the number of children. */
  function FirstNear(ss: seq<Shape>, point: Point, radius: real, dist: Distance): (i: nat)
    ensures i <= |ss|
    ensures i < |ss| ==> dist(point, ss[i].point) < radius
    ensures forall j :: 0 <= j < i ==> dist(point, ss[j].point) >= radius
  {
    if ss == [] || dist(point, ss[0].point) < radius then 0
    else 1 + FirstNear(ss[1..], point, radius, dist)
  }

  function Climb(node: Shape, level: int): nat {
    if node.level < level then 0 else node.level - level + 1
  }

  /** Where the insertion loop ends when started from `node` at the tracked `level`, with the exact
      powers of the base.  The tracked level moves both ways; the loop ends because a descent shrinks
      the subtree and a climb stops above `node.level`. */
  function Place(node: Shape, point: Point, level: int, base: real, dist: Distance): Placement
    requires base > 1.0
    decreases node, Climb(node, level)
  {
    if dist(point, node.point) < Pow(base, level) then
      var i := FirstNear(node.children, point, Pow(base, level), dist);
      if i < |node.children| then Place(node.children[i], point, level - 1, base, dist)
      else Attach(node.point, level - 1)
    else if level + 1 > node.level then Wrap(level + 1)
    else Place(node, point, level + 1, base, dist)
  }

  /** `s` with `leaf` appended to the children of the node that holds `parent`. */
  function Graft(s: Shape, parent: Point, leaf: Shape): (r: Shape)
    ensures r.point == s.point && r.level == s.level && r.baseLevel == s.baseLevel
    decreases s, 1
  {
    if s.point == parent then s.(children := s.children + [leaf])
    else s.(children := GraftAll(s.children, parent, leaf))
  }

  function GraftAll(ss: seq<Shape>, parent: Point, leaf: Shape): (r: seq<Shape>)
    ensures |r| == |ss| && forall i :: 0 <= i < |ss| ==> r[i] == Graft(ss[i], parent, leaf)
    decreases ss, 0
  {
    if ss == [] then [] else [Graft(ss[0], parent, leaf)] + GraftAll(ss[1..], parent, leaf)
  }

  function NewNode(point: Point, level: int, base: real, children: seq<Shape>): Shape
    requires base > 0.0
  {
    Shape(level, Pow(base, level), point, children)
  }

  function Apply(root: Shape, placement: Placement, point: Point, base: real): Shape
    requires base > 0.0
  {
    match placement
    case Attach(parent, level) => Graft(root, parent, NewNode(point, level, base, []))
    case Wrap(level) => NewNode(point, level, base, [root])
  }

  /** The tree after one insertion; every insertion starts at the root at level 0. */
  function Inserted(tree: Option<Shape>, point: Point, base: real, dist: Distance): Option<Shape>
    requires base > 1.0
  {
    match tree
    case None => Some(NewNode(point, 0, base, []))
    case Some(root) => Some(Apply(root, Place(root, point, 0, base, dist), point, base))
  }

  /** The tree reached by inserting `points` in order. */
  function Grown(points: seq<Point>, base: real, dist: Distance): Option<Shape>
    requires base > 1.0
  {
    if points == [] then None
    else Inserted(Grown(points[..|points| - 1], base, dist), points[|points| - 1], base, dist)
  }

  ghost function TreeContents(tree: Option<Shape>): multiset<Point> {
    if tree.None? then multiset{} else Contents(tree.value)
  }

  // ---------------------------------------------------------------- where an insertion lands

  /** From the root, and starting at level 0 whatever the root's level, the loop climbs past every level
      whose ball around the root leaves the point out. */
  lemma {:induction false} PlaceClimbs(root: Shape, point: Point, from: int, level: int, base: real, dist: Distance)
    requires base > 1.0 && from <= level && (from == level || level <= root.level)
    requires forall i :: from <= i < level ==> dist(point, root.point) >= Pow(base, i)
    ensures Place(root, point, from, base, dist) == Place(root, point, level, base, dist)
    decreases level - from
  {
    if from == level {
    } else {
      PlaceClimbs(root, point, from + 1, level, base, dist);
    }
  }

  /** The least level from 0 on whose ball around the root holds the point decides: with no child of the
      root in that ball around the point, the point becomes the root's last child. */
  lemma InsertedUnderRoot(root: Shape, point: Point, level: nat, base: real, dist: Distance)
    requires base > 1.0 && (level == 0 || level <= root.level)
    requires dist(point, root.point) < Pow(base, level)
    requires forall i: int :: 0 <= i < level ==> dist(point, root.point) >= Pow(base, i)
    requires forall i :: 0 <= i < |root.children| ==> dist(point, root.children[i].point) >= Pow(base, level)
    ensures Inserted(Some(root), point, base, dist) ==
            Some(root.(children := root.children + [Shape(level - 1, Pow(base, level - 1), point, [])]))
  {
    PlaceClimbs(root, point, 0, level, base, dist);
    assert FirstNear(root.children, point, Pow(base, level), dist) == |root.children|;
  }

  /** A point outside every ball of the root up to the root's own level becomes the new root, one level
      up, with the old tree as its only child. */
  lemma InsertedAboveRoot(root: Shape, point: Point, base: real, dist: Distance)
    requires base > 1.0 && root.level >= 0
    requires forall i: int :: 0 <= i <= root.level ==> dist(point, root.point) >= Pow(base, i)
    ensures Inserted(Some(root), point, base, dist) ==
            Some(Shape(root.level + 1, Pow(base, root.level + 1), point, [root]))
  {
    PlaceClimbs(root, point, 0, root.level, base, dist);
  }

  // ---------------------------------------------------------------- grafting keeps the contents

  lemma {:induction false} GraftAbsent(s: Shape, parent: Point, leaf: Shape)
    requires parent !in Contents(s)
    ensures Graft(s, parent, leaf) == s
    decreases s, 1
  {
    GraftAllAbsent(s.children, parent, leaf);
  }

  lemma {:induction false} GraftAllAbsent(ss: seq<Shape>, parent: Point, leaf: Shape)
    requires parent !in ContentsAll(ss)
    ensures GraftAll(ss, parent, leaf) == ss
    decreases ss, 0
  {
    if ss == [] {
    } else {
      GraftAbsent(ss[0], parent, leaf);
      GraftAllAbsent(ss[1..], parent, leaf);
    }
  }

  lemma {:induction false} GraftContents(s: Shape, parent: Point, leaf: Shape)
    requires Contents(s)[parent] <= 1
    ensures Contents(Graft(s, parent, leaf)) ==
            if parent in Contents(s) then Contents(s) + Contents(leaf) else Contents(s)
    decreases s, 1
  {
    if s.point == parent {
      ContentsAllAppend(s.children, leaf);
    } else {
      GraftAllContents(s.children, parent, leaf);
    }
  }

  lemma {:induction false} GraftAllContents(ss: seq<Shape>, parent: Point, leaf: Shape)
    requires ContentsAll(ss)[parent] <= 1
    ensures ContentsAll(GraftAll(ss, parent, leaf)) ==
            if parent in ContentsAll(ss) then ContentsAll(ss) + Contents(leaf) else ContentsAll(ss)
    decreases ss, 0
  {
    if ss == [] {
    } else {
      assert ContentsAll(ss)[parent] == Contents(ss[0])[parent] + ContentsAll(ss[1..])[parent];
      GraftContents(ss[0], parent, leaf);
      GraftAllContents(ss[1..], parent, leaf);
    }
  }

  lemma {:induction false} PlaceParentIsStored(node: Shape, point: Point, level: int, base: real, dist: Distance)
    requires base > 1.0
    ensures var r := Place(node, point, level, base, dist);
            r.Attach? ==> r.parent in Contents(node)
    decreases node, Climb(node, level)
  {
    if dist(point, node.point) < Pow(base, level) {
      var i := FirstNear(node.children, point, Pow(base, level), dist);
      if i < |node.children| {
        PlaceParentIsStored(node.children[i], point, level - 1, base, dist);
        ChildContents(node.children, i);
      }
    } else if level + 1 <= node.level {
      PlaceParentIsStored(node, point, level + 1, base, dist);
    }
  }

  /** An insertion adds the new point and loses none, wherever the loop ends. */
  lemma InsertedContents(tree: Option<Shape>, point: Point, base: real, dist: Distance)
    requires base > 1.0
    requires tree.Some? ==> Distinct(tree.value)
    ensures TreeContents(Inserted(tree, point, base, dist)) == TreeContents(tree) + multiset{point}
  {
    hide Place, Graft, Contents, Pow;
    if tree.Some? {
      var root := tree.value;
      var r := Place(root, point, 0, base, dist);
      if r.Attach? {
        PlaceParentIsStored(root, point, 0, base, dist);
        LeafContents(point, r.level, base);
        GraftContents(root, r.parent, NewNode(point, r.level, base, []));
      } else {
        WrapContents(root, point, r.level, base);
      }
    } else {
      LeafContents(point, 0, base);
    }
  }

  lemma LeafContents(point: Point, level: int, base: real)
    requires base > 0.0
    ensures Contents(NewNode(point, level, base, [])) == multiset{point}
  {
  }

  lemma WrapContents(root: Shape, point: Point, level: int, base: real)
    requires base > 0.0
    ensures Contents(NewNode(point, level, base, [root])) == Contents(root) + multiset{point}
  {
    assert ContentsAll([root]) == Contents(root) + ContentsAll([root][1..]);
  }

  ghost predicate NoRepeats(points: seq<Point>) {
    forall i, j :: 0 <= i < j < |points| ==> points[i] != points[j]
  }

  lemma {:induction false} NoRepeatsOnce(points: seq<Point>, p: Point)
    requires NoRepeats(points)
    ensures multiset(points)[p] <= 1
  {
    if points == [] {
    } else {
      var n := |points| - 1;
      assert points == points[..n] + [points[n]];
      NoRepeatsOnce(points[..n], p);
    }
  }

  lemma NoRepeatsBefore(points: seq<Point>, n: nat)
    requires NoRepeats(points) && n <= |points|
    ensures NoRepeats(points[..n])
  {
  }

  lemma LastCounted(points: seq<Point>)
    requires points != []
    ensures multiset(points) == multiset(points[..|points| - 1]) + multiset{points[|points| - 1]}
  {
    assert points == points[..|points| - 1] + [points[|points| - 1]];
  }

  lemma TreeIsDistinct(tree: Shape, points: seq<Point>)
    requires NoRepeats(points) && Contents(tree) == multiset(points)
    ensures Distinct(tree)
  {
    hide Contents, NoRepeats;
    forall p ensures Contents(tree)[p] <= 1 {
      NoRepeatsOnce(points, p);
    }
  }

  /** Conservation over a whole run: the tree holds exactly the inserted points. */
  lemma {:induction false} GrownContents(points: seq<Point>, base: real, dist: Distance)
    requires base > 1.0 && NoRepeats(points)
    ensures TreeContents(Grown(points, base, dist)) == multiset(points)
    ensures points != [] ==> Grown(points, base, dist).Some? && Distinct(Grown(points, base, dist).value)
  {
    hide NoRepeats, Distinct, Inserted, Contents;
    if points == [] {
    } else {
      var n := |points| - 1;
      NoRepeatsBefore(points, n);
      GrownContents(points[..n], base, dist);
      LastCounted(points);
      InsertedContents(Grown(points[..n], base, dist), points[n], base, dist);
      TreeIsDistinct(Grown(points, base, dist).value, points);
    }
  }

  // ---------------------------------------------------------------- what the levels mean

  ghost predicate LevelsExact(s: Shape, base: real)
    requires base > 0.0
    decreases s
  {
    s.baseLevel == Pow(base, s.level) && forall i :: 0 <= i < |s.children| ==> LevelsExact(s.children[i], base)
  }

  /** The separation this code keeps: every child but the first lies within base^(level+1) of its
      parent, and at least that far from each elder sibling. */
  ghost predicate Spread(s: Shape, base: real, dist: Distance)
    requires base > 0.0
    decreases s
  {
    SpreadAt(s.point, s.children, base, dist) && forall i :: 0 <= i < |s.children| ==> Spread(s.children[i], base, dist)
  }

  ghost predicate SpreadAt(center: Point, ss: seq<Shape>, base: real, dist: Distance)
    requires base > 0.0
  {
    && (forall j :: 0 < j < |ss| ==> dist(ss[j].point, center) < Pow(base, ss[j].level + 1))
    && (forall i, j :: 0 <= i < j < |ss| ==> dist(ss[j].point, ss[i].point) >= Pow(base, ss[j].level + 1))
  }

  lemma {:induction false} GraftLevels(s: Shape, parent: Point, leaf: Shape, base: real)
    requires base > 0.0 && LevelsExact(s, base) && LevelsExact(leaf, base)
    ensures LevelsExact(Graft(s, parent, leaf), base)
    decreases s
  {
    forall i | 0 <= i < |s.children|
      ensures LevelsExact(Graft(s.children[i], parent, leaf), base)
    {
      GraftLevels(s.children[i], parent, leaf, base);
    }
  }

  lemma {:induction false} PlaceSpread(node: Shape, point: Point, level: int, base: real, dist: Distance)
    requires base > 1.0
    requires Distinct(node) && Spread(node, base, dist)
    requires Place(node, point, level, base, dist).Attach?
    ensures var r := Place(node, point, level, base, dist);
            Spread(Graft(node, r.parent, NewNode(point, r.level, base, [])), base, dist)
    decreases node, Climb(node, level)
  {
    hide Contents, Graft, Pow;
    var r := Place(node, point, level, base, dist);
    if dist(point, node.point) >= Pow(base, level) {
      PlaceSpread(node, point, level + 1, base, dist);
    } else {
      var i := FirstNear(node.children, point, Pow(base, level), dist);
      if i < |node.children| {
        DistinctChild(node, i);
        PlaceSpread(node.children[i], point, level - 1, base, dist);
        PlaceParentIsStored(node.children[i], point, level - 1, base, dist);
        SpreadInChild(node, i, r.parent, NewNode(point, r.level, base, []), base, dist);
      } else {
        SpreadAppend(node, NewNode(point, r.level, base, []), base, dist);
      }
    }
  }

  lemma SpreadAppend(node: Shape, leaf: Shape, base: real, dist: Distance)
    requires base > 1.0 && Spread(node, base, dist) && leaf.children == []
    requires dist(leaf.point, node.point) < Pow(base, leaf.level + 1)
    requires forall i :: 0 <= i < |node.children| ==>
               dist(leaf.point, node.children[i].point) >= Pow(base, leaf.level + 1)
    ensures Spread(Graft(node, node.point, leaf), base, dist)
  {
    hide Pow;
    var ss := node.children + [leaf];
    assert SpreadAt(node.point, ss, base, dist);
    assert Spread(leaf, base, dist);
    forall j | 0 <= j < |ss| ensures Spread(ss[j], base, dist) {
    }
  }

  lemma SpreadInChild(node: Shape, i: nat, parent: Point, leaf: Shape, base: real, dist: Distance)
    requires base > 1.0 && i < |node.children|
    requires Distinct(node) && Spread(node, base, dist)
    requires parent in Contents(node.children[i]) && parent != node.point
    requires Spread(Graft(node.children[i], parent, leaf), base, dist)
    ensures Spread(Graft(node, parent, leaf), base, dist)
  {
    var ss := GraftAll(node.children, parent, leaf);
    assert SpreadAt(node.point, ss, base, dist) by {
      SpreadAtSame(node.point, node.children, ss, base, dist);
    }
    forall j | 0 <= j < |ss|
      ensures Spread(ss[j], base, dist)
    {
      if j != i {
        OnlyOneChildChanges(node, i, j, parent, leaf);
      }
    }
  }

  lemma SpreadAtSame(center: Point, ss: seq<Shape>, tt: seq<Shape>, base: real, dist: Distance)
    requires base > 0.0 && SpreadAt(center, ss, base, dist)
    requires |ss| == |tt| && forall i :: 0 <= i < |ss| ==> ss[i].point == tt[i].point && ss[i].level == tt[i].level
    ensures SpreadAt(center, tt, base, dist)
  {
  }

  lemma OnlyOneChildChanges(node: Shape, i: nat, j: nat, parent: Point, leaf: Shape)
    requires Distinct(node) && i < |node.children| && j < |node.children| && i != j
    requires parent in Contents(node.children[i])
    ensures Graft(node.children[j], parent, leaf) == node.children[j]
  {
    assert Contents(node)[parent] <= 1;
    SiblingsCount(node.children, if i < j then i else j, if i < j then j else i, parent);
    GraftAbsent(node.children[j], parent, leaf);
  }

  /** Over a whole run of insertions every node keeps baseLevel = base^level, and siblings stay separated. */
  lemma {:induction false} GrownLevelsAndSpread(points: seq<Point>, base: real, dist: Distance)
    requires base > 1.0 && NoRepeats(points) && points != []
    ensures Grown(points, base, dist).Some?
    ensures LevelsExact(Grown(points, base, dist).value, base)
    ensures Spread(Grown(points, base, dist).value, base, dist)
  {
    var n := |points| - 1;
    var before := Grown(points[..n], base, dist);
    if n == 0 {
    } else {
      GrownContents(points[..n], base, dist);
      GrownLevelsAndSpread(points[..n], base, dist);
      InsertedLevels(before, points[n], base, dist);
      if Place(before.value, points[n], 0, base, dist).Attach? {
        PlaceSpread(before.value, points[n], 0, base, dist);
      }
    }
  }

  lemma InsertedLevels(tree: Option<Shape>, point: Point, base: real, dist: Distance)
    requires base > 1.0
    requires tree.Some? ==> LevelsExact(tree.value, base)
    ensures LevelsExact(Inserted(tree, point, base, dist).value, base)
  {
    if tree.Some? {
      var r := Place(tree.value, point, 0, base, dist);
      if r.Attach? {
        GraftLevels(tree.value, r.parent, NewNode(point, r.level, base, []), base);
      }
    }
  }

  // ---------------------------------------------------------------- cover radius

  function Max(a: real, b: real): real {
    if a < b then b else a
  }

  /** The uncached subtree radius. */
  function Radius(s: Shape, dist: Distance): (r: real)
    ensures r >= 0.0
    decreases s, |s.children| + 1
  {
    Reach(s, |s.children|, dist)
  }

  function Reach(s: Shape, i: nat, dist: Distance): (r: real)
    requires i <= |s.children|
    ensures r >= 0.0
    decreases s, i
  {
    if i == 0 then 0.0
    else
      var child := s.children[i - 1];
      Max(Reach(s, i - 1, dist), dist(s.point, child.point) + Radius(child, dist))
  }

  ghost predicate Symmetric(dist: Distance, universe: iset<Point>) {
    forall p, q :: p in universe && q in universe ==> dist(p, q) == dist(q, p)
  }

  ghost predicate Triangle(dist: Distance, universe: iset<Point>) {
    forall p, q, r :: p in universe && q in universe && r in universe ==> dist(p, r) <= dist(p, q) + dist(q, r)
  }

  ghost predicate Metric(dist: Distance, universe: iset<Point>) {
    Symmetric(dist, universe) && Triangle(dist, universe)
  }

  lemma {:induction false} ReachCoversChild(s: Shape, i: nat, j: nat, dist: Distance)
    requires i < j <= |s.children|
    ensures dist(s.point, s.children[i].point) + Radius(s.children[i], dist) <= Reach(s, j, dist)
  {
    if i == j - 1 {
    } else {
      ReachCoversChild(s, i, j - 1, dist);
    }
  }

  /** The radius bounds the distance from a node to every proper descendant. */
  lemma {:induction false} RadiusCoversDescendants(s: Shape, p: Point, dist: Distance, universe: iset<Point>)
    requires Triangle(dist, universe)
    requires forall q :: q in Contents(s) ==> q in universe
    requires p in Contents(s) && p != s.point
    ensures dist(s.point, p) <= Radius(s, dist)
    decreases s
  {
    var i := ChildHolding(s.children, p);
    var child := s.children[i];
    ChildContents(s.children, i);
    ReachCoversChild(s, i, |s.children|, dist);
    if p == child.point {
    } else {
      forall q | q in Contents(child) ensures q in universe {
        assert q in Contents(s);
      }
      RadiusCoversDescendants(child, p, dist, universe);
      assert child.point in Contents(s);
    }
  }

  lemma {:induction false} ChildHolding(ss: seq<Shape>, p: Point) returns (i: nat)
    requires p in ContentsAll(ss)
    ensures i < |ss| && p in Contents(ss[i])
  {
    if p in Contents(ss[0]) {
      i := 0;
    } else {
      i := ChildHolding(ss[1..], p);
      i := i + 1;
    }
  }

  /** Child positions from a node downwards. */
  predicate IsPath(s: Shape, path: seq<nat>)
    decreases |path|
  {
    path == [] || (path[0] < |s.children| && IsPath(s.children[path[0]], path[1..]))
  }

  function PathLength(s: Shape, path: seq<nat>, dist: Distance): real
    requires IsPath(s, path)
    decreases |path|
  {
    if path == [] then 0.0
    else
      var child := s.children[path[0]];
      dist(s.point, child.point) + PathLength(child, path[1..], dist)
  }

  lemma {:induction false} PathWithinRadius(s: Shape, path: seq<nat>, dist: Distance)
    requires IsPath(s, path)
    ensures PathLength(s, path, dist) <= Radius(s, dist)
    decreases |path|
  {
    if path == [] {
    } else {
      PathWithinRadius(s.children[path[0]], path[1..], dist);
      ReachCoversChild(s, path[0], |s.children|, dist);
    }
  }

  lemma {:induction false} LongestPath(s: Shape, dist: Distance) returns (path: seq<nat>)
    ensures IsPath(s, path) && PathLength(s, path, dist) == Radius(s, dist)
    decreases s, |s.children| + 1
  {
    path := LongestBelow(s, |s.children|, dist);
  }

  lemma {:induction false} LongestBelow(s: Shape, n: nat, dist: Distance) returns (path: seq<nat>)
    requires n <= |s.children|
    ensures IsPath(s, path) && PathLength(s, path, dist) == Reach(s, n, dist)
    decreases s, n
  {
    if n == 0 {
      path := [];
    } else {
      path := LongestBelow(s, n - 1, dist);
      var child := s.children[n - 1];
      if Reach(s, n - 1, dist) < dist(s.point, child.point) + Radius(child, dist) {
        var tail := LongestPath(child, dist);
        path := [n - 1] + tail;
        assert path[1..] == tail;
      }
    }
  }

  /** The radius of a node is the length of the longest way down from it. */
  lemma RadiusIff(s: Shape, r: real, dist: Distance)
    ensures r == Radius(s, dist)
            <==> && (forall path :: IsPath(s, path) ==> PathLength(s, path, dist) <= r)
                 && exists path :: IsPath(s, path) && PathLength(s, path, dist) == r
  {
    hide PathLength;
    forall path | IsPath(s, path)
      ensures PathLength(s, path, dist) <= Radius(s, dist)
    {
      PathWithinRadius(s, path, dist);
    }
    var longest := LongestPath(s, dist);
  }

  /** What makes pruning sound: the lower bound of a subtree is below every distance in it. */
  lemma LowerBound(s: Shape, query: Point, p: Point, dist: Distance, universe: iset<Point>)
    requires Metric(dist, universe) && query in universe
    requires forall q :: q in Contents(s) ==> q in universe
    requires p in Contents(s)
    ensures dist(query, s.point) - Radius(s, dist) <= dist(query, p)
  {
    if p != s.point {
      RadiusCoversDescendants(s, p, dist, universe);
      assert dist(query, s.point) <= dist(query, p) + dist(p, s.point);
    }
  }
}
