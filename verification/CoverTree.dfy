/** The cover tree of internal/cover/tree: heap nodes, the tree that owns them, and insertion, which
    changes them in place. */
module CoverTree {
  import opened Wire
  import opened CoverShape

  datatype MetricName = Cosine | Euclidean

  datatype BoundStrategy = BoundPerNode | BoundLevel

  /** The functions the tree takes from outside: the value of a binary32 pattern, and the vector
      library's magnitude and distances. */
  datatype Library = Library(
    val: U32 -> real,
    magnitude: seq<U32> -> U32,
    cosine: Distance,
    euclidean: Distance)

  /** 1.3 as a binary32 pattern. */
  const DEFAULT_BASE: U32 := 0x3FA66666

  const MAX_FLOAT32: real := 340282346638528859811704183484516925440.0

  /** The radius bound derived from a node's level alone. */
  function LevelRadius(base: real, baseLevel: real): real {
    if base <= 1.0 then MAX_FLOAT32 else baseLevel * base / (base - 1.0)
  }

  function ValueAt(values: seq<Bytes>, index: int): Bytes {
    if index < 0 || index >= |values| then [] else values[index]
  }

  class Node {
    var level: int
    var baseLevel: real
    var point: Point
    var children: seq<Node>
    var radius: real
    var radiusComputed: nat

    constructor (level: int, baseLevel: real, point: Point, children: seq<Node>)
      ensures this.level == level && this.baseLevel == baseLevel && this.point == point && this.children == children
      ensures radiusComputed == 0
    {
      this.level, this.baseLevel, this.point, this.children := level, baseLevel, point, children;
      radius, radiusComputed := 0.0, 0;
    }

    /** This node and its children denote what `view` says they do. */
    ghost predicate Mirrors(view: map<Node, Shape>)
      requires this in view
      reads `level, `baseLevel, `point, `children
    {
      Denotes(view, view[this], level, baseLevel, point, children)
    }
  }

  ghost predicate Denotes(view: map<Node, Shape>, s: Shape, level: int, baseLevel: real, point: Point,
                          children: seq<Node>) {
    && level == s.level && baseLevel == s.baseLevel && point == s.point
    && |children| == |s.children|
    && forall i :: 0 <= i < |children| ==> children[i] in view && view[children[i]] == s.children[i]
  }

  class Tree {
    const lib: Library
    var root: Node?
    var base: U32
    var metric: MetricName
    var values: seq<Bytes>
    var indexMap: map<int, Point>
    var version: nat
    var boundStrategy: BoundStrategy
    /** Every node of the tree and the subtree it denotes. */
    ghost var view: map<Node, Shape>

    function Base(): real
      reads `base
    {
      lib.val(base)
    }

    function Dist(): Distance
      reads `metric
    {
      if metric.Cosine? then lib.cosine else lib.euclidean
    }

    // -------------------------------------------------------------- invariant

    ghost predicate Linked()
      reads `root, `view, view.Keys`level, view.Keys`baseLevel, view.Keys`point, view.Keys`children
    {
      && (if root == null then view == map[] else root in view)
      && (forall n :: n in view ==> n.Mirrors(view))
      && (forall n, m :: n in view && m in view && n.point == m.point ==> n == m)
    }

    ghost predicate Indexed()
      reads `values, `indexMap
    {
      && (forall i :: i in indexMap <==> 0 <= i < |values|)
      && (forall i :: i in indexMap ==> indexMap[i].index == i)
    }

    /** The stored points in order of insertion. */
    ghost function Stored(): seq<Point>
      requires Indexed()
      reads `values, `indexMap
    {
      var m := indexMap;
      seq(|values|, i requires i in m => m[i])
    }

    ghost function Bag(): multiset<Point>
      requires Indexed()
      reads `values, `indexMap
    {
      multiset(Stored())
    }

    /** The tree holds exactly the stored points. */
    ghost predicate Conserves()
      requires Linked() && Indexed()
      reads `root, `view, `values, `indexMap, view.Keys`level, view.Keys`baseLevel, view.Keys`point, view.Keys`children
    {
      && TreeContents(AsShape()) == Bag()
      && AllFit(view, Bag())
    }

    /** A radius stamped with the current version is the uncached radius. */
    ghost predicate Coherent()
      reads `version, `metric, `view, view.Keys`radius, view.Keys`radiusComputed
    {
      forall n :: n in view ==>
        && n.radiusComputed <= version
        && (n.radiusComputed == version ==> n.radius == Radius(view[n], Dist()))
    }

    ghost predicate Valid()
      reads this, view.Keys
    {
      && Linked() && Indexed() && Conserves() && Coherent()
      && (root != null ==> version > 0)
    }

    /** What insertions need and keep besides: the base is usable and every baseLevel is its power. */
    ghost predicate Graded()
      reads `root, `base, `view
    {
      Base() > 1.0 && (root != null ==> root in view && LevelsExact(view[root], Base()))
    }

    ghost function AsShape(): Option<Shape>
      requires root != null ==> root in view
      reads `root, `view
    {
      if root == null then None else Some(view[root])
    }

    lemma StoredOnce(p: Point)
      requires Indexed()
      ensures Bag()[p] <= 1
    {
      var ps := Stored();
      forall i, j | 0 <= i < j < |ps|
        ensures ps[i] != ps[j]
      {
        assert ps[i].index == i && ps[j].index == j;
      }
      NoRepeatsOnce(ps, p);
    }

    // -------------------------------------------------------------- construction

    constructor (lib: Library, base: U32, metric: MetricName)
      requires lib.val(DEFAULT_BASE) > 1.0
      ensures Valid() && Graded() && fresh(view.Keys)
      ensures this.lib == lib && this.metric == metric && root == null && values == []
      ensures this.base == if lib.val(base) <= 1.0 then DEFAULT_BASE else base
      ensures boundStrategy == BoundPerNode
    {
      this.lib := lib;
      this.base := if lib.val(base) <= 1.0 then DEFAULT_BASE else base;
      this.metric := metric;
      root, values, indexMap, version, boundStrategy, view := null, [], map[], 0, BoundPerNode, map[];
    }

    // -------------------------------------------------------------- insertion

    /** No radius is stamped later than `v`. */
    ghost predicate Stale(v: nat)
      reads `view, view.Keys`radiusComputed
    {
      forall n :: n in view ==> n.radiusComputed <= v
    }

    /** An insertion step leaves everything but the nodes alone. */
    twostate predicate Kept()
      reads this, view.Keys
    {
      && (old(Stale(version)) ==> Stale(version))
      && base == old(base) && metric == old(metric) && boundStrategy == old(boundStrategy)
      && values == old(values) && indexMap == old(indexMap) && version == old(version)
    }

    /** A new leaf becomes the last child of a node; every ancestor now denotes the grafted subtree. */
    method AppendChild(parent: Node, level: int, baseLevel: real, point: Point) returns (child: Node)
      requires Linked() && parent in view
      requires Distinct(view[parent]) && forall n :: n in view ==> point != n.point
      modifies this`view, parent`children
      ensures Linked() && fresh(child) && child.radiusComputed == 0
      ensures Kept()
      ensures view == GraftView(old(view), parent.point, Shape(level, baseLevel, point, []), child)
    {
      hide Graft, Contents, Distinct, Denotes, GraftView;
      var leaf := Shape(level, baseLevel, point, []);
      ghost var before := view;
      ParentIsAlone(parent);
      child := new Node(level, baseLevel, point, []);
      parent.children := parent.children + [child];
      view := GraftView(before, parent.point, leaf, child);
      LeafDenotes(before, parent.point, leaf, child);
      forall n | n in before
        ensures n.Mirrors(view)
      {
        assert old(n.Mirrors(view));
        GraftedDenotes(before, parent, leaf, child, n, n.level, n.baseLevel, n.point, old(n.children));
        assert n.children == old(n.children) + if n == parent then [child] else [];
      }
    }

    /** Only the parent holds its point. */
    lemma ParentIsAlone(parent: Node)
      requires Linked() && parent in view
      ensures forall n :: n in view && view[n].point == parent.point ==> n == parent
      ensures parent.point == view[parent].point && (root == null ==> view == map[]) && (root != null ==> root in view)
    {
    }

    /** A new node becomes the root, with the whole old tree as its only child. */
    method WrapRoot(level: int, baseLevel: real, point: Point)
      requires Linked() && root != null
      requires forall n :: n in view ==> point != n.point
      modifies this`view, this`root
      ensures Linked() && root != null && fresh(root) && root.radiusComputed == 0
      ensures Kept()
      ensures view == old(view)[root := Shape(level, baseLevel, point, [old(view[root])])]
    {
      var newRoot := new Node(level, baseLevel, point, [root]);
      view := view[newRoot := Shape(level, baseLevel, point, [view[root]])];
      root := newRoot;
    }

    /** The scan over the children: the first one closer than `radius`, or none. */
    method FirstNearChild(node: Node, point: Point, radius: real, dist: Distance) returns (child: Node?)
      requires Linked() && node in view
      ensures var kids := view[node].children;
              var i := FirstNear(kids, point, radius, dist);
              if child == null then i == |kids| else i < |kids| && child in view && view[child] == kids[i]
    {
      ghost var kids := view[node].children;
      var i := 0;
      while i < |node.children|
        invariant 0 <= i <= |node.children|
        invariant forall j :: 0 <= j < i ==> dist(point, kids[j].point) >= radius
      {
        child := node.children[i];
        assert view[child] == kids[i];
        if dist(point, child.point) < radius {
          return;
        }
        i := i + 1;
      }
      child := null;
    }

    /** What a node's own fields say about the subtree it denotes. */
    lemma NodeFields(node: Node)
      requires Linked() && node in view
      ensures node.point == view[node].point && node.level == view[node].level
    {
    }

    lemma RootIsThere()
      requires Linked()
      ensures if root == null then view == map[] else root in view
    {
    }

    lemma NewToAll(point: Point, stored: multiset<Point>)
      requires Linked() && point !in stored && AllFit(view, stored)
      ensures forall n :: n in view ==> point != n.point && Distinct(view[n])
    {
    }

    /** One turn of the insertion loop: descend into the first near child, climb a level, or stop. */
    method Turn(point: Point, b: real, dist: Distance, from: Node, fromLevel: int, fromBase: real)
      returns (stop: bool, attach: bool, node: Node, level: int, baseLevel: real)
      requires Linked() && from in view && b > 1.0 && fromBase == Pow(b, fromLevel)
      ensures node in view && baseLevel == Pow(b, level)
      ensures Place(view[from], point, fromLevel, b, dist) ==
              if !stop then Place(view[node], point, level, b, dist)
              else if attach then Placement.Attach(view[node].point, level) else Placement.Wrap(level)
      ensures stop || (view[from], Climb(view[from], fromLevel) decreases to view[node], Climb(view[node], level))
    {
      hide Place, FirstNear, Pow, Linked, Climb;
      NodeFields(from);
      node := from;
      if dist(point, node.point) < fromBase {
        PlaceNear(view[node], point, fromLevel, b, dist);
        var child := FirstNearChild(node, point, fromBase, dist);
        level := fromLevel - 1;
        baseLevel := Shrink(fromBase, b, fromLevel);
        if child == null {
          return true, true, node, level, baseLevel;
        }
        return false, true, child, level, baseLevel;
      }
      PlaceFar(view[node], point, fromLevel, b, dist);
      level := fromLevel + 1;
      baseLevel := Grow(fromBase, b, fromLevel);
      return level > node.level, false, node, level, baseLevel;
    }

    /** The insertion loop up to the node where it stops.  It ends where `Place` says, although it
        tracks baseLevel by division and multiplication and follows pointers. */
    method FindPlace(point: Point, b: real, dist: Distance, ghost whole: Shape)
      returns (attach: bool, node: Node, level: int, baseLevel: real)
      requires Linked() && root != null && b > 1.0 && whole == view[root]
      ensures node in view && baseLevel == Pow(b, level)
      ensures Place(whole, point, 0, b, dist) ==
              if attach then Placement.Attach(view[node].point, level) else Placement.Wrap(level)
    {
      hide Place, Pow, Linked, Climb;
      RootIsThere();
      PowZero(b);
      node, level, baseLevel, attach := root, 0, 1.0, false;
      var stop := false;
      while !stop
        invariant node in view && baseLevel == Pow(b, level)
        invariant Place(whole, point, 0, b, dist) ==
                  if !stop then Place(view[node], point, level, b, dist)
                  else if attach then Placement.Attach(view[node].point, level) else Placement.Wrap(level)
        decreases !stop, view[node], Climb(view[node], level)
      {
        stop, attach, node, level, baseLevel := Turn(point, b, dist, node, level, baseLevel);
      }
    }

    method Attach(parent: Node, level: int, baseLevel: real, point: Point,
                  ghost stored: multiset<Point>) returns (node: Node)
      requires Linked() && root != null && parent in view && Base() > 0.0 && baseLevel == Pow(Base(), level)
      requires point !in stored && AllFit(view, stored)
      modifies this`view, parent`children
      ensures Linked() && AllFit(view, stored + multiset{point})
      ensures AsShape() == Some(Apply(old(view[root]), Placement.Attach(old(parent.point), level), point, Base()))
      ensures Kept()
      ensures view.Keys == old(view.Keys) + {node} && fresh(node) && node.radiusComputed == 0
    {
      hide Linked, Fits, AllFit, Graft, Pow, Distinct, Stale;
      NewToAll(point, stored);
      RootIsThere();
      node := AppendChild(parent, level, baseLevel, point);
      AllFitGrafted(old(view), stored, parent.point, NewNode(point, level, Base(), []), node);
    }

    method Wrap(level: int, baseLevel: real, point: Point, ghost stored: multiset<Point>) returns (node: Node)
      requires Linked() && root != null && Base() > 0.0 && baseLevel == Pow(Base(), level)
      requires point !in stored && AllFit(view, stored)
      modifies this`view, this`root
      ensures Linked() && AllFit(view, stored + multiset{point})
      ensures AsShape() == Some(Apply(old(view[root]), Placement.Wrap(level), point, Base()))
      ensures Kept()
      ensures view.Keys == old(view.Keys) + {node} && fresh(node) && node.radiusComputed == 0
    {
      hide Linked, Fits, AllFit, Pow, Distinct, Stale;
      NewToAll(point, stored);
      RootIsThere();
      WrapRoot(level, baseLevel, point);
      node := root;
      AllFitWrapped(old(view), stored, view[root], old(root), node);
    }

    /** insert: the new node goes below the node found, or above the whole tree. */
    method PlacePoint(point: Point, ghost stored: multiset<Point>) returns (node: Node)
      requires Linked() && root != null && Base() > 1.0
      requires point !in stored && AllFit(view, stored)
      modifies this`root, this`view, view.Keys`children
      ensures Linked() && AllFit(view, stored + multiset{point})
      ensures AsShape() == Inserted(old(AsShape()), point, Base(), Dist())
      ensures Kept()
      ensures view.Keys == old(view.Keys) + {node} && fresh(node) && node.radiusComputed == 0
    {
      hide Linked, Place, Pow, Apply, Graft, AllFit, Stale;
      RootIsThere();
      var attach, target, level, baseLevel := FindPlace(point, Base(), Dist(), view[root]);
      NodeFields(target);
      if attach {
        node := Attach(target, level, baseLevel, point, stored);
      } else {
        node := Wrap(level, baseLevel, point, stored);
      }
    }

    /** values.put and the index map entry. */
    method Put(value: Bytes, point: Point) returns (p: Point)
      requires Indexed() && Linked()
      modifies `values, `indexMap
      ensures Linked()
      ensures Indexed() && p == Stamped(lib, point, |old(values)|)
      ensures values == old(values) + [value]
      ensures Stored() == old(Stored()) + [p] && Bag() == old(Bag()) + multiset{p} && p !in old(Bag())
      ensures root == old(root) && view == old(view) && version == old(version)
              && (old(Stale(version)) ==> Stale(version))
      ensures base == old(base) && metric == old(metric) && boundStrategy == old(boundStrategy)
    {
      IsNew(point);
      p := Stamped(lib, point, |values|);
      indexMap := indexMap[|values| := p];
      values := values + [value];
      assert Stored() == old(Stored()) + [p];
    }

    /** The point about to be inserted is none of the stored ones. */
    lemma IsNew(point: Point)
      requires Indexed()
      ensures Stamped(lib, point, |values|) !in Bag()
    {
    }

    method PlaceFirst(p: Point, ghost stored: multiset<Point>) returns (node: Node)
      requires Linked() && root == null && Base() > 1.0 && p !in stored
      modifies `root, `view
      ensures Linked() && AllFit(view, stored + multiset{p}) && root != null && Kept()
      ensures AsShape() == Some(NewNode(p, 0, Base(), []))
      ensures view.Keys == {node} && fresh(node) && node.radiusComputed == 0
    {
      hide Fits, Pow, Contents;
      PowZero(Base());
      var first := NewNode(p, 0, Base(), []);
      FirstFits(first, stored);
      node := new Node(0, 1.0, p, []);
      root := node;
      view := map[node := first];
    }

    /** The structural part of Insert: a first node, or the insertion loop. */
    method Extend(p: Point, ghost stored: multiset<Point>) returns (node: Node)
      requires Linked() && Base() > 1.0 && p !in stored && AllFit(view, stored)
      modifies `root, `view, view.Keys`children
      ensures Linked() && AllFit(view, stored + multiset{p}) && root != null && Kept()
      ensures AsShape() == Inserted(old(AsShape()), p, Base(), Dist())
      ensures view.Keys == old(view.Keys) + {node} && fresh(node) && node.radiusComputed == 0
    {
      hide Linked, AllFit, Place, Apply, Pow, Stale;
      RootIsThere();
      if root == null {
        node := PlaceFirst(p, stored);
      } else {
        node := PlacePoint(p, stored);
      }
    }

    /** Insert: allocates the next index, records the point, places it, and starts a new version. */
    method Insert(value: Bytes, point: Point) returns (index: int, ghost node: Node)
      requires Valid() && Graded()
      modifies `root, `view, `values, `indexMap, `version, view.Keys`children
      ensures Valid() && Graded() && view.Keys == old(view.Keys) + {node} && fresh(node)
      ensures index == |old(values)| && values == old(values) + [value]
      ensures Stored() == old(Stored()) + [Stamped(lib, point, index)]
      ensures AsShape() == Inserted(old(AsShape()), Stamped(lib, point, index), Base(), Dist())
      ensures version == old(version) + 1
      ensures base == old(base) && metric == old(metric) && boundStrategy == old(boundStrategy)
    {
      hide Linked, AllFit, Indexed, Coherent, Conserves, Inserted, TreeContents, LevelsExact, Distinct, Valid, Graded,
           Stamped, Stale;
      WhatInsertUses();
      ghost var stored, before := Bag(), AsShape();
      index := |values|;
      var p := Put(value, point);
      node := Extend(p, stored);
      BumpVersion();
      StillValid(before, stored, p);
    }

    method BumpVersion()
      requires Linked() && Indexed() && Stale(version)
      modifies `version
      ensures Stale(old(version))
      ensures Linked() && Indexed() && version == old(version) + 1
      ensures base == old(base) && metric == old(metric) && boundStrategy == old(boundStrategy)
      ensures values == old(values) && indexMap == old(indexMap) && root == old(root) && view == old(view)
    {
      version := version + 1;
    }

    /** A new version makes every memoised radius stale, so the tree is valid again. */
    lemma StillValid(before: Option<Shape>, stored: multiset<Point>, p: Point)
      requires Base() > 1.0 && Linked() && Indexed() && root != null
      requires Bag() == stored + multiset{p} && AllFit(view, Bag())
      requires before.Some? ==> Distinct(before.value) && LevelsExact(before.value, Base())
      requires TreeContents(before) == stored && AsShape() == Inserted(before, p, Base(), Dist())
      requires version > 0 && Stale(version - 1)
      ensures Valid() && Graded()
    {
      InsertedContents(before, p, Base(), Dist());
      InsertedLevels(before, p, Base(), Dist());
    }

    lemma WhatInsertUses()
      requires Valid() && Graded()
      ensures Base() > 1.0 && Linked() && Indexed() && (root != null ==> root in view)
      ensures AllFit(view, Bag()) && TreeContents(AsShape()) == Bag()
      ensures root != null ==> Distinct(view[root]) && LevelsExact(view[root], Base())
      ensures Stale(version)
    {
    }
  }

  lemma FirstFits(first: Shape, stored: multiset<Point>)
    requires first.children == [] && first.point !in stored
    ensures Fits(first, stored + multiset{first.point})
  {
  }

  /** The point as the tree keeps it: indexed, and with its magnitude filled in when it is zero. */
  function Stamped(lib: Library, point: Point, index: int): Point {
    if lib.val(point.magnitude) == 0.0 && |point.vector| > 0
    then Point(index, lib.magnitude(point.vector), point.vector)
    else point.(index := index)
  }

  /** A magnitude that is given is kept; a missing one is the library's for the vector. */
  lemma StampedMagnitude(lib: Library, point: Point, index: int)
    ensures var p := Stamped(lib, point, index);
            && p.index == index && p.vector == point.vector
            && (lib.val(point.magnitude) != 0.0 ==> p.magnitude == point.magnitude)
            && (lib.val(point.magnitude) == 0.0 && point.vector != [] ==> p.magnitude == lib.magnitude(point.vector))
  {
  }

  /** Going down or up one level by division or multiplication stays on exact powers. */
  method Shrink(baseLevel: real, base: real, ghost level: int) returns (next: real)
    requires base > 0.0 && baseLevel == Pow(base, level)
    ensures next == Pow(base, level - 1)
  {
    PowStep(base, level);
    next := baseLevel / base;
  }

  method Grow(baseLevel: real, base: real, ghost level: int) returns (next: real)
    requires base > 0.0 && baseLevel == Pow(base, level)
    ensures next == Pow(base, level + 1)
  {
    PowStep(base, level);
    next := baseLevel * base;
  }

  /** A turn of the insertion loop near the node: into the first near child, or stop. */
  lemma PlaceNear(node: Shape, point: Point, level: int, base: real, dist: Distance)
    requires base > 1.0 && dist(point, node.point) < Pow(base, level)
    ensures
      var i := FirstNear(node.children, point, Pow(base, level), dist);
      Place(node, point, level, base, dist) ==
      if i < |node.children| then Place(node.children[i], point, level - 1, base, dist)
      else Attach(node.point, level - 1)
  {
  }

  /** A turn away from the node: up one level, or above the whole tree. */
  lemma PlaceFar(node: Shape, point: Point, level: int, base: real, dist: Distance)
    requires base > 1.0 && dist(point, node.point) >= Pow(base, level)
    ensures Place(node, point, level, base, dist) ==
            if level + 1 > node.level then Wrap(level + 1) else Place(node, point, level + 1, base, dist)
    ensures level + 1 <= node.level ==> Climb(node, level + 1) < Climb(node, level)
  {
  }

  /** A node of the tree, the parent or another, denotes its grafted subtree once the child is in place. */
  lemma GraftedDenotes(before: map<Node, Shape>, parent: Node, leaf: Shape, child: Node, n: Node,
                       level: int, baseLevel: real, point: Point, kids: seq<Node>)
    requires parent in before && Distinct(before[parent]) && child !in before
    requires n in before && (before[n].point == before[parent].point ==> n == parent)
    requires Denotes(before, before[n], level, baseLevel, point, kids)
    ensures var after := GraftView(before, before[parent].point, leaf, child);
            Denotes(after, after[n], level, baseLevel, point, kids + if n == parent then [child] else [])
  {
    hide Distinct;
    if n == parent {
      ParentKeepsChildren(before[n], leaf);
    }
  }

  lemma LeafDenotes(before: map<Node, Shape>, parent: Point, leaf: Shape, child: Node)
    requires leaf.children == []
    ensures var after := GraftView(before, parent, leaf, child);
            after[child] == leaf && Denotes(after, leaf, leaf.level, leaf.baseLevel, leaf.point, [])
  {
  }

  lemma ParentKeepsChildren(s: Shape, leaf: Shape)
    requires Distinct(s)
    ensures forall i :: 0 <= i < |s.children| ==> Graft(s.children[i], s.point, leaf) == s.children[i]
  {
    forall i | 0 <= i < |s.children|
      ensures Graft(s.children[i], s.point, leaf) == s.children[i]
    {
      DistinctChild(s, i);
      GraftAbsent(s.children[i], s.point, leaf);
    }
  }

  ghost predicate Fits(s: Shape, stored: multiset<Point>) {
    Contents(s) <= stored && Distinct(s)
  }

  /** Every node denotes a subtree of distinct stored points. */
  ghost predicate AllFit(view: map<Node, Shape>, stored: multiset<Point>) {
    forall n :: n in view ==> Fits(view[n], stored)
  }

  ghost function GraftView(view: map<Node, Shape>, parent: Point, leaf: Shape, child: Node): (after: map<Node, Shape>)
    ensures after.Keys == view.Keys + {child}
  {
    (map n | n in view :: Graft(view[n], parent, leaf))[child := leaf]
  }

  lemma AllFitGrafted(view: map<Node, Shape>, stored: multiset<Point>, parent: Point, leaf: Shape, child: Node)
    requires leaf.children == [] && leaf.point !in stored && AllFit(view, stored)
    ensures AllFit(GraftView(view, parent, leaf, child), stored + multiset{leaf.point})
  {
    assert Contents(leaf) == multiset{leaf.point};
    forall n | n in view
      ensures Fits(Graft(view[n], parent, leaf), stored + multiset{leaf.point})
    {
      FitsGrafted(view[n], stored, parent, leaf);
    }
  }

  lemma FitsGrafted(s: Shape, stored: multiset<Point>, parent: Point, leaf: Shape)
    requires Contents(leaf) == multiset{leaf.point} && leaf.point !in stored && Fits(s, stored)
    ensures Fits(Graft(s, parent, leaf), stored + multiset{leaf.point})
  {
    assert Contents(s)[parent] <= 1;
    GraftContents(s, parent, leaf);
    forall p ensures Contents(Graft(s, parent, leaf))[p] <= 1 {
      assert Contents(s)[p] <= 1 && Contents(s)[p] <= stored[p];
    }
  }

  lemma AllFitWrapped(view: map<Node, Shape>, stored: multiset<Point>, top: Shape, root: Node, newRoot: Node)
    requires root in view && top.children == [view[root]] && top.point !in stored && AllFit(view, stored)
    ensures AllFit(view[newRoot := top], stored + multiset{top.point})
  {
    assert ContentsAll(top.children) == Contents(view[root]) + ContentsAll(top.children[1..]);
    forall p ensures Contents(top)[p] <= 1 {
      assert Contents(view[root])[p] <= 1 && Contents(view[root])[p] <= stored[p];
    }
  }
}
