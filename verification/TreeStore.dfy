/** EncodeBinary and DecodeBinary over heap trees: the writer prints what the tree denotes, the reader
    builds nodes that denote what the parser returns, and the two compose to the same tree with
    indices renumbered in preorder. */
module TreeStore {
  import opened Wire
  import opened CoverShape
  import opened CoverTree
  import opened TreeCodec
  import opened TreeSearch

  // ---------------------------------------------------------------- what is written

  function Strip(s: Shape, values: seq<Bytes>): Coded
    decreases s, 1
  {
    Coded(s.level, s.point.magnitude, s.point.vector, ValueAt(values, s.point.index), StripAll(s.children, values))
  }

  function StripAll(ss: seq<Shape>, values: seq<Bytes>): (cs: seq<Coded>)
    ensures |cs| == |ss| && forall i :: 0 <= i < |ss| ==> cs[i] == Strip(ss[i], values)
    decreases ss, 0
  {
    if ss == [] then [] else [Strip(ss[0], values)] + StripAll(ss[1..], values)
  }

  /** "cosine" and "euclidean". */
  function NameOf(metric: MetricName): Bytes {
    match metric
    case Cosine => [99, 111, 115, 105, 110, 101]
    case Euclidean => [101, 117, 99, 108, 105, 100, 101, 97, 110]
  }

  /** An unknown name falls back to cosine. */
  function MetricOf(name: Bytes): MetricName {
    if name == NameOf(Euclidean) then Euclidean else Cosine
  }

  lemma NamesInAscii()
    ensures NameOf(Cosine) == Ascii("cosine") && NameOf(Euclidean) == Ascii("euclidean")
  {
  }

  /** Each metric's own name reads back as it, every other name as cosine. */
  lemma MetricOfIff(name: Bytes)
    ensures MetricOf(name) == Euclidean <==> name == Ascii("euclidean")
    ensures MetricOf(NameOf(Cosine)) == Cosine && MetricOf(NameOf(Euclidean)) == Euclidean
  {
    NamesInAscii();
  }

  ghost function StripTree(s: Snapshot): Stored {
    Stored(s.base, NameOf(s.metric),
           if s.root == null || s.root !in s.view then None else Some(Strip(s.view[s.root], s.values)))
  }

  // ---------------------------------------------------------------- writer

  lemma {:induction false} EncAllAppend(cs: seq<Coded>, c: Coded)
    ensures EncAll(cs + [c]) == EncAll(cs) + EncNode(c)
  {
    hide EncNode;
    if cs == [] {
      assert [] + [c] == [c];
      EncAllStep([c], []);
      EncAllStep([], []);
    } else {
      EncAllAppend(cs[1..], c);
      assert (cs + [c])[1..] == cs[1..] + [c];
      EncAllStep(cs + [c], []);
      EncAllStep(cs, []);
    }
  }

  /** The children written so far. */
  ghost predicate Written(out: Bytes, whole: Shape, values: seq<Bytes>, i: nat)
    requires i <= |whole.children|
  {
    var c := Strip(whole, values);
    out == EncHead(c.level, c.magnitude, c.vector, c.value, |c.children|) + EncAll(c.children[..i])
  }

  lemma WriteStarts(whole: Shape, values: seq<Bytes>)
    ensures Written(EncHead(whole.level, whole.point.magnitude, whole.point.vector,
                            ValueAt(values, whole.point.index), |whole.children|), whole, values, 0)
  {
  }

  lemma WriteStep(out: Bytes, whole: Shape, values: seq<Bytes>, i: nat)
    requires i < |whole.children| && Written(out, whole, values, i)
    ensures Written(out + EncNode(Strip(whole.children[i], values)), whole, values, i + 1)
  {
    hide EncHead, EncNode, EncAll;
    var cs := StripAll(whole.children, values);
    assert cs[..i + 1] == cs[..i] + [cs[i]];
    EncAllAppend(cs[..i], cs[i]);
  }

  lemma WriteEnds(out: Bytes, whole: Shape, values: seq<Bytes>)
    requires Written(out, whole, values, |whole.children|)
    ensures out == EncNode(Strip(whole, values))
  {
    hide EncHead, EncAll;
    var cs := StripAll(whole.children, values);
    assert cs[..|cs|] == cs;
  }

  method EncodeNode(t: Tree, n: Node, ghost s: Snapshot) returns (out: Bytes)
    requires Ready(t, s) && n in s.view
    ensures out == EncNode(Strip(s.view[n], s.values))
    decreases s.view[n]
  {
    hide Ready, Kids, Written, EncNode, EncHead, Strip;
    NodeSays(t, s, n);
    TreeSays(t, s);
    var children := n.children;
    ghost var whole := s.view[n];
    WriteStarts(whole, s.values);
    out := EncHead(n.level, n.point.magnitude, n.point.vector, ValueAt(t.values, n.point.index), |children|);
    var i := 0;
    while i < |children|
      invariant 0 <= i <= |children| == |whole.children|
      invariant Written(out, whole, s.values, i)
    {
      KidAt(children, whole.children, s.view, i);
      var child := EncodeNode(t, children[i], s);
      WriteStep(out, whole, s.values, i);
      out := out + child;
      i := i + 1;
    }
    WriteEnds(out, whole, s.values);
  }

  /** EncodeBinary. */
  method EncodeBinary(t: Tree, ghost s: Snapshot) returns (out: Bytes)
    requires Ready(t, s)
    ensures out == EncTree(StripTree(s))
  {
    hide Ready, EncNode, Strip;
    TreeSays(t, s);
    out := PutU32(t.base) + PutBytes(NameOf(t.metric));
    if t.root == null {
      out := out + [0];
    } else {
      var node := EncodeNode(t, t.root, s);
      out := out + ([1] + node);
    }
    assert PutU32(t.base) + (PutBytes(NameOf(t.metric)) + EncRoot(StripTree(s).root)) == out;
  }

  // ---------------------------------------------------------------- what is rebuilt

  /** The values of a coded subtree in the order in which the reader allocates them. */
  function ValuesOf(c: Coded): (vs: seq<Bytes>)
    ensures |vs| > 0
    decreases c, 1
  {
    [c.value] + ValuesOfAll(c.children)
  }

  function ValuesOfAll(cs: seq<Coded>): seq<Bytes>
    decreases cs, 0
  {
    if cs == [] then [] else ValuesOf(cs[0]) + ValuesOfAll(cs[1..])
  }

  /** base^level as NewNode recomputes it.  A base that is not positive never comes from a tree. */
  function LevelPower(base: real, level: int): real {
    if base > 0.0 then Pow(base, level) else 0.0
  }

  /** The subtree the reader builds when `first` values are already stored. */
  function Rebuild(c: Coded, first: int, base: real): Shape
    decreases c, 1
  {
    Shape(c.level, LevelPower(base, c.level), Point(first, c.magnitude, c.vector),
          RebuildAll(c.children, first + 1, base))
  }

  function RebuildAll(cs: seq<Coded>, first: int, base: real): (ss: seq<Shape>)
    ensures |ss| == |cs|
    decreases cs, 0
  {
    if cs == [] then [] else [Rebuild(cs[0], first, base)] + RebuildAll(cs[1..], first + |ValuesOf(cs[0])|, base)
  }

  lemma {:induction false} ValuesOfAllAppend(cs: seq<Coded>, c: Coded)
    ensures ValuesOfAll(cs + [c]) == ValuesOfAll(cs) + ValuesOf(c)
  {
    hide ValuesOf;
    if cs == [] {
      assert [c][1..] == [];
      assert [] + [c] == [c];
    } else {
      ValuesOfAllAppend(cs[1..], c);
      assert (cs + [c])[1..] == cs[1..] + [c];
    }
  }

  lemma {:induction false} RebuildAllAppend(cs: seq<Coded>, c: Coded, first: int, base: real)
    ensures RebuildAll(cs + [c], first, base) ==
            RebuildAll(cs, first, base) + [Rebuild(c, first + |ValuesOfAll(cs)|, base)]
    decreases |cs|
  {
    hide ValuesOf, Rebuild;
    if cs == [] {
      assert [c][1..] == [];
      assert [] + [c] == [c];
    } else {
      RebuildAllAppend(cs[1..], c, first + |ValuesOf(cs[0])|, base);
      assert (cs + [c])[1..] == cs[1..] + [c];
    }
  }

  lemma {:induction false} PreorderAllAppend(ss: seq<Shape>, s: Shape)
    ensures PreorderAll(ss + [s]) == PreorderAll(ss) + Preorder(s)
  {
    hide Preorder;
    if ss == [] {
      assert [s][1..] == [];
      assert [] + [s] == [s];
    } else {
      PreorderAllAppend(ss[1..], s);
      assert (ss + [s])[1..] == ss[1..] + [s];
    }
  }

  /** The points of a rebuilt subtree are numbered consecutively in preorder. */
  lemma {:induction false} RebuiltNumbers(c: Coded, first: int, base: real)
    ensures |Preorder(Rebuild(c, first, base))| == |ValuesOf(c)|
    ensures forall i :: 0 <= i < |ValuesOf(c)| ==> Preorder(Rebuild(c, first, base))[i].index == first + i
    decreases c, 1
  {
    RebuiltAllNumbers(c.children, first + 1, base);
  }

  lemma {:induction false} RebuiltAllNumbers(cs: seq<Coded>, first: int, base: real)
    ensures |PreorderAll(RebuildAll(cs, first, base))| == |ValuesOfAll(cs)|
    ensures forall i :: 0 <= i < |ValuesOfAll(cs)| ==> PreorderAll(RebuildAll(cs, first, base))[i].index == first + i
    decreases cs, 0
  {
    if cs == [] {
    } else {
      RebuiltNumbers(cs[0], first, base);
      RebuiltAllNumbers(cs[1..], first + |ValuesOf(cs[0])|, base);
    }
  }

  lemma {:induction false} RebuiltLevels(c: Coded, first: int, base: real)
    requires base > 0.0
    ensures LevelsExact(Rebuild(c, first, base), base)
    decreases c, 1
  {
    RebuiltAllLevels(c.children, first + 1, base);
  }

  lemma {:induction false} RebuiltAllLevels(cs: seq<Coded>, first: int, base: real)
    requires base > 0.0
    ensures forall i :: 0 <= i < |cs| ==> LevelsExact(RebuildAll(cs, first, base)[i], base)
    decreases cs, 0
  {
    if cs == [] {
    } else {
      RebuiltLevels(cs[0], first, base);
      RebuiltAllLevels(cs[1..], first + |ValuesOf(cs[0])|, base);
    }
  }

  // ---------------------------------------------------------------- reader

  /** The nodes of `view` are what it says, and no radius is memoised in them. */
  ghost predicate Mirrored(view: map<Node, Shape>)
    reads view.Keys
  {
    forall n :: n in view ==> n.Mirrors(view) && n.radiusComputed == 0
  }

  /** The subtrees of `view` lie within `all`, with indices from `lo` up to `hi`, each of one node only. */
  ghost predicate Numbered(view: map<Node, Shape>, lo: int, hi: int, all: multiset<Point>) {
    && (forall n :: n in view ==> lo <= view[n].point.index < hi && Contents(view[n]) <= all)
    && (forall n, m :: n in view && m in view && view[n].point.index == view[m].point.index ==> n == m)
  }

  lemma NodeIs(view: map<Node, Shape>, n: Node)
    requires Mirrored(view) && n in view
    ensures n.point == view[n].point && n.radiusComputed == 0
    ensures Denotes(view, view[n], n.level, n.baseLevel, n.point, n.children)
  {
  }

  /** Two batches of nodes side by side. */
  lemma MirroredBeside(a: map<Node, Shape>, b: map<Node, Shape>)
    requires Mirrored(a) && Mirrored(b) && a.Keys !! b.Keys
    ensures Mirrored(a + b)
  {
  }

  lemma NumberedBeside(a: map<Node, Shape>, b: map<Node, Shape>, lo: int, mid: int, hi: int, p: multiset<Point>,
                       q: multiset<Point>)
    requires Numbered(a, lo, mid, p) && Numbered(b, mid, hi, q) && lo <= mid <= hi && a.Keys !! b.Keys
    ensures Numbered(a + b, lo, hi, p + q)
  {
    hide Contents;
    var view := a + b;
    forall n | n in view
      ensures lo <= view[n].point.index < hi && Contents(view[n]) <= p + q
      ensures view[n].point.index < mid <==> n in a
    {
      assert if n in b then view[n] == b[n] && n !in a else view[n] == a[n] && n in a;
    }
    forall n, m | n in view && m in view && view[n].point.index == view[m].point.index
      ensures n == m
    {
      assert n in a <==> m in a;
    }
  }

  lemma KeysApart(a: map<Node, Shape>, b: map<Node, Shape>, lo: int, mid: int, hi: int, p: multiset<Point>,
                  q: multiset<Point>)
    requires Mirrored(a) && Mirrored(b) && Numbered(a, lo, mid, p) && Numbered(b, mid, hi, q)
    ensures a.Keys !! b.Keys
  {
  }

  /** A node on top of the batch of its children. */
  lemma OnTop(view: map<Node, Shape>, first: int, hi: int, node: Node, shape: Shape)
    requires Mirrored(view) && Numbered(view, first + 1, hi, ContentsAll(shape.children)) && first < hi
    requires node.level == shape.level && node.baseLevel == shape.baseLevel && node.point == shape.point
    requires node.radiusComputed == 0 && shape.point.index == first
    requires Kids(node.children, shape.children, view)
    ensures Mirrored(view[node := shape]) && Numbered(view[node := shape], first, hi, Contents(shape))
  {
    hide Contents, ContentsAll;
    if node in view {
      NodeIs(view, node);
      assert false;
    }
    MirroredOnTop(view, node, shape);
    NumberedOnTop(view, first, hi, node, shape);
  }

  lemma MirroredOnTop(view: map<Node, Shape>, node: Node, shape: Shape)
    requires Mirrored(view) && node !in view && Kids(node.children, shape.children, view)
    requires node.level == shape.level && node.baseLevel == shape.baseLevel && node.point == shape.point
    requires node.radiusComputed == 0
    ensures Mirrored(view[node := shape])
  {
  }

  lemma NumberedOnTop(view: map<Node, Shape>, first: int, hi: int, node: Node, shape: Shape)
    requires Numbered(view, first + 1, hi, ContentsAll(shape.children)) && first < hi
    requires node !in view && shape.point.index == first
    ensures Numbered(view[node := shape], first, hi, Contents(shape))
  {
    hide Contents, ContentsAll;
    ContentsHere(shape);
  }

  lemma ContentsHere(shape: Shape)
    ensures Contents(shape) == ContentsAll(shape.children) + multiset{shape.point}
  {
  }

  /** What the reader has done for one coded subtree that starts at index `first`. */
  ghost predicate Built(node: Node, view: map<Node, Shape>, c: Coded, first: int, base: real)
    reads view.Keys
  {
    var shape := Rebuild(c, first, base);
    && node in view && view[node] == shape && Mirrored(view)
    && Numbered(view, first, first + |ValuesOf(c)|, Contents(shape))
  }

  /** The same for a run of siblings. */
  ghost predicate BuiltAll(nodes: seq<Node>, view: map<Node, Shape>, cs: seq<Coded>, first: int, base: real)
    reads view.Keys
  {
    var shapes := RebuildAll(cs, first, base);
    && Kids(nodes, shapes, view) && Mirrored(view)
    && Numbered(view, first, first + |ValuesOfAll(cs)|, ContentsAll(shapes))
  }

  lemma BuiltNone(first: int, base: real)
    ensures BuiltAll([], map[], [], first, base)
  {
  }

  lemma RootsBeside(children: seq<Node>, kids: seq<Shape>, a: map<Node, Shape>, child: Node, b: map<Node, Shape>)
    requires Kids(children, kids, a) && a.Keys !! b.Keys && child in b
    ensures Kids(children + [child], kids + [b[child]], a + b)
  {
  }

  lemma BuiltOneMore(nodes: seq<Node>, a: map<Node, Shape>, cs: seq<Coded>, node: Node, b: map<Node, Shape>, c: Coded,
                     first: int, base: real)
    requires BuiltAll(nodes, a, cs, first, base) && Built(node, b, c, first + |ValuesOfAll(cs)|, base)
    ensures BuiltAll(nodes + [node], a + b, cs + [c], first, base)
  {
    hide Mirrored, Numbered, Kids, Rebuild, RebuildAll, ContentsAll, ValuesOf, ValuesOfAll;
    var shapes, mid := RebuildAll(cs, first, base), first + |ValuesOfAll(cs)|;
    var hi := mid + |ValuesOf(c)|;
    var p, q := ContentsAll(shapes), Contents(Rebuild(c, mid, base));
    KeysApart(a, b, first, mid, hi, p, q);
    MirroredBeside(a, b);
    NumberedBeside(a, b, first, mid, hi, p, q);
    RootsBeside(nodes, shapes, a, node, b);
    RebuildAllAppend(cs, c, first, base);
    ValuesOfAllAppend(cs, c);
    ContentsAllAppend(shapes, Rebuild(c, mid, base));
  }

  lemma BuiltOnTop(nodes: seq<Node>, view: map<Node, Shape>, c: Coded, first: int, base: real, node: Node)
    requires BuiltAll(nodes, view, c.children, first + 1, base)
    requires node.level == c.level && node.baseLevel == LevelPower(base, c.level) && node.children == nodes
    requires node.point == Point(first, c.magnitude, c.vector) && node.radiusComputed == 0
    ensures Built(node, view[node := Rebuild(c, first, base)], c, first, base)
  {
    hide Mirrored, Numbered, Kids, ContentsAll, LevelPower, ValuesOfAll, RebuildAll;
    OnTop(view, first, first + |ValuesOf(c)|, node, Rebuild(c, first, base));
  }

  /** Parsing siblings one at a time: `cs` are read, `left` remain. */
  ghost predicate Parsing(data: Bytes, n: nat, cs: seq<Coded>, rest: Bytes, left: nat) {
    DecAll(data, n) == match DecAll(rest, left) case Ok(v) => Ok((cs + v.0, v.1)) case Err => Err
  }

  lemma ParsingStarts(data: Bytes, n: nat)
    ensures Parsing(data, n, [], data, n)
  {
    if DecAll(data, n).Ok? {
      assert [] + DecAll(data, n).value.0 == DecAll(data, n).value.0;
    }
  }

  lemma ParsingStep(data: Bytes, n: nat, cs: seq<Coded>, rest: Bytes, left: nat)
    requires left > 0 && Parsing(data, n, cs, rest, left)
    ensures DecNode(rest).Err? ==> DecAll(data, n).Err?
    ensures DecNode(rest).Ok? ==>
              var (c, d) := DecNode(rest).value; |d| < |rest| && Parsing(data, n, cs + [c], d, left - 1)
  {
    hide DecNode;
    if DecNode(rest).Ok? {
      var (c, d) := DecNode(rest).value;
      DecAllUnfold(rest, left);
      if DecAll(d, left - 1).Ok? {
        var more := DecAll(d, left - 1).value.0;
        assert cs + ([c] + more) == cs + [c] + more;
      }
    } else {
      DecAllUnfold(rest, left);
    }
  }

  lemma DecAllUnfold(data: Bytes, n: nat)
    requires n > 0
    ensures DecNode(data).Err? ==> DecAll(data, n).Err?
    ensures DecNode(data).Ok? ==>
              var (c, d) := DecNode(data).value;
              |d| < |data| &&
              DecAll(data, n) == match DecAll(d, n - 1) case Ok(v) => Ok(([c] + v.0, v.1)) case Err => Err
  {
  }

  lemma ParsingEnds(data: Bytes, n: nat, cs: seq<Coded>, rest: Bytes)
    requires Parsing(data, n, cs, rest, 0)
    ensures DecAll(data, n) == Ok((cs, rest))
  {
    assert cs + [] == cs;
  }

  /** The values and the index map hold `vs` and `ps`. */
  ghost predicate Filled(t: Tree, vs: seq<Bytes>, ps: seq<Point>)
    reads t`values, t`indexMap
  {
    t.Indexed() && t.values == vs && t.Stored() == ps
  }

  method PutValue(t: Tree, value: Bytes, magnitude: U32, vector: seq<U32>, ghost vs: seq<Bytes>, ghost ps: seq<Point>)
    returns (p: Point)
    requires Filled(t, vs, ps)
    modifies t`values, t`indexMap
    ensures p == Point(|vs|, magnitude, vector)
    ensures Filled(t, vs + [value], ps + [p])
  {
    p := Point(|t.values|, magnitude, vector);
    t.indexMap := t.indexMap[|t.values| := p];
    t.values := t.values + [value];
    assert t.Stored() == ps + [p];
  }

  lemma NodeParse(data: Bytes)
    ensures DecHead(data).Err? ==> DecNode(data).Err?
    ensures DecHead(data).Ok? ==>
              var (h, d) := DecHead(data).value;
              |d| < |data| &&
              DecNode(data) == match DecAll(d, h.count)
                               case Ok(v) => Ok((Coded(h.level, h.magnitude, h.vector, h.value, v.0), v.1))
                               case Err => Err
  {
  }

  lemma FilledOnTop(t: Tree, vs: seq<Bytes>, ps: seq<Point>, c: Coded, base: real)
    requires Filled(t, vs + [c.value] + ValuesOfAll(c.children),
                    ps + [Point(|vs|, c.magnitude, c.vector)] + PreorderAll(RebuildAll(c.children, |vs| + 1, base)))
    ensures Filled(t, vs + ValuesOf(c), ps + Preorder(Rebuild(c, |vs|, base)))
  {
  }

  /** decodeNode. */
  method DecodeNode(t: Tree, data: Bytes, base: real, ghost vs: seq<Bytes>, ghost ps: seq<Point>)
    returns (r: Result<(Node, Bytes)>, ghost view: map<Node, Shape>)
    requires Filled(t, vs, ps)
    modifies t`values, t`indexMap
    ensures r.Ok? <==> DecNode(data).Ok?
    ensures r.Ok? ==> fresh(view.Keys) && Built(r.value.0, view, DecNode(data).value.0, |vs|, base)
    ensures r.Ok? ==>
              var (c, rest) := DecNode(data).value;
              r.value.1 == rest && Filled(t, vs + ValuesOf(c), ps + Preorder(Rebuild(c, |vs|, base)))
    decreases |data|, 0
  {
    hide DecNode, DecAll, DecHead, Built, BuiltAll, Filled, Rebuild, RebuildAll, ValuesOf, ValuesOfAll, LevelPower,
         Preorder, PreorderAll;
    NodeParse(data);
    view := map[];
    var parsed := DecHead(data);
    if parsed.Err? {
      return Err, view;
    }
    var head, d := parsed.value.0, parsed.value.1;
    var p := PutValue(t, head.value, head.magnitude, head.vector, vs, ps);
    var children, kidView := DecodeChildren(t, d, head.count, base, vs + [head.value], ps + [p]);
    if children.Err? {
      return Err, view;
    }
    ghost var c := DecNode(data).value.0;
    var node := new Node(head.level, LevelPower(base, head.level), p, children.value.0);
    view := kidView[node := Rebuild(c, |vs|, base)];
    BuiltOnTop(children.value.0, kidView, c, |vs|, base, node);
    FilledOnTop(t, vs, ps, c, base);
    r := Ok((node, children.value.1));
  }

  /** The loop over the children, of which the first have been read as `cs`. */
  method DecodeChildren(t: Tree, data: Bytes, count: nat, base: real, ghost vs: seq<Bytes>, ghost ps: seq<Point>)
    returns (r: Result<(seq<Node>, Bytes)>, ghost view: map<Node, Shape>)
    requires Filled(t, vs, ps)
    modifies t`values, t`indexMap
    ensures r.Ok? <==> DecAll(data, count).Ok?
    ensures r.Ok? ==> fresh(view.Keys) && BuiltAll(r.value.0, view, DecAll(data, count).value.0, |vs|, base)
    ensures r.Ok? ==>
              var (cs, rest) := DecAll(data, count).value;
              r.value.1 == rest && Filled(t, vs + ValuesOfAll(cs), ps + PreorderAll(RebuildAll(cs, |vs|, base)))
    decreases |data|, 1
  {
    hide DecNode, DecAll, Built, BuiltAll, Filled, Rebuild, RebuildAll, ValuesOf, ValuesOfAll, Preorder, PreorderAll,
         Parsing;
    var children: seq<Node>, rest := [], data;
    ghost var cs: seq<Coded> := [];
    view := map[];
    ParsingStarts(data, count);
    BuiltNone(|vs|, base);
    FilledNone(t, vs, ps, base);
    var i := 0;
    while i < count
      invariant 0 <= i <= count && |rest| <= |data|
      invariant Parsing(data, count, cs, rest, count - i)
      invariant BuiltAll(children, view, cs, |vs|, base) && fresh(view.Keys)
      invariant Filled(t, vs + ValuesOfAll(cs), ps + PreorderAll(RebuildAll(cs, |vs|, base)))
    {
      ParsingStep(data, count, cs, rest, count - i);
      ghost var seen := ps + PreorderAll(RebuildAll(cs, |vs|, base));
      var child, childView := DecodeNode(t, rest, base, vs + ValuesOfAll(cs), seen);
      if child.Err? {
        return Err, view;
      }
      ghost var c := DecNode(rest).value.0;
      BuiltOneMore(children, view, cs, child.value.0, childView, c, |vs|, base);
      FilledOneMore(t, vs, ps, cs, c, base);
      children, view, cs, rest, i := children + [child.value.0], view + childView, cs + [c], child.value.1, i + 1;
    }
    ParsingEnds(data, count, cs, rest);
    r := Ok((children, rest));
  }

  lemma FilledNone(t: Tree, vs: seq<Bytes>, ps: seq<Point>, base: real)
    requires Filled(t, vs, ps)
    ensures Filled(t, vs + ValuesOfAll([]), ps + PreorderAll(RebuildAll([], |vs|, base)))
  {
  }

  lemma FilledOneMore(t: Tree, vs: seq<Bytes>, ps: seq<Point>, cs: seq<Coded>, c: Coded, base: real)
    requires var first := |vs + ValuesOfAll(cs)|;
             Filled(t, vs + ValuesOfAll(cs) + ValuesOf(c),
                    ps + PreorderAll(RebuildAll(cs, |vs|, base)) + Preorder(Rebuild(c, first, base)))
    ensures Filled(t, vs + ValuesOfAll(cs + [c]), ps + PreorderAll(RebuildAll(cs + [c], |vs|, base)))
  {
    hide Filled, ValuesOf, ValuesOfAll, Rebuild, RebuildAll, Preorder, PreorderAll;
    var first := |vs + ValuesOfAll(cs)|;
    ValuesOfAllAppend(cs, c);
    RebuildAllAppend(cs, c, |vs|, base);
    PreorderAllAppend(RebuildAll(cs, |vs|, base), Rebuild(c, first, base));
    assert vs + ValuesOfAll(cs) + ValuesOf(c) == vs + ValuesOfAll(cs + [c]);
    assert ps + PreorderAll(RebuildAll(cs, |vs|, base)) + Preorder(Rebuild(c, first, base))
        == ps + PreorderAll(RebuildAll(cs + [c], |vs|, base));
  }

  /** The tree is the one `stored` describes. */
  ghost predicate Loaded(t: Tree, stored: Stored)
    reads t, t.view.Keys
  {
    && t.base == stored.base && t.metric == MetricOf(stored.name)
    && match stored.root
       case None => t.root == null && t.view == map[] && Filled(t, [], [])
       case Some(c) =>
         && t.root != null && Built(t.root, t.view, c, 0, t.Base())
         && Filled(t, ValuesOf(c), Preorder(Rebuild(c, 0, t.Base())))
  }

  lemma LoadedIsValid(t: Tree, stored: Stored)
    requires Loaded(t, stored) && t.version > 0
    ensures t.Valid()
    ensures t.Base() > 1.0 ==> t.Graded()
  {
    hide Radius, Contents, Preorder, Rebuild, LevelsExact, LevelPower, Pow;
    if stored.root.Some? {
      var shape := Rebuild(stored.root.value, 0, t.Base());
      if t.Base() > 1.0 {
        RebuiltLevels(stored.root.value, 0, t.Base());
      }
      PreorderContents(shape);
      LoadedIsLinked(t, stored);
      LoadedFits(t, Contents(shape));
    }
  }

  lemma LoadedIsLinked(t: Tree, stored: Stored)
    requires Loaded(t, stored) && stored.root.Some?
    ensures t.Linked()
  {
  }

  lemma LoadedFits(t: Tree, all: multiset<Point>)
    requires t.Indexed() && t.Bag() == all && (forall n :: n in t.view ==> Contents(t.view[n]) <= all)
    ensures AllFit(t.view, all)
  {
    forall n | n in t.view
      ensures CoverTree.Fits(t.view[n], all)
    {
      forall p ensures Contents(t.view[n])[p] <= 1 {
        t.StoredOnce(p);
      }
    }
  }

  method Reset(t: Tree)
    modifies t`values, t`indexMap
    ensures Filled(t, [], [])
  {
    t.values, t.indexMap := [], map[];
  }

  /** DecodeBinary: reads exactly one encoded tree and becomes the tree it describes. */
  method DecodeBinary(t: Tree, data: Bytes) returns (r: Result<Bytes>)
    modifies t
    ensures r.Ok? <==> DecTree(data).Ok?
    ensures r.Ok? ==> r.value == DecTree(data).value.1 && Loaded(t, DecTree(data).value.0) && fresh(t.view.Keys)
    ensures r.Ok? ==> t.Valid() && (t.Base() > 1.0 ==> t.Graded())
    ensures t.boundStrategy == old(t.boundStrategy)
  {
    hide DecNode, Built, Filled, Rebuild, ValuesOf, Preorder, Tree.Valid, Tree.Graded, ReadU32, ReadBytes, MetricOf;
    var base := ReadU32(data);
    if base.Err? {
      return Err;
    }
    var name := ReadBytes(base.value.1);
    if name.Err? {
      return Err;
    }
    t.base, t.metric := base.value.0, MetricOf(name.value.0);
    var rest := name.value.1;
    if rest == [] {
      return Err;
    }
    Reset(t);
    if rest[0] == 0 {
      t.root, t.view := null, map[];
      t.version := t.version + 1;
      LoadedIsValid(t, DecTree(data).value.0);
      return Ok(rest[1..]);
    }
    var node, view := DecodeNode(t, rest[1..], t.Base(), [], []);
    if node.Err? {
      return Err;
    }
    t.root, t.view := node.value.0, view;
    t.version := t.version + 1;
    FromNothing(t, DecNode(rest[1..]).value.0, t.Base());
    LoadedIsValid(t, DecTree(data).value.0);
    return Ok(node.value.1);
  }

  lemma FromNothing(t: Tree, c: Coded, base: real)
    requires Filled(t, [] + ValuesOf(c), [] + Preorder(Rebuild(c, 0, base)))
    ensures Filled(t, ValuesOf(c), Preorder(Rebuild(c, 0, base)))
  {
  }

  // ---------------------------------------------------------------- the round trip on trees

  /** `s` with its points numbered from `first` in preorder and everything else unchanged. */
  function Renumber(s: Shape, first: int): Shape
    decreases s, 1
  {
    Shape(s.level, s.baseLevel, s.point.(index := first), RenumberAll(s.children, first + 1))
  }

  function RenumberAll(ss: seq<Shape>, first: int): (r: seq<Shape>)
    ensures |r| == |ss|
    decreases ss, 0
  {
    if ss == [] then [] else [Renumber(ss[0], first)] + RenumberAll(ss[1..], first + |Preorder(ss[0])|)
  }

  /** A tree whose levels are exact comes back as it was, with its points numbered in preorder. */
  lemma {:induction false} RebuildStrip(s: Shape, values: seq<Bytes>, first: int, base: real)
    requires base > 0.0 && LevelsExact(s, base)
    ensures Rebuild(Strip(s, values), first, base) == Renumber(s, first)
    ensures |ValuesOf(Strip(s, values))| == |Preorder(s)|
    decreases s, 1
  {
    RebuildStripAll(s.children, values, first + 1, base);
  }

  lemma {:induction false} RebuildStripAll(ss: seq<Shape>, values: seq<Bytes>, first: int, base: real)
    requires base > 0.0 && forall i :: 0 <= i < |ss| ==> LevelsExact(ss[i], base)
    ensures RebuildAll(StripAll(ss, values), first, base) == RenumberAll(ss, first)
    ensures |ValuesOfAll(StripAll(ss, values))| == |PreorderAll(ss)|
    decreases ss, 0
  {
    hide LevelsExact, Strip, Preorder, ValuesOf, Rebuild, Renumber, Pow;
    if ss == [] {
    } else {
      RebuildStrip(ss[0], values, first, base);
      RebuildStripAll(ss[1..], values, first + |Preorder(ss[0])|, base);
      assert StripAll(ss, values)[1..] == StripAll(ss[1..], values);
    }
  }

  function NumberedFrom(ps: seq<Point>, first: int): (r: seq<Point>)
    ensures |r| == |ps| && forall i :: 0 <= i < |ps| ==> r[i] == ps[i].(index := first + i)
  {
    seq(|ps|, i requires 0 <= i < |ps| => ps[i].(index := first + i))
  }

  lemma NumberedFromJoins(a: seq<Point>, b: seq<Point>, first: int)
    ensures NumberedFrom(a + b, first) == NumberedFrom(a, first) + NumberedFrom(b, first + |a|)
  {
  }

  /** Walking a renumbered tree meets the same points in the same order, numbered consecutively. */
  lemma {:induction false} RenumberedPreorder(s: Shape, first: int)
    ensures Preorder(Renumber(s, first)) == NumberedFrom(Preorder(s), first)
    decreases s, 1
  {
    RenumberedPreorderAll(s.children, first + 1);
    NumberedFromJoins([s.point], PreorderAll(s.children), first);
  }

  lemma {:induction false} RenumberedPreorderAll(ss: seq<Shape>, first: int)
    ensures PreorderAll(RenumberAll(ss, first)) == NumberedFrom(PreorderAll(ss), first)
    decreases ss, 0
  {
    hide Preorder, Renumber, NumberedFrom;
    if ss == [] {
    } else {
      RenumberedPreorder(ss[0], first);
      RenumberedPreorderAll(ss[1..], first + |Preorder(ss[0])|);
      NumberedFromJoins(Preorder(ss[0]), PreorderAll(ss[1..]), first);
    }
  }

  function ValuesAlong(values: seq<Bytes>, ps: seq<Point>): (r: seq<Bytes>)
    ensures |r| == |ps| && forall i :: 0 <= i < |ps| ==> r[i] == ValueAt(values, ps[i].index)
  {
    seq(|ps|, i requires 0 <= i < |ps| => ValueAt(values, ps[i].index))
  }

  lemma ValuesAlongJoins(values: seq<Bytes>, a: seq<Point>, b: seq<Point>)
    ensures ValuesAlong(values, a + b) == ValuesAlong(values, a) + ValuesAlong(values, b)
  {
  }

  /** The values allocated on reading are the values the walk met on writing, in the same order. */
  lemma {:induction false} StrippedValues(s: Shape, values: seq<Bytes>)
    ensures ValuesOf(Strip(s, values)) == ValuesAlong(values, Preorder(s))
    decreases s, 1
  {
    StrippedValuesAll(s.children, values);
    ValuesAlongJoins(values, [s.point], PreorderAll(s.children));
  }

  lemma {:induction false} StrippedValuesAll(ss: seq<Shape>, values: seq<Bytes>)
    ensures ValuesOfAll(StripAll(ss, values)) == ValuesAlong(values, PreorderAll(ss))
    decreases ss, 0
  {
    hide Preorder, Strip, ValuesOf, ValuesAlong;
    if ss == [] {
    } else {
      StrippedValues(ss[0], values);
      StrippedValuesAll(ss[1..], values);
      ValuesAlongJoins(values, Preorder(ss[0]), PreorderAll(ss[1..]));
      assert StripAll(ss, values)[1..] == StripAll(ss[1..], values);
    }
  }
}
