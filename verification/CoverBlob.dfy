/** The binary form of the cover index: the tree blob behind its magic number, and the older
    linear-scan format. */
module CoverBlob {
  import opened Wire
  import opened Bags
  import opened BruteCodec
  import opened BruteForce
  import opened CoverIndex
  import opened CoverShape
  import opened CoverTree
  import opened Nearest
  import opened TreeSearch
  import opened TreeWalk
  import TreeCodec
  import TreeStore

  const COVER_VERSION_1: U32 := 1

  // ---------------------------------------------------------------- printer and parser

  function EncCover(dim: nat, stored: TreeCodec.Stored): Bytes {
    COVER_MAGIC + (PutU32(COVER_VERSION_1) + (PutU32(ToU32(dim)) + TreeCodec.EncTree(stored)))
  }

  /** The version number is read and not checked; what follows the tree is not read. */
  function DecCover(data: Bytes): Result<(U32, TreeCodec.Stored)>
    requires IsCoverBlob(data)
  {
    var (version, d1) :- ReadU32(data[4..]);
    var (dim, d2) :- ReadU32(d1);
    var (stored, d3) :- TreeCodec.DecTree(d2);
    Ok((dim, stored))
  }

  /** The layout on an example of a root and two children: magic, version, dimension, base, metric and root
      flag, then for each node in preorder its level, magnitude, vector, value and number of children. */
  lemma ThreeNodesLayout()
    ensures var b := TreeCodec.Coded(-1, 0x3F80_0000, [0x3F80_0000], Ascii("b"), []);
            var c := TreeCodec.Coded(-1, 0x4000_0000, [0x4000_0000], Ascii("c"), []);
            var a := TreeCodec.Coded(0, 0x3F80_0000, [0x3F80_0000], Ascii("a"), [b, c]);
            EncCover(1, TreeCodec.Stored(0x3FA6_6666, Ascii("cosine"), Some(a))) ==
            Ascii("COV1") + [1, 0, 0, 0] + [1, 0, 0, 0] + [0x66, 0x66, 0xA6, 0x3F] + [6, 0, 0, 0] + Ascii("cosine")
            + [1]
            + ([0, 0, 0, 0] + [0, 0, 0x80, 0x3F] + [1, 0, 0, 0] + [0, 0, 0x80, 0x3F] + [1, 0, 0, 0, 97] + [2, 0, 0, 0]
               + ([0xFF, 0xFF, 0xFF, 0xFF] + [0, 0, 0x80, 0x3F] + [1, 0, 0, 0] + [0, 0, 0x80, 0x3F]
                  + [1, 0, 0, 0, 98] + [0, 0, 0, 0])
               + ([0xFF, 0xFF, 0xFF, 0xFF] + [0, 0, 0, 0x40] + [1, 0, 0, 0] + [0, 0, 0, 0x40]
                  + [1, 0, 0, 0, 99] + [0, 0, 0, 0]))
  {
    hide TreeCodec.EncNode, EncCover, PutU32, ToU32;
    SampleWords();
    var b := TreeCodec.Coded(-1, 0x3F80_0000, [0x3F80_0000], [98], []);
    var c := TreeCodec.Coded(-1, 0x4000_0000, [0x4000_0000], [99], []);
    var a := TreeCodec.Coded(0, 0x3F80_0000, [0x3F80_0000], [97], [b, c]);
    assert Ascii("a") == [97] && Ascii("b") == [98] && Ascii("c") == [99] && Ascii("COV1") == COVER_MAGIC;
    NodeLayout(0, 0x3F80_0000, 97, [b, c]);
    NodeLayout(-1, 0x3F80_0000, 98, []);
    NodeLayout(-1, 0x4000_0000, 99, []);
    CoverParts(1, 0x3FA6_6666, Ascii("cosine"), a);
  }

  /** The children follow their parent's fields in order. */
  lemma NodeLayout(level: int, word: U32, letter: Byte, children: seq<TreeCodec.Coded>)
    ensures var out := TreeCodec.EncNode(TreeCodec.Coded(level, word, [word], [letter], children));
            var head := PutU32(ToU32(level)) + PutU32(word) + [1, 0, 0, 0] + PutU32(word) + [1, 0, 0, 0, letter];
            && (children == [] ==> out == head + [0, 0, 0, 0])
            && (|children| == 2 ==>
                  out == head + [2, 0, 0, 0] + TreeCodec.EncNode(children[0]) + TreeCodec.EncNode(children[1]))
  {
    hide PutU32, ToU32;
    SampleWords();
    assert [word][1..] == [] && PutWords([]) == [] && TreeCodec.EncAll([]) == [];
    assert PutWords([word]) == PutU32(word) + PutWords([]);
    if |children| == 2 {
      assert children[1..][1..] == [] && children[1..][0] == children[1];
      assert TreeCodec.EncAll(children[1..]) == TreeCodec.EncNode(children[1]) + TreeCodec.EncAll(children[1..][1..]);
      assert TreeCodec.EncAll(children) == TreeCodec.EncNode(children[0]) + TreeCodec.EncAll(children[1..]);
    }
  }

  lemma CoverParts(dim: nat, base: U32, name: Bytes, root: TreeCodec.Coded)
    ensures EncCover(dim, TreeCodec.Stored(base, name, Some(root))) ==
            COVER_MAGIC + PutU32(1) + PutU32(ToU32(dim)) + PutU32(base) + PutU32(ToU32(|name|)) + name + [1]
            + TreeCodec.EncNode(root)
  {
    hide TreeCodec.EncNode, PutU32, ToU32;
  }

  /** A cover blob is recognised as one, and reading it gives back what was written exactly when it fits. */
  lemma CoverRoundTrip(dim: nat, stored: TreeCodec.Stored, rest: Bytes)
    ensures IsCoverBlob(EncCover(dim, stored) + rest)
    ensures DecCover(EncCover(dim, stored) + rest) == Ok((dim, stored)) <==> dim < TWO32 && TreeCodec.FitsTree(stored)
  {
    hide PutU32, GetU32, ToU32, TreeCodec.DecTree, TreeCodec.EncTree, TreeCodec.FitsTree;
    var d2 := TreeCodec.EncTree(stored) + rest;
    var d1 := PutU32(ToU32(dim)) + d2;
    var data := EncCover(dim, stored) + rest;
    assert data == COVER_MAGIC + (PutU32(COVER_VERSION_1) + d1);
    assert data[..4] == COVER_MAGIC && data[4..] == PutU32(COVER_VERSION_1) + d1;
    ReadBack(COVER_VERSION_1, d1);
    ReadBack(ToU32(dim), d2);
    TreeCodec.TreeRoundTrip(stored, rest);
    if dim < TWO32 {
      SmallKept(dim);
    }
    if DecCover(data) == Ok((dim, stored)) {
      TreeTail(stored, rest);
      assert TreeCodec.DecTree(d2) == Ok((stored, rest));
    }
  }

  /** A tree that comes back equal leaves exactly what followed it. */
  lemma TreeTail(stored: TreeCodec.Stored, rest: Bytes)
    requires TreeCodec.DecTree(TreeCodec.EncTree(stored) + rest).Ok?
    requires TreeCodec.DecTree(TreeCodec.EncTree(stored) + rest).value.0 == stored
    ensures TreeCodec.DecTree(TreeCodec.EncTree(stored) + rest).value.1 == rest
  {
    TreeCodec.TreeFits(TreeCodec.EncTree(stored) + rest);
    TreeCodec.TreeRoundTrip(stored, rest);
  }

  // ---------------------------------------------------------------- what comes back answers the same

  ghost predicate IgnoresIndex(dist: Distance) {
    forall p: Point, q: Point, i, j :: Between(dist, p.(index := i), q.(index := j)) == Between(dist, p, q)
  }

  /** The hits a listing of `ps` reports. */
  function HitsOver(values: seq<Bytes>, ps: seq<Point>, query: Point, dist: Distance): seq<Hit> {
    Image(Image(ps, Seen(query, dist)), HitOf(values))
  }

  /** Writing a tree and reading it back renumbers its points, but every query for everything reports
      the same hits, whatever index the points had. */
  lemma RestoredHits(t: Tree, s: Snapshot, query: Point)
    requires Ready(t, s) && s.root != null && IgnoresIndex(s.dist)
    ensures s.root in s.view && TreeStore.StripTree(s).root.Some?
    ensures var c := TreeStore.StripTree(s).root.value;
            var ps := Preorder(TreeStore.Renumber(s.view[s.root], 0));
            multiset(HitsOver(TreeStore.ValuesOf(c), ps, query, s.dist))
            == multiset(HitsOver(s.values, t.Stored(), query, s.dist))
  {
    hide Image, HitOf, Seen, TreeStore.Strip, TreeStore.ValuesOf, TreeStore.Renumber, Preorder, IgnoresIndex;
    SnapshotHolds(t, s);
    var shape := s.view[s.root];
    var before := Preorder(shape);
    SameHitsInOrder(shape, s.values, query, s.dist);
    PreorderContents(shape);
    assert multiset(before) == multiset(t.Stored());
    ImagePermutes(before, t.Stored(), Seen(query, s.dist));
    ImagePermutes(Image(before, Seen(query, s.dist)), Image(t.Stored(), Seen(query, s.dist)), HitOf(s.values));
  }

  /** Position by position the restored walk reports what the original walk reports. */
  lemma SameHitsInOrder(shape: Shape, values: seq<Bytes>, query: Point, dist: Distance)
    requires IgnoresIndex(dist)
    ensures HitsOver(TreeStore.ValuesOf(TreeStore.Strip(shape, values)), Preorder(TreeStore.Renumber(shape, 0)),
                     query, dist)
            == HitsOver(values, Preorder(shape), query, dist)
  {
    hide Preorder, TreeStore.Renumber, TreeStore.Strip, TreeStore.ValuesOf, IgnoresIndex;
    var c := TreeStore.Strip(shape, values);
    var before, after := Preorder(shape), Preorder(TreeStore.Renumber(shape, 0));
    TreeStore.RenumberedPreorder(shape, 0);
    TreeStore.StrippedValues(shape, values);
    forall i | 0 <= i < |before|
      ensures HitOf(TreeStore.ValuesOf(c))(At(query, after[i], dist)) == HitOf(values)(At(query, before[i], dist))
    {
      IndexIsIgnored(dist, query, before[i], i);
    }
  }

  lemma IndexIsIgnored(dist: Distance, query: Point, p: Point, i: int)
    requires IgnoresIndex(dist)
    ensures At(query, p.(index := i), dist).distance == At(query, p, dist).distance
  {
  }

  /** Saving a tree and loading it: the loaded tree `b` is the saved tree `a` with its points numbered in
      preorder, every level and bound restored, and answers every query for everything alike. */
  lemma LoadedIsSaved(a: Tree, s: Snapshot, b: Tree, dim: nat, query: Point)
    requires Ready(a, s) && a.Graded() && a.lib == b.lib
    requires dim < TWO32 && TreeCodec.FitsTree(TreeStore.StripTree(s))
    requires var data := EncCover(dim, TreeStore.StripTree(s));
             IsCoverBlob(data) && DecCover(data).Ok? && TreeStore.Loaded(b, DecCover(data).value.1)
    ensures b.base == a.base && b.metric == a.metric && (b.root == null <==> a.root == null)
    ensures a.root != null ==>
              s.root in s.view && b.root in b.view && b.view[b.root] == TreeStore.Renumber(s.view[s.root], 0)
    ensures b.Indexed() && b.Stored() == if b.root == null || b.root !in b.view then [] else Preorder(b.view[b.root])
    ensures IgnoresIndex(s.dist) ==>
              multiset(HitsOver(b.values, b.Stored(), query, s.dist))
              == multiset(HitsOver(a.values, a.Stored(), query, s.dist))
  {
    hide TreeStore.Strip, TreeStore.ValuesOf, TreeStore.Renumber, TreeStore.Rebuild, Preorder, HitsOver, IgnoresIndex,
         EncCover, DecCover, TreeCodec.FitsTree, LevelsExact;
    var stored := TreeStore.StripTree(s);
    assert EncCover(dim, stored) + [] == EncCover(dim, stored);
    CoverRoundTrip(dim, stored, []);
    if a.root == null {
      NothingStoredIn(a, s);
      NoHits(a.values, query, s.dist);
      NoHits(b.values, query, s.dist);
    } else {
      TreeStore.RebuildStrip(s.view[s.root], s.values, 0, a.Base());
      if IgnoresIndex(s.dist) {
        RestoredHits(a, s, query);
      }
    }
  }

  lemma NothingStoredIn(t: Tree, s: Snapshot)
    requires Ready(t, s) && t.root == null
    ensures t.Indexed() && t.Stored() == []
  {
    assert |t.Bag()| == |t.Stored()|;
  }

  lemma NoHits(values: seq<Bytes>, query: Point, dist: Distance)
    ensures HitsOver(values, [], query, dist) == []
  {
  }

  // ---------------------------------------------------------------- the methods

  /** MarshalBinary: an index that was never built is written in the linear-scan format. */
  method Marshal(index: CoverIndex.Index, f: Floats, ghost s: Snapshot) returns (out: Bytes)
    requires index.Valid() && (index.tree != null ==> Ready(index.tree, s))
    ensures out == if index.tree
            == null then EncIndex(Items(0, [], [])) else EncCover(index.dim, TreeStore.StripTree(s))
  {
    hide Ready, TreeCodec.EncTree;
    if index.tree == null {
      var bf := new BruteForce.Index(f);
      var ok := bf.Build(index.ids, index.vecs);
      out := BruteCodec.Marshal(bf);
      return;
    }
    var encoded := TreeStore.EncodeBinary(index.tree, s);
    out := COVER_MAGIC + (PutU32(COVER_VERSION_1) + (PutU32(ToU32(index.dim)) + encoded));
  }

  /** The older format read by the cover index itself, with the same cursor discipline as the
      linear-scan index: it accepts the same strings and finds the same items. */
  method DecodeBruteData(data: Bytes) returns (r: Result<(seq<Bytes>, seq<seq<U32>>)>)
    ensures r == match DecIndex(data) case Ok(x) => Ok((x.ids, x.vecs)) case Err => Err
  {
    hide DecItems, ReadBytes, ReadWords, GetU32, Reading;
    if |data| < 8 {
      return Err;
    }
    WordAt(data, 0);
    WordAt(data, 4);
    var dim, n := GetU32(data[0..4]), GetU32(data[4..8]);
    var off := 8;
    assert data[0..] == data && data[4..][4..] == data[8..];
    ghost var all := DecItems(data[8..], dim, n);
    ReadingStarts(data[8..], dim, n);
    var ids: seq<Bytes>, vecs: seq<seq<U32>> := [], [];
    var idx := 0;
    while idx < n
      invariant 0 <= off <= |data| && |ids| == |vecs| == idx <= n
      invariant Reading(all, ids, vecs, data[off..], dim, n - idx)
    {
      var id := ReadId(data, off);
      if id.Err? {
        ReadingFails(all, ids, vecs, data[off..], dim, n - idx);
        return Err;
      }
      var vec := ReadVector(data, id.value.1, dim);
      if vec.Err? {
        ReadingFails(all, ids, vecs, data[off..], dim, n - idx);
        return Err;
      }
      ReadingStep(all, ids, vecs, data[off..], dim, n - idx);
      ids, vecs, off, idx := ids + [id.value.0], vecs + [vec.value.0], vec.value.1, idx + 1;
    }
    ReadingEnds(all, ids, vecs, data[off..], dim);
    return Ok((ids, vecs));
  }

  method SetBoundStrategy(t: Tree, b: BoundStrategy, ghost stored: TreeCodec.Stored)
    requires t.Valid() && TreeStore.Loaded(t, stored)
    modifies t`boundStrategy
    ensures t.Valid() && TreeStore.Loaded(t, stored) && t.boundStrategy == b
  {
    hide TreeStore.Filled, TreeStore.Built, Tree.Conserves, Tree.Linked, Tree.Indexed, LevelsExact, Radius;
    t.boundStrategy := b;
  }

  /** The walk of a loaded tree meets the values in index order. */
  lemma WalkOfLoaded(t: Tree, stored: TreeCodec.Stored, visits: seq<(Bytes, Point)>)
    requires t.Valid() && TreeStore.Loaded(t, stored)
    requires if t.root == null then visits == []
             else t.root in t.view && visits == Tagged(t.values, Preorder(t.view[t.root]))
    ensures |visits| == |t.values|
    ensures forall i :: 0 <= i < |visits| ==> visits[i] == (t.values[i], t.Stored()[i])
  {
    hide Preorder, Tree.Linked, Tree.Conserves, Tree.Coherent, LevelsExact, TreeStore.Rebuild;
    forall i | 0 <= i < |visits|
      ensures visits[i] == (t.values[i], t.Stored()[i])
    {
      assert t.Stored()[i].index == i;
    }
  }

  /** refreshCachesFromTree. */
  method RefreshCaches(index: CoverIndex.Index, t: Tree, ghost stored: TreeCodec.Stored)
    requires index.tree == t && t.lib == index.lib && t.Valid() && TreeStore.Loaded(t, stored)
    modifies index`ids, index`vecs, index`dim, index`distance
    ensures index.Valid()
    ensures index.distance == Some(t.metric) && index.dim == if index.vecs == [] then 0 else |index.vecs[0]|
  {
    hide Ready, Tree.Valid, TreeStore.Loaded, Tree.Indexed;
    ghost var s := Snap(t);
    TreeIsReady(t, s);
    var visits := ForEach(t, s);
    WalkOfLoaded(t, stored, visits);
    var ids: seq<Bytes>, vecs: seq<seq<U32>> := [], [];
    for i := 0 to |visits|
      invariant |ids| == |vecs| == i
      invariant forall j :: 0 <= j < i ==> ids[j] == visits[j].0 && vecs[j] == visits[j].1.vector
    {
      ids, vecs := ids + [visits[i].0], vecs + [visits[i].1.vector];
    }
    assert ids == t.values;
    index.ids, index.vecs := ids, vecs;
    index.distance := Some(t.metric);
    index.dim := if |vecs| > 0 then |vecs[0]| else 0;
  }

  /** UnmarshalBinary: the tree format or the linear-scan format, told apart by the first four bytes. */
  method Unmarshal(index: CoverIndex.Index, data: Bytes, f: Floats) returns (ok: bool)
    requires index.lib.val(DEFAULT_BASE) > 1.0 && (index.tree != null ==> index.tree.lib == index.lib)
    modifies index, index.tree
    ensures ok <==> if IsCoverBlob(data) then DecCover(data).Ok? else DecIndex(data).Ok?
    ensures ok ==> index.Valid() && index.tree != null
    ensures ok && IsCoverBlob(data) ==>
              var stored := DecCover(data).value.1;
              && TreeStore.Loaded(index.tree, stored) && index.distance == Some(TreeStore.MetricOf(stored.name))
              && index.tree.boundStrategy == index.boundStrategy
    ensures ok && !IsCoverBlob(data) ==>
              var x := Reloaded(DecIndex(data).value);
              index.dim == x.dim && index.ids == x.ids && index.vecs == x.vecs && Filled(index.tree, x.ids, x.vecs)
  {
    hide Tree.Valid, TreeStore.Loaded, TreeCodec.DecTree, Filled, DecItems;
    if IsCoverBlob(data) {
      var version := ReadU32(data[4..]);
      if version.Err? {
        return false;
      }
      var dim := ReadU32(version.value.1);
      if dim.Err? {
        return false;
      }
      if index.tree == null {
        var created := new Tree(index.lib, DEFAULT_BASE, Cosine);
        index.tree := created;
      }
      var t := index.tree;
      var rest := TreeStore.DecodeBinary(t, dim.value.1);
      if rest.Err? {
        return false;
      }
      ghost var stored := DecCover(data).value.1;
      SetBoundStrategy(t, index.boundStrategy, stored);
      index.dim := dim.value.0;
      RefreshCaches(index, t, stored);
      LoadedMetric(t, stored);
      return true;
    }
    var bf := new BruteForce.Index(f);
    var parsed := BruteCodec.Unmarshal(bf, data);
    if !parsed {
      return false;
    }
    var items := DecodeBruteData(data);
    if items.Err? {
      return false;
    }
    ok := index.Build(items.value.0, items.value.1);
  }

  lemma LoadedMetric(t: Tree, stored: TreeCodec.Stored)
    requires TreeStore.Loaded(t, stored)
    ensures t.metric == TreeStore.MetricOf(stored.name)
  {
  }
}
