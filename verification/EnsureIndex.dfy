/** ensureIndex of vec/api.go as one sequential method: cached index, persisted blob, or a scan of the
    shadow rows, a build and a write.  It does what the storage machine's MATCH step says. */
module EnsureIndex {
  import opened Wire
  import opened Names
  import opened Persisted
  import opened Storage
  import opened BruteCodec
  import BruteForce
  import CoverBlob
  import CoverIndex
  import CoverShape
  import CoverTree
  import TreeCodec
  import TreeSearch
  import TreeStore

  // ---------------------------------------------------------------- the scan

  /** `order` is a possible result order of the query for the dataset's rows with an embedding. */
  ghost predicate Selects(order: seq<Key>, rows: Rows, dataset: string) {
    && (forall i, j :: 0 <= i < j < |order| ==> order[i] != order[j])
    && (forall i :: 0 <= i < |order| ==> order[i] in rows && order[i].dataset == dataset && rows[order[i]].Some?)
    && (forall k :: k in rows && k.dataset == dataset && rows[k].Some? ==> k in order)
  }

  /** vector.EncodeEmbedding: each word written at its offset in one buffer. */
  method EncodeEmbedding(vec: seq<U32>) returns (b: Bytes)
    ensures b == PutWords(vec) && |b| == 4 * |vec|
    ensures Decodes(b) && VectorOf(b) == vec
  {
    EmbeddingRoundTrip(vec);
    if |vec| == 0 {
      return [];
    }
    var buffer := new Byte[|vec| * 4];
    for i := 0 to |vec|
      invariant buffer[..i * 4] == PutWords(vec[..i])
    {
      var word := PutU32(vec[i]);
      buffer[i * 4], buffer[i * 4 + 1], buffer[i * 4 + 2], buffer[i * 4 + 3] := word[0], word[1], word[2], word[3];
      WordsOneMore(vec, i);
      assert buffer[..(i + 1) * 4] == buffer[..i * 4] + word;
    }
    assert vec[..|vec|] == vec && buffer[..] == buffer[..|vec| * 4];
    return buffer[..];
  }

  lemma WordsOneMore(vec: seq<U32>, i: nat)
    requires i < |vec|
    ensures PutWords(vec[..i + 1]) == PutWords(vec[..i]) + PutU32(vec[i])
  {
    PutWordsAppend(vec[..i], vec[i]);
    assert vec[..i + 1] == vec[..i] + [vec[i]];
  }

  /** vector.DecodeEmbedding: it accepts exactly the blobs that EncodeEmbedding writes, and gives back the
      vector that was encoded. */
  method DecodeEmbedding(b: Bytes) returns (r: Result<seq<U32>>)
    ensures r.Ok? <==> |b| % 4 == 0
    ensures r.Ok? ==> PutWords(r.value) == b
    ensures r == if Decodes(b) then Ok(VectorOf(b)) else Err
  {
    if |b| % 4 != 0 {
      return Err;
    }
    var n := |b| / 4;
    var vec: seq<U32> := [];
    for i := 0 to n
      invariant vec == GetWords(b, i)
    {
      WordsPrefix(b, i, n);
      vec := vec + [GetU32(b[i * 4..])];
    }
    EmbeddingCanonical(b);
    return Ok(vec);
  }

  /** The pairs read so far are those of the embedded rows among the first `n` of `order`. */
  ghost predicate ReadSoFar(ps: Pairs, rows: Rows, dataset: string, order: seq<Key>, n: nat)
    requires n <= |order|
  {
    && (forall i :: 0 <= i < |ps| ==> IsPairOf(ps[i], rows, dataset) && Key(dataset, ps[i].0) in order[..n])
    && OncePerId(ps)
    && (forall j :: 0 <= j < n && IsEmbedded(rows, dataset, order[j]) ==>
          Decodes(rows[order[j]].value) && exists i :: 0 <= i < |ps| && ps[i].0 == order[j].id)
  }

  ghost predicate OncePerId(ps: Pairs) {
    forall i, j :: 0 <= i < j < |ps| ==> ps[i].0 != ps[j].0
  }

  lemma {:induction false} IdOf(ps: Pairs, id: Bytes) returns (i: nat)
    requires id in ContentsOf(ps)
    ensures i < |ps| && ps[i].0 == id
  {
    var n := |ps| - 1;
    if ps[n].0 == id {
      i := n;
    } else {
      i := IdOf(ps[..n], id);
    }
  }

  lemma Grows(m: Contents, id: Bytes, v: seq<U32>)
    requires id !in m
    ensures |m[id := v]| == |m| + 1
  {
    assert m[id := v].Keys == m.Keys + {id};
  }

  lemma {:induction false} OncePerIdSize(ps: Pairs)
    requires OncePerId(ps)
    ensures |ContentsOf(ps)| == |ps|
  {
    if ps == [] {
    } else {
      var n := |ps| - 1;
      OncePerIdSize(ps[..n]);
      if ps[n].0 in ContentsOf(ps[..n]) {
        var i := IdOf(ps[..n], ps[n].0);
        assert false;
      }
      Grows(ContentsOf(ps[..n]), ps[n].0, ps[n].1);
    }
  }

  ghost predicate IsPairOf(p: (Bytes, seq<U32>), rows: Rows, dataset: string) {
    IsEmbedded(rows, dataset, Key(dataset, p.0)) && p.1 == VectorOf(rows[Key(dataset, p.0)].value)
    && Decodes(rows[Key(dataset, p.0)].value)
  }

  lemma ReadOneMore(ps: Pairs, rows: Rows, dataset: string, order: seq<Key>, n: nat)
    requires n < |order| && ReadSoFar(ps, rows, dataset, order, n) && Selects(order, rows, dataset)
    requires IsEmbedded(rows, dataset, order[n]) && Decodes(rows[order[n]].value)
    ensures ReadSoFar(ps + [(order[n].id, VectorOf(rows[order[n]].value))], rows, dataset, order, n + 1)
  {
    var after := ps + [(order[n].id, VectorOf(rows[order[n]].value))];
    assert order[n] == Key(dataset, order[n].id);
    forall j | 0 <= j < n + 1 && IsEmbedded(rows, dataset, order[j])
      ensures Decodes(rows[order[j]].value) && exists i :: 0 <= i < |after| && after[i].0 == order[j].id
    {
      if j == n {
        assert after[|ps|].0 == order[j].id;
      } else {
        var i :| 0 <= i < |ps| && ps[i].0 == order[j].id;
        assert after[i].0 == order[j].id;
      }
    }
  }

  lemma ReadSkips(ps: Pairs, rows: Rows, dataset: string, order: seq<Key>, n: nat)
    requires n < |order| && ReadSoFar(ps, rows, dataset, order, n) && !IsEmbedded(rows, dataset, order[n])
    ensures ReadSoFar(ps, rows, dataset, order, n + 1)
  {
  }

  lemma ReadAll(ps: Pairs, rows: Rows, dataset: string, order: seq<Key>)
    requires ReadSoFar(ps, rows, dataset, order, |order|) && Selects(order, rows, dataset)
    ensures Covers(ps, Embedded(rows, dataset)) && OncePerId(ps)
    ensures forall k :: IsEmbedded(rows, dataset, k) ==> Decodes(rows[k].value)
  {
  }

  /** The loop over the selected rows. */
  method ScanRows(rows: Rows, dataset: string, order: seq<Key>) returns (r: Result<(seq<Bytes>, seq<seq<U32>>)>)
    requires Selects(order, rows, dataset)
    ensures r.Ok? <==> forall k :: IsEmbedded(rows, dataset, k) ==> Decodes(rows[k].value)
    ensures r.Ok? ==> |r.value.0| == |r.value.1| && Lists(Zip(r.value.0, r.value.1), Embedded(rows, dataset))
  {
    hide Embedded, VectorOf, ReadSoFar, Covers;
    var ids: seq<Bytes>, vecs: seq<seq<U32>> := [], [];
    ghost var ps: Pairs := [];
    NothingRead(rows, dataset, order);
    for n := 0 to |order|
      invariant |ids| == |vecs| && ps == Zip(ids, vecs)
      invariant ReadSoFar(ps, rows, dataset, order, n)
    {
      var emb := rows[order[n]].value;
      if |emb| == 0 {
        ReadSkips(ps, rows, dataset, order, n);
      } else {
        assert IsEmbedded(rows, dataset, order[n]);
        var v := DecodeEmbedding(emb);
        if v.Err? {
          return Err;
        }
        ReadOneMore(ps, rows, dataset, order, n);
        ids, vecs, ps := ids + [order[n].id], vecs + [v.value], ps + [(order[n].id, v.value)];
        assert ps == Zip(ids, vecs);
      }
    }
    ReadAll(ps, rows, dataset, order);
    CoversGives(ps, Embedded(rows, dataset));
    OncePerIdSize(ps);
    return Ok((ids, vecs));
  }

  lemma NothingRead(rows: Rows, dataset: string, order: seq<Key>)
    ensures ReadSoFar([], rows, dataset, order, 0)
  {
  }

  /** `ids` and `vecs` are the embedded rows, all of which decode. */
  ghost predicate Scanned(ids: seq<Bytes>, vecs: seq<seq<U32>>, rows: Rows, dataset: string) {
    && |ids| == |vecs| && Lists(Zip(ids, vecs), Embedded(rows, dataset))
    && forall k :: IsEmbedded(rows, dataset, k) ==> Decodes(rows[k].value)
  }

  /** The scan lists an id with a vector exactly when the row's blob is that vector's encoding. */
  lemma ScannedIff(ids: seq<Bytes>, vecs: seq<seq<U32>>, rows: Rows, dataset: string, id: Bytes, v: seq<U32>)
    requires Scanned(ids, vecs, rows, dataset) && v != []
    ensures (exists i :: 0 <= i < |ids| && ids[i] == id && vecs[i] == v)
            <==> (Key(dataset, id) in rows && rows[Key(dataset, id)] == Some(PutWords(v)))
  {
    hide VectorOf, Embedded;
    IndexedIff(rows, dataset, id, v);
    if id in Embedded(rows, dataset) && Embedded(rows, dataset)[id] == v {
      var i :| 0 <= i < |ids| && Zip(ids, vecs)[i].0 == id;
      assert ids[i] == id && vecs[i] == v;
    }
    forall i | 0 <= i < |ids|
      ensures ids[i] in Embedded(rows, dataset) && Embedded(rows, dataset)[ids[i]] == vecs[i]
    {
      assert Zip(ids, vecs)[i] == (ids[i], vecs[i]);
    }
  }

  lemma RowOf(ids: seq<Bytes>, vecs: seq<seq<U32>>, rows: Rows, dataset: string, i: nat) returns (k: Key)
    requires Scanned(ids, vecs, rows, dataset) && i < |vecs|
    ensures IsEmbedded(rows, dataset, k) && 4 * |vecs[i]| == |rows[k].value|
  {
    k := Key(dataset, ids[i]);
    assert Zip(ids, vecs)[i].0 in Embedded(rows, dataset);
  }

  lemma PlaceOf(ids: seq<Bytes>, vecs: seq<seq<U32>>, rows: Rows, dataset: string, k: Key) returns (i: nat)
    requires Scanned(ids, vecs, rows, dataset) && IsEmbedded(rows, dataset, k)
    ensures i < |vecs| && 4 * |vecs[i]| == |rows[k].value|
  {
    assert k == Key(dataset, k.id) && k.id in Embedded(rows, dataset);
    i :| 0 <= i < |ids| && Zip(ids, vecs)[i].0 == k.id;
  }

  /** A build accepts the vectors exactly when the storage machine calls the rows buildable. */
  lemma BuildableIff(ids: seq<Bytes>, vecs: seq<seq<U32>>, rows: Rows, dataset: string)
    requires Scanned(ids, vecs, rows, dataset)
    ensures Buildable(rows, dataset) <==> CoverIndex.Rectangular(vecs)
    ensures forall i :: 0 <= i < |vecs| ==> vecs[i] != []
  {
    hide Lists, Embedded;
    forall i | 0 <= i < |vecs|
      ensures vecs[i] != [] && (Buildable(rows, dataset) ==> |vecs[i]| == |vecs[0]|)
    {
      var k := RowOf(ids, vecs, rows, dataset, i);
      var l := RowOf(ids, vecs, rows, dataset, 0);
    }
    if CoverIndex.Rectangular(vecs) {
      forall k, l | IsEmbedded(rows, dataset, k) && IsEmbedded(rows, dataset, l)
        ensures |rows[k].value| == |rows[l].value|
      {
        var i := PlaceOf(ids, vecs, rows, dataset, k);
        var j := PlaceOf(ids, vecs, rows, dataset, l);
      }
    }
  }

  // ---------------------------------------------------------------- the build

  /** What a table was created with. */
  datatype Options = Options(
    kind: string,
    base: U32,
    bound: CoverTree.BoundStrategy,
    distance: Option<CoverTree.MetricName>)

  const AUTO_COVER_MIN_DOCS: int := 4000
  const AUTO_COVER_MIN_DIM: int := 64
  const AUTO_COVER_MIN_DENSITY: real := 16.0

  function ResolveIndexKind(kind: string, docs: int, dim: int): string {
    if kind != "auto" && kind != "" then kind
    else if docs >= AUTO_COVER_MIN_DOCS && dim >= AUTO_COVER_MIN_DIM
            && docs as real / dim as real >= AUTO_COVER_MIN_DENSITY then "cover"
    else "brute"
  }

  /** The kind a table gives is kept; "auto", or none, means the cover tree from 4000 documents of at
      least 64 dimensions on, with 16 documents for each dimension. */
  lemma AutoKindIff(docs: nat, dim: nat)
    ensures ResolveIndexKind("auto", docs, dim) == ResolveIndexKind("", docs, dim)
    ensures ResolveIndexKind("auto", docs, dim) ==
            if docs >= 4000 && dim >= 64 && docs >= 16 * dim then "cover" else "brute"
    ensures ResolveIndexKind("cover", docs, dim) == "cover" && ResolveIndexKind("brute", docs, dim) == "brute"
  {
    if dim >= 64 {
      var density := docs as real / dim as real;
      assert density * dim as real == docs as real;
      assert density >= 16.0 <==> docs as real >= 16.0 * dim as real;
    }
  }

  /** A blob some of whose numbers do not fit their fields, or whose dimension spells "COV1". */
  ghost predicate Oversize(blob: Bytes) {
    || (exists x :: BruteForce.Uniform(x) && blob == EncIndex(x) && !(x.dim != COVER_MAGIC_WORD && FitsItems(x)))
    || (exists dim: nat, stored ::
          blob == CoverBlob.EncCover(dim, stored) && !(dim < TWO32 && TreeCodec.FitsTree(stored)))
  }

  function DimOf(vecs: seq<seq<U32>>): nat {
    if vecs == [] then 0 else |vecs[0]|
  }

  /** A cover blob with the metric and the base asked for, or the defaults in their place. */
  ghost predicate CoverBlobFor(blob: Bytes, lib: CoverTree.Library, options: Options, dim: nat) {
    exists stored :: blob == CoverBlob.EncCover(dim, stored)
                     && stored.name == Ascii(if options.distance == Some(CoverTree.Euclidean)
                                             then "euclidean" else "cosine")
                     && stored.base == if lib.val(options.base) <= 1.0 then CoverTree.DEFAULT_BASE else options.base
  }

  /** The blob is in the format of the kind the options resolve to. */
  ghost predicate InKind(blob: Bytes, lib: CoverTree.Library, options: Options, ids: seq<Bytes>, vecs: seq<seq<U32>>) {
    if ResolveIndexKind(options.kind, |ids|, DimOf(vecs)) == "cover" then CoverBlobFor(blob, lib, options, DimOf(vecs))
    else
      && |ids| == |vecs| && CoverIndex.Rectangular(vecs)
      && blob == EncIndex(BruteForce.Items(DimOf(vecs), ids, vecs))
  }

  /** The blob is of the right kind for some listing of the dataset's embedded rows. */
  ghost predicate BuiltFrom(blob: Bytes, lib: CoverTree.Library, options: Options, rows: Rows, dataset: string) {
    exists ids, vecs :: Scanned(ids, vecs, rows, dataset) && InKind(blob, lib, options, ids, vecs)
  }

  method BuildBrute(f: BruteForce.Floats, ids: seq<Bytes>, vecs: seq<seq<U32>>,
                    ghost m: Contents) returns (r: Result<Bytes>)
    requires |ids| == |vecs| && Lists(Zip(ids, vecs), m) && forall i :: 0 <= i < |vecs| ==> vecs[i] != []
    ensures r.Ok? <==> CoverIndex.Rectangular(vecs)
    ensures r.Ok? ==> Encodes(r.value, m) || Oversize(r.value)
    ensures r.Ok? ==> CoverIndex.Rectangular(vecs) && r.value == EncIndex(BruteForce.Items(DimOf(vecs), ids, vecs))
  {
    hide Lists, Encodes, EncIndex;
    var index := new BruteForce.Index(f);
    var ok := index.Build(ids, vecs);
    if !ok {
      return Err;
    }
    var blob := Marshal(index);
    ghost var x := index.Contents();
    if x.ids == [] || (x.dim != COVER_MAGIC_WORD && FitsItems(x)) {
      BruteEncodes(x, m);
    }
    return Ok(blob);
  }

  method BuildCover(lib: CoverTree.Library, f: BruteForce.Floats, options: Options, ids: seq<Bytes>,
                    vecs: seq<seq<U32>>,
                    ghost m: Contents) returns (r: Result<Bytes>)
    requires |ids| == |vecs| && Lists(Zip(ids, vecs), m) && lib.val(CoverTree.DEFAULT_BASE) > 1.0
    ensures r.Ok? <==> CoverIndex.Rectangular(vecs)
    ensures r.Ok? ==> Encodes(r.value, m) || Oversize(r.value)
    ensures r.Ok? ==> CoverBlobFor(r.value, lib, options, DimOf(vecs))
  {
    hide Lists, Encodes, CoverBlob.EncCover, CoverTree.Tree.Valid, CoverIndex.Filled;
    TreeStore.NamesInAscii();
    var index := new CoverIndex.Index(lib, options.base, options.bound, options.distance);
    var ok := index.Build(ids, vecs);
    if !ok {
      return Err;
    }
    ghost var s := TreeSearch.Snap(index.tree);
    TreeSearch.TreeIsReady(index.tree, s);
    var blob := CoverBlob.Marshal(index, f, s);
    if index.dim < TWO32 && TreeCodec.FitsTree(TreeStore.StripTree(s)) {
      CoverEncodes(index.tree, s, index.dim, ids, vecs, m);
    }
    return Ok(blob);
  }

  method BuildBlob(lib: CoverTree.Library, f: BruteForce.Floats, options: Options, ids: seq<Bytes>, vecs: seq<seq<U32>>,
                   ghost m: Contents) returns (r: Result<Bytes>)
    requires |ids| == |vecs| && Lists(Zip(ids, vecs), m) && lib.val(CoverTree.DEFAULT_BASE) > 1.0
    requires forall i :: 0 <= i < |vecs| ==> vecs[i] != []
    ensures r.Ok? <==> CoverIndex.Rectangular(vecs)
    ensures r.Ok? ==> Encodes(r.value, m) || Oversize(r.value)
    ensures r.Ok? ==> InKind(r.value, lib, options, ids, vecs)
  {
    hide Lists, Encodes, Oversize, CoverBlobFor, EncIndex;
    var dim := if |vecs| > 0 then |vecs[0]| else 0;
    if ResolveIndexKind(options.kind, |ids|, dim) == "cover" {
      r := BuildCover(lib, f, options, ids, vecs, m);
    } else {
      r := BuildBrute(f, ids, vecs, m);
    }
  }

  // ---------------------------------------------------------------- loading

  function PairsAlong(vs: seq<Bytes>, ps: seq<CoverShape.Point>): (r: Pairs)
    requires |vs| == |ps|
    ensures |r| == |vs| && forall i :: 0 <= i < |vs| ==> r[i] == (vs[i], ps[i].vector)
  {
    seq(|vs|, i requires 0 <= i < |vs| => (vs[i], ps[i].vector))
  }

  lemma PairsAlongJoins(vs: seq<Bytes>, ps: seq<CoverShape.Point>, vs': seq<Bytes>, ps': seq<CoverShape.Point>)
    requires |vs| == |ps| && |vs'| == |ps'|
    ensures PairsAlong(vs + vs', ps + ps') == PairsAlong(vs, ps) + PairsAlong(vs', ps')
  {
  }

  /** A rebuilt subtree pairs the stored values with the walked vectors as its code does. */
  lemma {:induction false} RebuiltPairs(c: TreeCodec.Coded, first: int, base: real)
    ensures |TreeStore.ValuesOf(c)| == |CoverShape.Preorder(TreeStore.Rebuild(c, first, base))|
    ensures PairsOf(c) == PairsAlong(TreeStore.ValuesOf(c), CoverShape.Preorder(TreeStore.Rebuild(c, first, base)))
    decreases c, 1
  {
    var shape := TreeStore.Rebuild(c, first, base);
    RebuiltPairsAll(c.children, first + 1, base);
    PairsAlongJoins([c.value], [shape.point], TreeStore.ValuesOfAll(c.children),
                    CoverShape.PreorderAll(shape.children));
  }

  lemma {:induction false} RebuiltPairsAll(cs: seq<TreeCodec.Coded>, first: int, base: real)
    ensures |TreeStore.ValuesOfAll(cs)| == |CoverShape.PreorderAll(TreeStore.RebuildAll(cs, first, base))|
    ensures PairsOfAll(cs) ==
            PairsAlong(TreeStore.ValuesOfAll(cs), CoverShape.PreorderAll(TreeStore.RebuildAll(cs, first, base)))
    decreases cs, 0
  {
    hide PairsOf, PairsAlong, TreeStore.ValuesOf, TreeStore.Rebuild, CoverShape.Preorder;
    if cs == [] {
    } else {
      var next := first + |TreeStore.ValuesOf(cs[0])|;
      var s, ss := TreeStore.Rebuild(cs[0], first, base), TreeStore.RebuildAll(cs[1..], next, base);
      RebuiltPairs(cs[0], first, base);
      RebuiltPairsAll(cs[1..], next, base);
      PairsAlongJoins(TreeStore.ValuesOf(cs[0]), CoverShape.Preorder(s), TreeStore.ValuesOfAll(cs[1..]),
                      CoverShape.PreorderAll(ss));
    }
  }

  lemma LoadedPairs(t: CoverTree.Tree, stored: TreeCodec.Stored, ids: seq<Bytes>, vecs: seq<seq<U32>>)
    requires TreeStore.Loaded(t, stored) && CoverIndex.Keeps(t, ids, vecs)
    ensures |ids| == |vecs| && Zip(ids, vecs) == if stored.root.None? then [] else PairsOf(stored.root.value)
  {
    if stored.root.Some? {
      RebuiltPairs(stored.root.value, 0, t.Base());
    }
  }

  /** loadPersistedIndex, with the readers of the two formats. */
  method LoadPersisted(lib: CoverTree.Library, f: BruteForce.Floats, options: Options,
                       blob: Bytes) returns (r: Result<Pairs>)
    requires lib.val(CoverTree.DEFAULT_BASE) > 1.0
    ensures r == LoadPairs(blob)
  {
    hide DecIndex, CoverBlob.DecCover, TreeStore.Loaded, CoverTree.Tree.Valid, PairsOf, CoverIndex.Keeps;
    if |blob| == 0 {
      return Err;
    }
    if IsCoverBlob(blob) {
      var index := new CoverIndex.Index(lib, options.base, options.bound, options.distance);
      var ok := CoverBlob.Unmarshal(index, blob, f);
      if !ok {
        return Err;
      }
      LoadedPairs(index.tree, CoverBlob.DecCover(blob).value.1, index.ids, index.vecs);
      return Ok(Zip(index.ids, index.vecs));
    }
    var index := new BruteForce.Index(f);
    var ok := Unmarshal(index, blob);
    if !ok {
      return Err;
    }
    return Ok(Zip(index.ids, index.vecs));
  }

  // ---------------------------------------------------------------- the method

  /** There is something to build: rows that can be indexed, and neither a cached index nor a blob that
      loads. */
  ghost predicate Builds(w: World, t: TableId, dataset: string)
    requires t in w.tables
  {
    !Blank(dataset) && Buildable(w.tables[t].rows, dataset) && MustBuild(w, t, dataset)
  }

  /** A linear-scan blob for some listing of the dataset's embedded rows. */
  ghost predicate BruteFrom(blob: Bytes, rows: Rows, dataset: string) {
    exists ids, vecs ::
      Scanned(ids, vecs, rows, dataset) && CoverIndex.Rectangular(vecs)
      && blob == EncIndex(BruteForce.Items(DimOf(vecs), ids, vecs))
  }

  class Process {
    const path: string -> string
    const lib: CoverTree.Library
    const f: BruteForce.Floats
    var tables: map<TableId, Table>
    var blobs: map<Slot, Bytes>
    var cache: map<string, Contents>

    constructor (path: string -> string, lib: CoverTree.Library, f: BruteForce.Floats, tables: map<TableId, Table>,
                 blobs: map<Slot, Bytes>)
      ensures State() == World(path, tables, blobs, map[]) && this.lib == lib && this.f == f
    {
      this.path, this.lib, this.f, this.tables, this.blobs, cache := path, lib, f, tables, blobs, map[];
    }

    function State(): World
      reads this
    {
      World(path, tables, blobs, cache)
    }

    /** The second half: scan, build, write the blob (which may fail unnoticed) and publish. */
    method BuildAndPublish(t: TableId, dataset: string, key: string, order: seq<Key>, options: Options, writes: bool)
      returns (r: Result<Contents>, ghost blob: Option<Bytes>)
      requires t in tables && Selects(order, tables[t].rows, dataset) && lib.val(CoverTree.DEFAULT_BASE) > 1.0
      modifies `blobs, `cache
      ensures r == if Buildable(tables[t].rows, dataset) then Ok(Embedded(tables[t].rows, dataset)) else Err
      ensures r.Err? ==> blobs == old(blobs) && cache == old(cache)
      ensures r.Ok? ==> cache == old(cache)[key := r.value]
      ensures r.Ok? ==> blobs == if blob.Some? then old(blobs)[Slot(Shadow(t), dataset) := blob.value] else old(blobs)
      ensures blob.Some? <==> r.Ok? && writes
      ensures blob.Some? ==> Encodes(blob.value, r.value) || Oversize(blob.value)
      ensures blob.Some? ==> BuiltFrom(blob.value, lib, options, tables[t].rows, dataset)
    {
      hide Embedded, Buildable, Encodes, Oversize, Lists, ContentsOf, Selects, InKind;
      var rows := tables[t].rows;
      ghost var m := Embedded(rows, dataset);
      blob := None;
      var scanned := ScanRows(rows, dataset, order);
      if scanned.Err? {
        NotBuildable(rows, dataset);
        return Err, None;
      }
      var ids, vecs := scanned.value.0, scanned.value.1;
      BuildableIff(ids, vecs, rows, dataset);
      var built := BuildBlob(lib, f, options, ids, vecs, m);
      if built.Err? {
        return Err, None;
      }
      ListsGives(Zip(ids, vecs), m);
      if writes {
        blobs := blobs[Slot(Shadow(t), dataset) := built.value];
        blob := Some(built.value);
      }
      var contents := ContentsOf(Zip(ids, vecs));
      cache := cache[key := contents];
      r := Ok(contents);
    }

    /** ensureIndex: the MATCH step of the storage machine, answering with what the cache then holds. */
    method EnsureIndex(t: TableId, dataset: string, order: seq<Key>, options: Options, writes: bool)
      returns (r: Result<Contents>, ghost blob: Option<Bytes>)
      requires t in tables && Selects(order, tables[t].rows, dataset) && lib.val(CoverTree.DEFAULT_BASE) > 1.0
      modifies this
      ensures State() == Matched(old(State()), t, dataset, blob)
      ensures blob.Some? ==> Encodes(blob.value, Embedded(tables[t].rows, dataset)) || Oversize(blob.value)
      ensures blob.Some? ==> BuiltFrom(blob.value, lib, options, tables[t].rows, dataset)
      ensures blob.Some? <==> writes && Builds(old(State()), t, dataset)
      ensures r.Ok? <==> !Blank(dataset) && CacheKeyOf(State(), t, dataset) in cache
      ensures r.Ok? ==> r.value == cache[CacheKeyOf(State(), t, dataset)]
    {
      hide Blank, LoadPairs, ContentsOf, Embedded, Buildable, Encodes, Oversize, Selects, QualifiedShadow, CacheKey,
           BuiltFrom;
      if Blank(dataset) {
        return Err, None;
      }
      var key, slot := CacheKeyOf(State(), t, dataset), Slot(Shadow(t), dataset);
      tables := tables[t := tables[t].(triggers := true)];
      if key in cache {
        return Ok(cache[key]), None;
      }
      if slot in blobs {
        var loaded := LoadPersisted(lib, f, options, blobs[slot]);
        if loaded.Ok? {
          cache := cache[key := ContentsOf(loaded.value)];
          return Ok(cache[key]), None;
        }
      }
      r, blob := BuildAndPublish(t, dataset, key, order, options, writes);
    }

    /** vec_admin's reindex, one transaction: always the linear-scan format, and the cache is not touched. */
    method Reindex(t: TableId, dataset: string, order: seq<Key>) returns (count: Result<nat>, ghost blob: Bytes)
      requires t in tables && Selects(order, tables[t].rows, dataset)
      modifies `blobs
      ensures count.Ok? <==> Buildable(tables[t].rows, dataset)
      ensures State() == Reindexed(old(State()), t, dataset, blob)
      ensures count.Ok? ==> Encodes(blob, Embedded(tables[t].rows, dataset)) || Oversize(blob)
      ensures count.Ok? ==> BruteFrom(blob, tables[t].rows, dataset)
      ensures count.Ok? ==> count.value == |Embedded(tables[t].rows, dataset)|
    {
      hide Embedded, Buildable, Encodes, Oversize, Lists, Selects, QualifiedShadow, EncIndex;
      blob := [];
      var rows := tables[t].rows;
      var scanned := ScanRows(rows, dataset, order);
      if scanned.Err? {
        NotBuildable(rows, dataset);
        return Err, [];
      }
      var ids, vecs := scanned.value.0, scanned.value.1;
      BuildableIff(ids, vecs, rows, dataset);
      ListsGives(Zip(ids, vecs), Embedded(rows, dataset));
      var built := BuildBrute(f, ids, vecs, Embedded(rows, dataset));
      if built.Err? {
        return Err, [];
      }
      blob := built.value;
      blobs := blobs[Slot(Shadow(t), dataset) := built.value];
      count := Ok(|ids|);
    }
  }

  lemma NotBuildable(rows: Rows, dataset: string)
    requires exists k :: IsEmbedded(rows, dataset, k) && !Decodes(rows[k].value)
    ensures !Buildable(rows, dataset)
  {
  }
}
