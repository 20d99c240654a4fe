/** What a persisted index blob holds, in either format, and that what the indexes write is read back
    as the rows they were built from. */
module Persisted {
  import opened Wire
  import opened BruteCodec
  import BruteForce
  import CoverBlob
  import CoverIndex
  import CoverShape
  import CoverTree
  import TreeCodec
  import TreeSearch
  import TreeStore

  // ---------------------------------------------------------------- what an index holds

  type Contents = map<Bytes, seq<U32>>

  type Pairs = seq<(Bytes, seq<U32>)>

  /** The ids and vectors of a coded tree, in the order in which it is walked. */
  function PairsOf(c: TreeCodec.Coded): Pairs
    decreases c, 1
  {
    [(c.value, c.vector)] + PairsOfAll(c.children)
  }

  function PairsOfAll(cs: seq<TreeCodec.Coded>): Pairs
    decreases cs, 0
  {
    if cs == [] then [] else PairsOf(cs[0]) + PairsOfAll(cs[1..])
  }

  function Zip(ids: seq<Bytes>, vecs: seq<seq<U32>>): (ps: Pairs)
    requires |ids| == |vecs|
    ensures |ps| == |ids| && forall i :: 0 <= i < |ids| ==> ps[i] == (ids[i], vecs[i])
  {
    seq(|ids|, i requires 0 <= i < |ids| => (ids[i], vecs[i]))
  }

  /** What loadPersistedIndex makes of a blob. */
  function LoadPairs(blob: Bytes): Result<Pairs> {
    if blob == [] then Err
    else if IsCoverBlob(blob) then
      var (dim, stored) :- CoverBlob.DecCover(blob);
      Ok(if stored.root.None? then [] else PairsOf(stored.root.value))
    else
      var x :- DecIndex(blob);
      Ok(Zip(x.ids, x.vecs))
  }

  function ContentsOf(ps: Pairs): Contents {
    if ps == [] then map[] else ContentsOf(ps[..|ps| - 1])[ps[|ps| - 1].0 := ps[|ps| - 1].1]
  }

  /** Every pair is in `m` and every id of `m` occurs. */
  ghost predicate Covers(ps: Pairs, m: Contents) {
    && (forall i :: 0 <= i < |ps| ==> ps[i].0 in m && m[ps[i].0] == ps[i].1)
    && (forall id :: id in m ==> exists i :: 0 <= i < |ps| && ps[i].0 == id)
  }

  /** The pairs are those of `m`, each once. */
  ghost predicate Lists(ps: Pairs, m: Contents) {
    Covers(ps, m) && |ps| == |m|
  }

  lemma {:induction false} ContentsFrom(ps: Pairs, m: Contents)
    requires forall i :: 0 <= i < |ps| ==> ps[i].0 in m && m[ps[i].0] == ps[i].1
    ensures forall id :: id in ContentsOf(ps) <==> exists i :: 0 <= i < |ps| && ps[i].0 == id
    ensures forall id :: id in ContentsOf(ps) ==> id in m && ContentsOf(ps)[id] == m[id]
  {
    if ps == [] {
    } else {
      var n := |ps| - 1;
      ContentsFrom(ps[..n], m);
      forall i | 0 <= i < |ps|
        ensures ps[i].0 in ContentsOf(ps)
      {
        assert i < n ==> ps[..n][i] == ps[i];
      }
      forall id | id in ContentsOf(ps)
        ensures exists i :: 0 <= i < |ps| && ps[i].0 == id
      {
        if id in ContentsOf(ps[..n]) {
          var i :| 0 <= i < n && ps[..n][i].0 == id;
          assert ps[i].0 == id;
        } else {
          assert ps[n].0 == id;
        }
      }
    }
  }

  lemma CoversGives(ps: Pairs, m: Contents)
    requires Covers(ps, m)
    ensures ContentsOf(ps) == m
  {
    ContentsFrom(ps, m);
  }

  lemma ListsGives(ps: Pairs, m: Contents)
    requires Lists(ps, m)
    ensures ContentsOf(ps) == m && |ps| == |m|
  {
    CoversGives(ps, m);
  }

  /** A blob that loads as the pairs of the contents, each once. */
  ghost predicate Encodes(blob: Bytes, m: Contents) {
    LoadPairs(blob).Ok? && ContentsOf(LoadPairs(blob).value) == m && |LoadPairs(blob).value| == |m|
  }

  lemma BlobNotEmpty(x: BruteForce.Items)
    requires BruteForce.Uniform(x)
    ensures |EncIndex(x)| >= 8
  {
  }

  /** What the linear-scan index writes loads as its rows, unless its dimension spells "COV1". */
  lemma BruteEncodes(x: BruteForce.Items, m: Contents)
    requires BruteForce.Uniform(x) && Lists(Zip(x.ids, x.vecs), m)
    requires x.ids == [] || (x.dim > 0 && x.dim != COVER_MAGIC_WORD && FitsItems(x))
    ensures Encodes(EncIndex(x), m)
  {
    hide DecIndex, EncIndex, PutU32;
    assert EncIndex(x) + [] == EncIndex(x);
    IndexRoundTrip(x, []);
    BruteBlobIsNotCover(x);
    BlobNotEmpty(x);
    CoversGives(Zip(x.ids, x.vecs), m);
    if x.ids != [] {
      SmallKept(x.dim);
    }
  }

  function PairAt(values: seq<Bytes>, p: CoverShape.Point): (Bytes, seq<U32>) {
    (CoverTree.ValueAt(values, p.index), p.vector)
  }

  /** A stripped tree lists the value and vector of each point in preorder. */
  lemma {:induction false} StrippedPairs(s: CoverShape.Shape, values: seq<Bytes>)
    ensures |PairsOf(TreeStore.Strip(s, values))| == |CoverShape.Preorder(s)|
    ensures forall i :: 0 <= i < |CoverShape.Preorder(s)| ==>
              PairsOf(TreeStore.Strip(s, values))[i] == PairAt(values, CoverShape.Preorder(s)[i])
    decreases s, 1
  {
    StrippedPairsAll(s.children, values);
  }

  lemma {:induction false} StrippedPairsAll(ss: seq<CoverShape.Shape>, values: seq<Bytes>)
    ensures |PairsOfAll(TreeStore.StripAll(ss, values))| == |CoverShape.PreorderAll(ss)|
    ensures forall i :: 0 <= i < |CoverShape.PreorderAll(ss)| ==>
              PairsOfAll(TreeStore.StripAll(ss, values))[i] == PairAt(values, CoverShape.PreorderAll(ss)[i])
    decreases ss, 0
  {
    if ss == [] {
    } else {
      StrippedPairs(ss[0], values);
      StrippedPairsAll(ss[1..], values);
      assert TreeStore.StripAll(ss, values)[1..] == TreeStore.StripAll(ss[1..], values);
    }
  }

  /** What the cover index writes loads as its rows. */
  lemma CoverEncodes(t: CoverTree.Tree, s: TreeSearch.Snapshot, dim: nat, ids: seq<Bytes>, vecs: seq<seq<U32>>,
                     m: Contents)
    requires TreeSearch.Ready(t, s) && CoverIndex.Keeps(t, ids, vecs) && |ids| == |vecs| && Lists(Zip(ids, vecs), m)
    requires dim < TWO32 && TreeCodec.FitsTree(TreeStore.StripTree(s))
    ensures Encodes(CoverBlob.EncCover(dim, TreeStore.StripTree(s)), m)
  {
    hide CoverBlob.DecCover, CoverBlob.EncCover, TreeStore.Strip, TreeCodec.FitsTree, Lists, TreeSearch.Ready,
         CoverIndex.Keeps;
    var stored := TreeStore.StripTree(s);
    var blob := CoverBlob.EncCover(dim, stored);
    assert blob + [] == blob;
    CoverBlob.CoverRoundTrip(dim, stored, []);
    TreeLists(t, s, ids, vecs, m);
    ListsGives(if stored.root.None? then [] else PairsOf(stored.root.value), m);
  }

  lemma TreeLists(t: CoverTree.Tree, s: TreeSearch.Snapshot, ids: seq<Bytes>, vecs: seq<seq<U32>>, m: Contents)
    requires TreeSearch.Ready(t, s) && CoverIndex.Keeps(t, ids, vecs) && |ids| == |vecs| && Lists(Zip(ids, vecs), m)
    ensures var root := TreeStore.StripTree(s).root;
            Lists(if root.None? then [] else PairsOf(root.value), m)
  {
    hide CoverShape.Preorder, TreeStore.Strip, Lists, TreeSearch.Ready, CoverShape.Contents, CoverTree.Tree.Valid,
         CoverTree.AllFit;
    TreeSearch.SnapshotHolds(t, s);
    TreeSearch.TreeSays(t, s);
    if s.root != null {
      var shape := s.view[s.root];
      StrippedPairs(shape, s.values);
      CoverShape.PreorderContents(shape);
      PreorderLists(t, CoverShape.Preorder(shape), PairsOf(TreeStore.Strip(shape, s.values)), ids, vecs, m);
    } else {
      assert |t.Bag()| == |t.Stored()| == |ids|;
      assert Zip(ids, vecs) == [];
    }
  }

  /** The place of a walked point among the stored ones. */
  lemma StoredAt(t: CoverTree.Tree, walk: seq<CoverShape.Point>, ids: seq<Bytes>, vecs: seq<seq<U32>>, i: nat)
    returns (j: nat)
    requires CoverIndex.Keeps(t, ids, vecs) && multiset(walk) == t.Bag() && i < |walk|
    ensures |ids| == |vecs| && j < |ids| && PairAt(t.values, walk[i]) == Zip(ids, vecs)[j]
  {
    assert walk[i] in multiset(walk);
    j :| 0 <= j < |t.Stored()| && t.Stored()[j] == walk[i];
  }

  /** The place of a stored point in the walk. */
  lemma WalkedAt(t: CoverTree.Tree, walk: seq<CoverShape.Point>, ids: seq<Bytes>, vecs: seq<seq<U32>>, j: nat)
    returns (i: nat)
    requires CoverIndex.Keeps(t, ids, vecs) && multiset(walk) == t.Bag() && j < |ids|
    ensures |ids| == |vecs| && i < |walk| && PairAt(t.values, walk[i]) == Zip(ids, vecs)[j]
  {
    assert t.Stored()[j] in multiset(t.Stored());
    i :| 0 <= i < |walk| && walk[i] == t.Stored()[j];
  }

  lemma WalkLength(t: CoverTree.Tree, walk: seq<CoverShape.Point>, ids: seq<Bytes>, vecs: seq<seq<U32>>)
    requires CoverIndex.Keeps(t, ids, vecs) && multiset(walk) == t.Bag()
    ensures |walk| == |ids|
  {
    assert |multiset(walk)| == |t.Stored()|;
  }

  lemma PreorderLists(t: CoverTree.Tree, walk: seq<CoverShape.Point>, ps: Pairs, ids: seq<Bytes>, vecs: seq<seq<U32>>,
                      m: Contents)
    requires CoverIndex.Keeps(t, ids, vecs) && |ids| == |vecs| && Lists(Zip(ids, vecs), m)
    requires multiset(walk) == t.Bag()
    requires |ps| == |walk| && forall i :: 0 <= i < |walk| ==> ps[i] == PairAt(t.values, walk[i])
    ensures Lists(ps, m)
  {
    hide CoverIndex.Keeps, PairAt;
    WalkLength(t, walk, ids, vecs);
    forall i | 0 <= i < |ps|
      ensures ps[i].0 in m && m[ps[i].0] == ps[i].1
    {
      var j := StoredAt(t, walk, ids, vecs, i);
    }
    forall id | id in m
      ensures exists i :: 0 <= i < |ps| && ps[i].0 == id
    {
      var j :| 0 <= j < |ids| && Zip(ids, vecs)[j].0 == id;
      var i := WalkedAt(t, walk, ids, vecs, j);
      assert ps[i].0 == id;
    }
  }
}
