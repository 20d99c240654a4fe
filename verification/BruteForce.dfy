/** The linear-scan index of index/bruteforce: the reference the cover index must agree with. */
module BruteForce {
  import opened Wire
  import opened Vectors
  import opened Sorting
  import opened Bags

  /** The float operations of Go: the value of a binary32 pattern and math.Sqrt. */
  datatype Floats = Floats(val: U32 -> real, sqrt: real -> real)

  function Norm(f: Floats, v: seq<U32>): real {
    f.sqrt(Dot(Reals(f.val, v), Reals(f.val, v)))
  }

  function Score(f: Floats, q: seq<U32>, v: seq<U32>): real
    requires |q| == |v| && Norm(f, q) * Norm(f, v) != 0.0
  {
    CosineOf(Reals(f.val, q), Reals(f.val, v), f.sqrt)
  }

  datatype Hit = Hit(id: Bytes, score: real)

  /** What an index stores. */
  datatype Items = Items(dim: nat, ids: seq<Bytes>, vecs: seq<seq<U32>>)

  predicate Uniform(x: Items) {
    |x.ids| == |x.vecs| && forall i :: 0 <= i < |x.vecs| ==> |x.vecs[i]| == x.dim
  }

  // ---------------------------------------------------------------- what a query answers

  ghost predicate Descending(r: seq<Hit>) {
    forall i, j :: 0 <= i < j < |r| ==> r[i].score >= r[j].score
  }

  /** Every item of non-zero norm with its score. */
  ghost function Hits(f: Floats, ids: seq<Bytes>, vecs: seq<seq<U32>>, q: seq<U32>): multiset<Hit>
    requires |ids| == |vecs| && Norm(f, q) != 0.0
    requires forall i :: 0 <= i < |vecs| ==> |vecs[i]| == |q|
  {
    if ids == [] then multiset{}
    else
      var n := |ids| - 1;
      Hits(f, ids[..n], vecs[..n], q)
      + if Norm(f, vecs[n]) == 0.0 then multiset{} else multiset{Hit(ids[n], Score(f, q, vecs[n]))}
  }

  /** k <= 0 asks for everything. */
  function Wanted(k: int, n: nat): nat {
    if k <= 0 || k > n then n else k
  }

  /** `r` lists the best of `all`, best first. */
  ghost predicate Best(all: multiset<Hit>, k: int, r: seq<Hit>) {
    && Descending(r) && multiset(r) <= all && |r| == Wanted(k, |all|)
    && forall h, x :: h in all - multiset(r) && x in r ==> h.score <= x.score
  }

  /** What Query may answer: an error, nothing, or the best hits. */
  ghost predicate Answers(f: Floats, x: Items, q: seq<U32>, k: int, r: Result<seq<Hit>>)
    requires Uniform(x)
  {
    if x.dim == 0 || x.vecs == [] then r == Ok([])
    else if |q| != x.dim then r == Err
    else if Norm(f, q) == 0.0 then r == Ok([])
    else r.Ok? && Best(Hits(f, x.ids, x.vecs, q), k, r.value)
  }

  /** An answer has k hits, and all there are when k asks for more or is not positive. */
  lemma BestSize(all: multiset<Hit>, k: int, r: seq<Hit>)
    requires Best(all, k, r)
    ensures |r| == if 1 <= k <= |all| then k else |all|
  {
  }

  lemma BestOfAll(all: multiset<Hit>, k: int, r: seq<Hit>)
    requires Best(all, k, r) && (k <= 0 || k >= |all|)
    ensures multiset(r) == all
  {
    assert all == multiset(r) + (all - multiset(r));
    assert |multiset(r)| == |r|;
  }

  /** Every score is a cosine: it lies in [-1, 1]. */
  lemma {:induction false} HitsInRange(f: Floats, ids: seq<Bytes>, vecs: seq<seq<U32>>, q: seq<U32>)
    requires IsSqrt(f.sqrt) && |ids| == |vecs| && Norm(f, q) != 0.0
    requires forall i :: 0 <= i < |vecs| ==> |vecs[i]| == |q|
    ensures forall h :: h in Hits(f, ids, vecs, q) ==> -1.0 <= h.score <= 1.0
  {
    if ids == [] {
    } else {
      var n := |ids| - 1;
      HitsInRange(f, ids[..n], vecs[..n], q);
      if Norm(f, vecs[n]) != 0.0 {
        ScoreInRange(f, q, vecs[n]);
      }
    }
  }

  lemma ScoreInRange(f: Floats, q: seq<U32>, v: seq<U32>)
    requires IsSqrt(f.sqrt) && |q| == |v| && Norm(f, q) != 0.0 && Norm(f, v) != 0.0
    ensures Norm(f, q) * Norm(f, v) != 0.0
    ensures -1.0 <= Score(f, q, v) <= 1.0
  {
    var a, b := Reals(f.val, q), Reals(f.val, v);
    NormPositive(a, f.sqrt);
    NormPositive(b, f.sqrt);
    CosineInRange(a, b, f.sqrt);
  }

  // ---------------------------------------------------------------- the index

  /** One scored item; `idx` points into the index. */
  datatype Scored = Scored(idx: nat, score: real)

  function Worseness(x: Scored): real {
    -x.score
  }

  /** The hit a scored item stands for. */
  function HitFor(ids: seq<Bytes>): Scored -> Hit {
    (x: Scored) => Hit(if x.idx < |ids| then ids[x.idx] else [], x.score)
  }

  lemma HitsStep(f: Floats, ids: seq<Bytes>, vecs: seq<seq<U32>>, q: seq<U32>, j: nat)
    requires |ids| == |vecs| && Norm(f, q) != 0.0 && j < |ids|
    requires forall i :: 0 <= i < |vecs| ==> |vecs[i]| == |q|
    ensures Hits(f, ids[..j + 1], vecs[..j + 1], q) ==
            Hits(f, ids[..j], vecs[..j], q)
            + if Norm(f, vecs[j]) == 0.0 then multiset{} else multiset{Hit(ids[j], Score(f, q, vecs[j]))}
  {
    assert ids[..j + 1][..j] == ids[..j] && vecs[..j + 1][..j] == vecs[..j];
  }

  method Magnitude(f: Floats, v: seq<U32>) returns (m: real)
    ensures m == Norm(f, v)
  {
    var a := Reals(f.val, v);
    var d := DotLoop(a, a);
    Whole(a);
    m := f.sqrt(d);
  }

  /** The scan: every item of non-zero norm is scored. */
  method Scan(f: Floats, ids: seq<Bytes>, vecs: seq<seq<U32>>, mags: seq<real>, q: seq<U32>, qm: real)
    returns (scoreds: seq<Scored>)
    requires |ids| == |vecs| == |mags| && qm == Norm(f, q) != 0.0
    requires forall i :: 0 <= i < |vecs| ==> |vecs[i]| == |q| && mags[i] == Norm(f, vecs[i])
    ensures multiset(Image(scoreds, HitFor(ids))) == Hits(f, ids, vecs, q)
  {
    hide Hits, Score, Reals, Image;
    scoreds := [];
    HitsNone(f, ids, vecs, q);
    ghost var hits: seq<Hit> := [];
    for j := 0 to |vecs|
      invariant multiset(hits) == Hits(f, ids[..j], vecs[..j], q)
      invariant |hits| == |scoreds| && forall i :: 0 <= i < |hits| ==> hits[i] == HitFor(ids)(scoreds[i])
    {
      HitsStep(f, ids, vecs, q, j);
      if mags[j] != 0.0 {
        var s := ScoreItem(f, q, vecs[j], qm, mags[j]);
        hits := hits + [Hit(ids[j], s)];
        scoreds := scoreds + [Scored(j, s)];
      }
    }
    assert hits == Image(scoreds, HitFor(ids));
    assert ids[..|vecs|] == ids && vecs[..|vecs|] == vecs;
  }

  method ScoreItem(f: Floats, q: seq<U32>, v: seq<U32>, qm: real, m: real) returns (s: real)
    requires |q| == |v| && qm == Norm(f, q) != 0.0 && m == Norm(f, v) != 0.0
    ensures Norm(f, q) * Norm(f, v) != 0.0 && s == Score(f, q, v)
  {
    hide Ratio;
    var a, b := Reals(f.val, q), Reals(f.val, v);
    var d := DotLoop(a, b);
    Whole(b);
    NonZeroProduct(qm, m);
    s := Ratio(d, qm, m);
  }

  lemma NonZeroProduct(x: real, y: real)
    requires x != 0.0 && y != 0.0
    ensures x * y != 0.0
  {
  }

  lemma HitsNone(f: Floats, ids: seq<Bytes>, vecs: seq<seq<U32>>, q: seq<U32>)
    requires |ids| == |vecs| && Norm(f, q) != 0.0
    ensures ids[..0] == [] && vecs[..0] == [] && Hits(f, [], [], q) == multiset{}
  {
  }

  lemma SortedDescends(sorted: seq<Scored>, ids: seq<Bytes>)
    requires SortedBy(sorted, Worseness)
    ensures Descending(Image(sorted, HitFor(ids)))
  {
  }

  lemma SplitBag(hits: seq<Hit>, n: nat)
    requires n <= |hits|
    ensures multiset(hits) - multiset(hits[..n]) == multiset(hits[n..]) && multiset(hits[..n]) <= multiset(hits)
  {
    assert hits == hits[..n] + hits[n..];
  }

  lemma PrefixDescends(hits: seq<Hit>, n: nat)
    requires Descending(hits) && n <= |hits|
    ensures Descending(hits[..n])
  {
  }

  lemma LaterIsWorse(hits: seq<Hit>, n: nat, h: Hit, x: Hit)
    requires Descending(hits) && n <= |hits| && h in hits[n..] && x in hits[..n]
    ensures h.score <= x.score
  {
  }

  /** The first k of the sorted hits are the best. */
  lemma FirstAreBest(hits: seq<Hit>, all: multiset<Hit>, k: int)
    requires Descending(hits) && multiset(hits) == all
    ensures Best(all, k, hits[..Wanted(k, |hits|)])
  {
    hide Descending;
    var n := Wanted(k, |hits|);
    SplitBag(hits, n);
    PrefixDescends(hits, n);
    forall h, x | h in all - multiset(hits[..n]) && x in hits[..n]
      ensures h.score <= x.score
    {
      assert h in hits[n..];
      LaterIsWorse(hits, n, h, x);
    }
  }

  class Index {
    const f: Floats
    var ids: seq<Bytes>
    var vecs: seq<seq<U32>>
    var dim: nat
    var mags: seq<real>

    constructor (f: Floats)
      ensures Valid() && this.f == f && Contents() == Items(0, [], [])
    {
      this.f := f;
      ids, vecs, dim, mags := [], [], 0, [];
    }

    function Contents(): Items
      reads this
    {
      Items(dim, ids, vecs)
    }

    ghost predicate Valid()
      reads this
    {
      && Uniform(Contents()) && |mags| == |vecs|
      && forall i :: 0 <= i < |vecs| ==> mags[i] == Norm(f, vecs[i])
    }

    /** Build: fails, changing nothing, exactly on ragged input. */
    method Build(newIds: seq<Bytes>, vectors: seq<seq<U32>>) returns (ok: bool)
      requires Valid()
      modifies this
      ensures Valid()
      ensures ok <==> |newIds| == |vectors| && forall i, j :: 0 <= i < |vectors| && 0 <= j < |vectors| ==>
                |vectors[i]| == |vectors[j]|
      ensures ok ==> Contents() == Items(if newIds == [] then 0 else |vectors[0]|, newIds, vectors)
      ensures !ok ==> Contents() == old(Contents())
    {
      if |newIds| != |vectors| {
        return false;
      }
      if |newIds| == 0 {
        ids, vecs, mags, dim := [], [], [], 0;
        return true;
      }
      var d := |vectors[0]|;
      for j := 0 to |vectors|
        invariant forall i :: 0 <= i < j ==> |vectors[i]| == d
        invariant Valid() && Contents() == old(Contents())
      {
        if |vectors[j]| != d {
          return false;
        }
      }
      var ms: seq<real> := [];
      for j := 0 to |vectors|
        invariant |ms| == j && forall i :: 0 <= i < j ==> ms[i] == Norm(f, vectors[i])
      {
        var m := Magnitude(f, vectors[j]);
        ms := ms + [m];
      }
      ids, vecs, dim, mags := newIds, vectors, d, ms;
      return true;
    }

    /** Query: the exact top k by cosine similarity. */
    method Query(query: seq<U32>, k: int) returns (r: Result<seq<Hit>>)
      requires Valid()
      ensures Answers(f, Contents(), query, k, r)
    {
      hide Hits, Best, Norm, Image;
      if dim == 0 || |vecs| == 0 {
        return Ok([]);
      }
      if |query| != dim {
        return Err;
      }
      var qm := Magnitude(f, query);
      if qm == 0.0 {
        return Ok([]);
      }
      var scoreds := Scan(f, ids, vecs, mags, query, qm);
      var sorted := Sort(scoreds, Worseness);
      ImagePermutes(sorted, scoreds, HitFor(ids));
      var count := if k <= 0 || k > |sorted| then |sorted| else k;
      var out: seq<Hit> := [];
      for n := 0 to count
        invariant |out| == n && forall i :: 0 <= i < n ==> out[i] == HitFor(ids)(sorted[i])
      {
        out := out + [HitFor(ids)(sorted[n])];
      }
      ghost var hits := Image(sorted, HitFor(ids));
      assert out == hits[..count];
      SortedDescends(sorted, ids);
      FirstAreBest(hits, Hits(f, ids, vecs, query), k);
      return Ok(out);
    }
  }
}
