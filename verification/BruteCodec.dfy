/** The binary form of the linear-scan index. */
module BruteCodec {
  import opened Wire
  import opened BruteForce

  // ---------------------------------------------------------------- printer and parser

  function EncItems(ids: seq<Bytes>, vecs: seq<seq<U32>>): Bytes
    requires |ids| == |vecs|
  {
    if ids == [] then [] else PutBytes(ids[0]) + (PutWords(vecs[0]) + EncItems(ids[1..], vecs[1..]))
  }

  predicate Silent(x: Items) {
    x.dim == 0 || x.vecs == []
  }

  /** An index that can answer nothing is written as eight zero bytes. */
  function EncIndex(x: Items): Bytes
    requires Uniform(x)
  {
    if Silent(x) then PutU32(0) + PutU32(0)
    else PutU32(ToU32(x.dim)) + (PutU32(ToU32(|x.ids|)) + EncItems(x.ids, x.vecs))
  }

  /** The layout on an example: dimension, count, and for each item its length, id and words. */
  lemma TwoItemsLayout()
    ensures EncIndex(Items(2, [Ascii("a"), Ascii("b")], [[0x3F80_0000, 0x4000_0000], [0x4000_0000, 0x3F80_0000]])) ==
            [2, 0, 0, 0] + [2, 0, 0, 0]
            + ([1, 0, 0, 0] + [97] + [0x00, 0x00, 0x80, 0x3F] + [0x00, 0x00, 0x00, 0x40])
            + ([1, 0, 0, 0] + [98] + [0x00, 0x00, 0x00, 0x40] + [0x00, 0x00, 0x80, 0x3F])
  {
    hide PutU32, ToU32, EncItems;
    SampleWords();
    assert Ascii("a") == [97] && Ascii("b") == [98];
    TwoItems([97], [98], 0x3F80_0000, 0x4000_0000, 0x4000_0000, 0x3F80_0000);
  }

  lemma TwoItems(a: Bytes, b: Bytes, u: U32, v: U32, u': U32, v': U32)
    ensures EncItems([a, b], [[u, v], [u', v']]) ==
            (PutU32(ToU32(|a|)) + a + PutU32(u) + PutU32(v)) + (PutU32(ToU32(|b|)) + b + PutU32(u') + PutU32(v'))
  {
    hide PutU32, ToU32, PutWords, EncItems;
    TwoWords(u, v);
    TwoWords(u', v');
    ItemFirst(a, [u, v], [b], [[u', v']]);
    ItemFirst(b, [u', v'], [], []);
    assert [a, b] == [a] + [b] && [[u, v], [u', v']] == [[u, v]] + [[u', v']];
  }

  lemma ItemFirst(id: Bytes, vec: seq<U32>, ids: seq<Bytes>, vecs: seq<seq<U32>>)
    requires |ids| == |vecs|
    ensures EncItems([id] + ids, [vec] + vecs) == PutBytes(id) + (PutWords(vec) + EncItems(ids, vecs))
    ensures EncItems([], []) == [] && [id] + [] == [id] && [vec] + [] == [vec]
  {
    hide PutU32, ToU32, PutWords;
    assert ([id] + ids)[1..] == ids && ([vec] + vecs)[1..] == vecs;
  }

  lemma TwoWords(u: U32, v: U32)
    ensures PutWords([u, v]) == PutU32(u) + PutU32(v)
  {
    hide PutU32;
    assert [u, v][1..] == [v] && [v][1..] == [];
    assert PutWords([v]) == PutU32(v) + PutWords([]);
  }

  datatype Batch = Batch(ids: seq<Bytes>, vecs: seq<seq<U32>>, rest: Bytes)

  function DecItems(data: Bytes, dim: nat, n: nat): (r: Result<Batch>)
    ensures r.Ok? ==> |r.value.ids| == |r.value.vecs| == n && forall i :: 0 <= i < n ==> |r.value.vecs[i]| == dim
    decreases n
  {
    if n == 0 then Ok(Batch([], [], data))
    else
      var (id, d1) :- ReadBytes(data);
      var (v, d2) :- ReadWords(d1, dim);
      var b :- DecItems(d2, dim, n - 1);
      Ok(Batch([id] + b.ids, [v] + b.vecs, b.rest))
  }

  /** What follows the last item is not read. */
  function DecIndex(data: Bytes): (r: Result<Items>)
    ensures r.Ok? ==> Uniform(r.value)
  {
    var (dim, d1) :- ReadU32(data);
    var (n, d2) :- ReadU32(d1);
    var b :- DecItems(d2, dim, n);
    Ok(Items(dim, b.ids, b.vecs))
  }

  /** What an index holds after loading `x`. */
  function Reloaded(x: Items): Items {
    if x.ids == [] then Items(0, [], []) else x
  }

  // ---------------------------------------------------------------- round trip

  predicate FitsItems(x: Items) {
    x.dim < TWO32 && |x.ids| < TWO32 && forall i :: 0 <= i < |x.ids| ==> |x.ids[i]| < TWO32
  }

  lemma {:induction false} ItemsBack(ids: seq<Bytes>, vecs: seq<seq<U32>>, dim: nat, rest: Bytes)
    requires |ids| == |vecs| && forall i :: 0 <= i < |ids| ==> |ids[i]| < TWO32 && |vecs[i]| == dim
    ensures DecItems(EncItems(ids, vecs) + rest, dim, |ids|) == Ok(Batch(ids, vecs, rest))
  {
    hide PutBytes, PutWords, ReadBytes, ReadWords;
    if ids == [] {
      assert EncItems(ids, vecs) + rest == rest;
    } else {
      var d2 := EncItems(ids[1..], vecs[1..]) + rest;
      var d1 := PutWords(vecs[0]) + d2;
      assert EncItems(ids, vecs) + rest == PutBytes(ids[0]) + d1;
      BytesBack(ids[0], d1);
      WordsBack(vecs[0], d2);
      ItemsBack(ids[1..], vecs[1..], dim, rest);
      assert [ids[0]] + ids[1..] == ids && [vecs[0]] + vecs[1..] == vecs;
    }
  }

  lemma FirstItem(data: Bytes, dim: nat, n: nat) returns (id: Bytes, d2: Bytes, b: Batch)
    requires n > 0 && DecItems(data, dim, n).Ok?
    ensures |id| < TWO32 && DecItems(d2, dim, n - 1) == Ok(b)
    ensures DecItems(data, dim, n).value.ids == [id] + b.ids
  {
    BytesCanonical(data);
    id := ReadBytes(data).value.0;
    d2 := ReadWords(ReadBytes(data).value.1, dim).value.1;
    b := DecItems(d2, dim, n - 1).value;
  }

  lemma {:induction false} ParsedItemsFit(data: Bytes, dim: nat, n: nat)
    requires DecItems(data, dim, n).Ok?
    ensures forall i :: 0 <= i < n ==> |DecItems(data, dim, n).value.ids[i]| < TWO32
    decreases n
  {
    hide ReadBytes, ReadWords, DecItems;
    if n == 0 {
    } else {
      var id, d2, b := FirstItem(data, dim, n);
      ParsedItemsFit(d2, dim, n - 1);
    }
  }

  /** Reading back a written index gives the index, or the empty one if it could answer nothing,
      exactly when its numbers fit the fields. */
  lemma IndexRoundTrip(x: Items, rest: Bytes)
    requires Uniform(x)
    ensures Silent(x) ==> DecIndex(EncIndex(x) + rest) == Ok(Items(0, [], []))
    ensures !Silent(x) ==> (DecIndex(EncIndex(x) + rest) == Ok(x) <==> FitsItems(x))
  {
    hide PutU32, GetU32, ToU32, DecItems, EncItems, PutBytes, ReadBytes;
    if Silent(x) {
      assert EncIndex(x) + rest == PutU32(0) + (PutU32(0) + rest);
      ReadBack(0, PutU32(0) + rest);
      ReadBack(0, rest);
      NothingParsed(rest);
    } else {
      var d2 := EncItems(x.ids, x.vecs) + rest;
      var d1 := PutU32(ToU32(|x.ids|)) + d2;
      assert EncIndex(x) + rest == PutU32(ToU32(x.dim)) + d1;
      ReadBack(ToU32(x.dim), d1);
      ReadBack(ToU32(|x.ids|), d2);
      if FitsItems(x) {
        SmallKept(x.dim);
        SmallKept(|x.ids|);
        ItemsBack(x.ids, x.vecs, x.dim, rest);
      }
      if DecIndex(EncIndex(x) + rest) == Ok(x) {
        ParsedItemsFit(d2, ToU32(x.dim), ToU32(|x.ids|));
      }
    }
  }

  lemma NothingParsed(data: Bytes)
    ensures DecItems(data, 0, 0) == Ok(Batch([], [], data))
  {
  }

  /** The reloaded index answers every query as the written one did. */
  lemma QueryEquivalent(f: Floats, x: Items, rest: Bytes, q: seq<U32>, k: int, r: Result<seq<Hit>>)
    requires Uniform(x) && (Silent(x) || FitsItems(x))
    ensures DecIndex(EncIndex(x) + rest).Ok?
    ensures Uniform(Reloaded(DecIndex(EncIndex(x) + rest).value))
    ensures Answers(f, Reloaded(DecIndex(EncIndex(x) + rest).value), q, k, r) <==> Answers(f, x, q, k, r)
  {
    IndexRoundTrip(x, rest);
  }

  // ---------------------------------------------------------------- telling the two formats apart

  /** "COV1", and its four bytes read as a little-endian number. */
  const COVER_MAGIC: Bytes := [67, 79, 86, 49]
  const COVER_MAGIC_WORD: U32 := 0x31564F43

  /** isCoverBlob. */
  predicate IsCoverBlob(data: Bytes) {
    |data| >= 4 && data[..4] == COVER_MAGIC
  }

  /** A linear-scan blob is taken for a cover blob only for one dimension (modulo 2^32). */
  lemma BruteBlobIsNotCover(x: Items)
    requires Uniform(x)
    ensures IsCoverBlob(EncIndex(x)) <==> !Silent(x) && ToU32(x.dim) == COVER_MAGIC_WORD
  {
    hide PutU32, EncItems, IsCoverBlob, ToU32;
    if Silent(x) {
      MagicIff(0, PutU32(0));
    } else {
      MagicIff(ToU32(x.dim), PutU32(ToU32(|x.ids|)) + EncItems(x.ids, x.vecs));
    }
  }

  lemma MagicIff(word: U32, rest: Bytes)
    ensures IsCoverBlob(PutU32(word) + rest) <==> word == COVER_MAGIC_WORD
  {
    assert (PutU32(word) + rest)[..4] == PutU32(word);
    U32RoundTrip(word, []);
    assert PutU32(COVER_MAGIC_WORD) == COVER_MAGIC;
    assert PutU32(word) + [] == PutU32(word) && GetU32(COVER_MAGIC) == COVER_MAGIC_WORD;
  }

  // ---------------------------------------------------------------- the loops

  /** A prefix of the items is read: the rest of the work is to read the others from `data`. */
  ghost predicate Reading(all: Result<Batch>, ids: seq<Bytes>, vecs: seq<seq<U32>>, data: Bytes, dim: nat, left: nat) {
    all == match DecItems(data, dim, left)
           case Ok(b) => Ok(Batch(ids + b.ids, vecs + b.vecs, b.rest))
           case Err => Err
  }

  lemma ReadingStarts(data: Bytes, dim: nat, n: nat)
    ensures Reading(DecItems(data, dim, n), [], [], data, dim, n)
  {
    if DecItems(data, dim, n).Ok? {
      var b := DecItems(data, dim, n).value;
      assert [] + b.ids == b.ids && [] + b.vecs == b.vecs;
    }
  }

  lemma ReadingFails(all: Result<Batch>, ids: seq<Bytes>, vecs: seq<seq<U32>>, data: Bytes, dim: nat, left: nat)
    requires Reading(all, ids, vecs, data, dim, left) && left > 0
    requires ReadBytes(data).Err? || ReadWords(ReadBytes(data).value.1, dim).Err?
    ensures all.Err?
  {
  }

  lemma ReadingStep(all: Result<Batch>, ids: seq<Bytes>, vecs: seq<seq<U32>>, data: Bytes, dim: nat, left: nat)
    requires Reading(all, ids, vecs, data, dim, left) && left > 0
    requires ReadBytes(data).Ok? && ReadWords(ReadBytes(data).value.1, dim).Ok?
    ensures var (id, d1) := ReadBytes(data).value;
            var (v, d2) := ReadWords(d1, dim).value;
            Reading(all, ids + [id], vecs + [v], d2, dim, left - 1)
  {
    hide ReadBytes, ReadWords;
    var (id, d1) := ReadBytes(data).value;
    var (v, d2) := ReadWords(d1, dim).value;
    if DecItems(d2, dim, left - 1).Ok? {
      var b := DecItems(d2, dim, left - 1).value;
      assert ids + ([id] + b.ids) == ids + [id] + b.ids;
      assert vecs + ([v] + b.vecs) == vecs + [v] + b.vecs;
    }
  }

  lemma ReadingEnds(all: Result<Batch>, ids: seq<Bytes>, vecs: seq<seq<U32>>, data: Bytes, dim: nat)
    requires Reading(all, ids, vecs, data, dim, 0)
    ensures all == Ok(Batch(ids, vecs, data))
  {
    assert ids + [] == ids && vecs + [] == vecs;
  }

  lemma WordsPrefix(data: Bytes, j: nat, dim: nat)
    requires j < dim && |data| >= 4 * j
    ensures |data| >= 4 * j + 4 ==> GetWords(data, j + 1) == GetWords(data, j) + [GetU32(data[4 * j..])]
    decreases j
  {
    if j > 0 && |data| >= 4 * j + 4 {
      WordsPrefix(data[4..], j - 1, dim - 1);
      assert data[4..][4 * (j - 1)..] == data[4 * j..];
    }
  }

  /** The inner loop: one vector of `dim` words, from the cursor on. */
  method ReadVector(data: Bytes, off: nat, dim: nat) returns (r: Result<(seq<U32>, nat)>)
    requires off <= |data|
    ensures r.Ok? <==> ReadWords(data[off..], dim).Ok?
    ensures r.Ok? ==> r.value.1 == off + 4 * dim <= |data|
    ensures r.Ok? ==> ReadWords(data[off..], dim) == Ok((r.value.0, data[r.value.1..]))
  {
    var vec: seq<U32> := [];
    for j := 0 to dim
      invariant off + 4 * j <= |data| && vec == GetWords(data[off..], j)
    {
      if off + 4 * j + 4 > |data| {
        return Err;
      }
      WordsPrefix(data[off..], j, dim);
      assert data[off..][4 * j..] == data[off + 4 * j..];
      WordAt(data, off + 4 * j);
      vec := vec + [GetU32(data[off + 4 * j..off + 4 * j + 4])];
    }
    assert data[off..][4 * dim..] == data[off + 4 * dim..];
    return Ok((vec, off + 4 * dim));
  }

  lemma WordAt(data: Bytes, off: nat)
    requires off + 4 <= |data|
    ensures GetU32(data[off..off + 4]) == GetU32(data[off..])
  {
  }

  /** One id: its length and its bytes. */
  method ReadId(data: Bytes, off: nat) returns (r: Result<(Bytes, nat)>)
    requires off <= |data|
    ensures r.Ok? <==> ReadBytes(data[off..]).Ok?
    ensures r.Ok? ==> off <= r.value.1 <= |data|
    ensures r.Ok? ==> ReadBytes(data[off..]) == Ok((r.value.0, data[r.value.1..]))
  {
    hide GetU32;
    if off + 4 > |data| {
      return Err;
    }
    WordAt(data, off);
    var idlen := GetU32(data[off..off + 4]);
    assert data[off..][4..] == data[off + 4..];
    if off + 4 + idlen > |data| {
      return Err;
    }
    assert data[off + 4..][..idlen] == data[off + 4..off + 4 + idlen];
    assert data[off + 4..][idlen..] == data[off + 4 + idlen..];
    return Ok((data[off + 4..off + 4 + idlen], off + 4 + idlen));
  }

  /** The parser with its cursor: no byte string makes it read out of bounds. */
  method ParseItems(data: Bytes) returns (r: Result<Items>)
    ensures r == DecIndex(data)
  {
    hide DecItems, ReadBytes, ReadWords, GetU32, Reading;
    if |data| < 8 {
      return Err;
    }
    WordAt(data, 0);
    WordAt(data, 4);
    var off := 0;
    var dim := GetU32(data[off..off + 4]);
    off := off + 4;
    var n := GetU32(data[off..off + 4]);
    off := off + 4;
    assert data[0..] == data && data[4..][4..] == data[8..];
    ghost var all := DecItems(data[8..], dim, n);
    ReadingStarts(data[8..], dim, n);
    var ids: seq<Bytes>, vecs: seq<seq<U32>> := [], [];
    for idx := 0 to n
      invariant 0 <= off <= |data| && |ids| == |vecs| == idx
      invariant Reading(all, ids, vecs, data[off..], dim, n - idx)
    {
      var id := ReadId(data, off);
      if id.Err? {
        ReadingFails(all, ids, vecs, data[off..], dim, n - idx);
        return Err;
      }
      var vec := ReadVector(data, id.value.1, dim);
      if vec.Err? {
        ReadingFails(all, ids, vecs, data[off..], dim, n - idx);
        return Err;
      }
      ReadingStep(all, ids, vecs, data[off..], dim, n - idx);
      ids, vecs, off := ids + [id.value.0], vecs + [vec.value.0], vec.value.1;
    }
    ReadingEnds(all, ids, vecs, data[off..], dim);
    return Ok(Items(dim, ids, vecs));
  }

  lemma {:induction false} EncItemsAppend(ids: seq<Bytes>, vecs: seq<seq<U32>>, id: Bytes, vec: seq<U32>)
    requires |ids| == |vecs|
    ensures EncItems(ids + [id], vecs + [vec]) == EncItems(ids, vecs) + (PutBytes(id) + PutWords(vec))
    decreases |ids|
  {
    hide PutBytes, PutWords;
    if ids != [] {
      EncItemsAppend(ids[1..], vecs[1..], id, vec);
      assert (ids + [id])[1..] == ids[1..] + [id] && (vecs + [vec])[1..] == vecs[1..] + [vec];
    } else {
      assert (ids + [id])[1..] == [] && (vecs + [vec])[1..] == [];
    }
  }

  lemma {:induction false} PutWordsAppend(v: seq<U32>, u: U32)
    ensures PutWords(v + [u]) == PutWords(v) + PutU32(u)
  {
    hide PutU32;
    if v == [] {
      assert [u][1..] == [] && [] + [u] == [u];
    } else {
      PutWordsAppend(v[1..], u);
      assert (v + [u])[1..] == v[1..] + [u];
    }
  }

  /** MarshalBinary. */
  method Marshal(index: Index) returns (out: Bytes)
    requires index.Valid()
    ensures out == EncIndex(index.Contents())
  {
    hide PutU32, ToU32, EncItems, PutWords;
    if index.dim == 0 || |index.vecs| == 0 {
      return PutU32(0) + PutU32(0);
    }
    ghost var x := index.Contents();
    out := PutU32(ToU32(index.dim)) + PutU32(ToU32(|index.ids|));
    ghost var head := out;
    NoItems(x.ids, x.vecs);
    for idx := 0 to |index.ids|
      invariant out == head + EncItems(x.ids[..idx], x.vecs[..idx])
    {
      out := out + PutBytes(index.ids[idx]);
      var vec := index.vecs[idx];
      ghost var before := out;
      NoWords(vec);
      for j := 0 to index.dim
        invariant out == before + PutWords(vec[..j])
      {
        PutWordsAppend(vec[..j], vec[j]);
        assert vec[..j + 1] == vec[..j] + [vec[j]];
        out := out + PutU32(vec[j]);
      }
      assert vec[..index.dim] == vec;
      EncItemsAppend(x.ids[..idx], x.vecs[..idx], x.ids[idx], vec);
      assert x.ids[..idx + 1] == x.ids[..idx] + [x.ids[idx]] && x.vecs[..idx + 1] == x.vecs[..idx] + [vec];
    }
    assert x.ids[..|x.ids|] == x.ids && x.vecs[..|x.ids|] == x.vecs;
  }

  lemma NoItems(ids: seq<Bytes>, vecs: seq<seq<U32>>)
    requires |ids| == |vecs|
    ensures EncItems(ids[..0], vecs[..0]) == []
  {
  }

  lemma NoWords(v: seq<U32>)
    ensures PutWords(v[..0]) == []
  {
  }

  /** UnmarshalBinary: a string that does not parse changes nothing. */
  method Unmarshal(index: Index, data: Bytes) returns (ok: bool)
    requires index.Valid()
    modifies index
    ensures index.Valid()
    ensures ok <==> DecIndex(data).Ok?
    ensures index.Contents() == if ok then Reloaded(DecIndex(data).value) else old(index.Contents())
  {
    var parsed := ParseItems(data);
    if parsed.Err? {
      return false;
    }
    ok := index.Build(parsed.value.ids, parsed.value.vecs);
  }
}
