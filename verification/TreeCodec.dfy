/** The binary form of a cover tree (EncodeBinary, DecodeBinary and their node and string helpers) as
    a printer and a parser over bytes. */
module TreeCodec {
  import opened Wire

  /** What is written of a node.  The index and the cached numbers are not. */
  datatype Coded = Coded(level: int, magnitude: U32, vector: seq<U32>, value: Bytes, children: seq<Coded>)

  /** The fields in front of the children. */
  datatype Head = Head(level: int, magnitude: U32, vector: seq<U32>, value: Bytes, count: U32)

  /** The whole stream. */
  datatype Stored = Stored(base: U32, name: Bytes, root: Option<Coded>)

  // ---------------------------------------------------------------- printer

  function EncHead(level: int, magnitude: U32, vector: seq<U32>, value: Bytes, count: int): Bytes {
    PutU32(ToU32(level)) + (PutU32(magnitude)
    + (PutU32(ToU32(|vector|)) + (PutWords(vector)
    + (PutBytes(value) + PutU32(ToU32(count))))))
  }

  function EncNode(c: Coded): Bytes
    decreases c, 1
  {
    EncHead(c.level, c.magnitude, c.vector, c.value, |c.children|) + EncAll(c.children)
  }

  function EncAll(cs: seq<Coded>): Bytes
    decreases cs, 0
  {
    if cs == [] then [] else EncNode(cs[0]) + EncAll(cs[1..])
  }

  function EncRoot(root: Option<Coded>): Bytes {
    match root
    case None => [0]
    case Some(c) => [1] + EncNode(c)
  }

  function EncTree(t: Stored): Bytes {
    PutU32(t.base) + (PutBytes(t.name) + EncRoot(t.root))
  }

  // ---------------------------------------------------------------- parser

  function DecHead(data: Bytes): (r: Result<(Head, Bytes)>)
    ensures r.Ok? ==> |r.value.1| < |data|
  {
    var (level, d1) :- ReadU32(data);
    var (magnitude, d2) :- ReadU32(d1);
    var (length, d3) :- ReadU32(d2);
    var (vector, d4) :- ReadWords(d3, length);
    var (value, d5) :- ReadBytes(d4);
    var (count, d6) :- ReadU32(d5);
    Ok((Head(ToInt32(level), magnitude, vector, value, count), d6))
  }

  function DecNode(data: Bytes): (r: Result<(Coded, Bytes)>)
    ensures r.Ok? ==> |r.value.1| < |data|
    decreases |data|, 0
  {
    var (head, d1) :- DecHead(data);
    var (children, d2) :- DecAll(d1, head.count);
    Ok((Coded(head.level, head.magnitude, head.vector, head.value, children), d2))
  }

  function DecAll(data: Bytes, n: nat): (r: Result<(seq<Coded>, Bytes)>)
    ensures r.Ok? ==> |r.value.1| <= |data| && |r.value.0| == n
    decreases |data|, n
  {
    if n == 0 then Ok(([], data))
    else
      var (c, d1) :- DecNode(data);
      var (cs, d2) :- DecAll(d1, n - 1);
      Ok(([c] + cs, d2))
  }

  function DecRoot(data: Bytes): Result<(Option<Coded>, Bytes)> {
    if data == [] then Err
    else if data[0] == 0 then Ok((None, data[1..]))
    else
      var (c, d) :- DecNode(data[1..]);
      Ok((Some(c), d))
  }

  function DecTree(data: Bytes): Result<(Stored, Bytes)> {
    var (base, d1) :- ReadU32(data);
    var (name, d2) :- ReadBytes(d1);
    var (root, d3) :- DecRoot(d2);
    Ok((Stored(base, name, root), d3))
  }

  // ---------------------------------------------------------------- what fits the wire

  predicate FitsHead(level: int, vector: seq<U32>, value: Bytes, count: int) {
    IsInt32(level) && |vector| < TWO32 && |value| < TWO32 && 0 <= count < TWO32
  }

  predicate Fits(c: Coded)
    decreases c
  {
    FitsHead(c.level, c.vector, c.value, |c.children|) && forall i :: 0 <= i < |c.children| ==> Fits(c.children[i])
  }

  // ---------------------------------------------------------------- round trip, both ways

  lemma HeadBack(level: int, magnitude: U32, vector: seq<U32>, value: Bytes, count: int, rest: Bytes)
    requires FitsHead(level, vector, value, count)
    ensures DecHead(EncHead(level, magnitude, vector, value, count) + rest) ==
            Ok((Head(level, magnitude, vector, value, count), rest))
  {
    hide PutU32, PutWords, ReadWords, PutBytes, ReadBytes, GetU32, ReadU32, ToU32, ToInt32;
    var b6 := PutU32(ToU32(count)) + rest;
    var b5 := PutBytes(value) + b6;
    var b4 := PutWords(vector) + b5;
    var b3 := PutU32(ToU32(|vector|)) + b4;
    var b2 := PutU32(magnitude) + b3;
    assert EncHead(level, magnitude, vector, value, count) + rest == PutU32(ToU32(level)) + b2;
    ReadBack(ToU32(level), b2);
    ReadBack(magnitude, b3);
    ReadBack(ToU32(|vector|), b4);
    WordsBack(vector, b5);
    BytesBack(value, b6);
    ReadBack(ToU32(count), rest);
    Int32RoundTrip(level);
    SmallKept(|vector|);
    SmallKept(count);
  }

  lemma {:induction false} NodeBack(c: Coded, rest: Bytes)
    requires Fits(c)
    ensures DecNode(EncNode(c) + rest) == Ok((c, rest))
    decreases c, 1
  {
    var head := EncHead(c.level, c.magnitude, c.vector, c.value, |c.children|);
    assert EncNode(c) + rest == head + (EncAll(c.children) + rest);
    HeadBack(c.level, c.magnitude, c.vector, c.value, |c.children|, EncAll(c.children) + rest);
    AllBack(c.children, rest);
  }

  lemma {:induction false} AllBack(cs: seq<Coded>, rest: Bytes)
    requires forall i :: 0 <= i < |cs| ==> Fits(cs[i])
    ensures DecAll(EncAll(cs) + rest, |cs|) == Ok((cs, rest))
    decreases cs, 0
  {
    hide EncAll, EncNode, DecAll, DecNode;
    EncAllStep(cs, rest);
    if cs == [] {
      DecAllDone(rest);
    } else {
      var data := EncAll(cs[1..]) + rest;
      NodeBack(cs[0], data);
      AllBack(cs[1..], rest);
      DecAllStep(EncNode(cs[0]) + data, |cs|, cs[0], data, cs[1..], rest);
      assert [cs[0]] + cs[1..] == cs;
    }
  }

  lemma EncAllStep(cs: seq<Coded>, rest: Bytes)
    ensures EncAll(cs) + rest == if cs == [] then rest else EncNode(cs[0]) + (EncAll(cs[1..]) + rest)
  {
  }

  lemma DecAllDone(data: Bytes)
    ensures DecAll(data, 0) == Ok(([], data))
  {
  }

  lemma DecAllStep(data: Bytes, n: nat, c: Coded, d1: Bytes, cs: seq<Coded>, d2: Bytes)
    requires n > 0 && DecNode(data) == Ok((c, d1)) && DecAll(d1, n - 1) == Ok((cs, d2))
    ensures DecAll(data, n) == Ok(([c] + cs, d2))
  {
  }

  lemma DecAllSplit(data: Bytes, n: nat) returns (c: Coded, d1: Bytes, cs: seq<Coded>, d2: Bytes)
    requires n > 0 && DecAll(data, n).Ok?
    ensures DecNode(data) == Ok((c, d1)) && DecAll(d1, n - 1) == Ok((cs, d2))
    ensures DecAll(data, n) == Ok(([c] + cs, d2)) && |d1| < |data|
  {
    c, d1 := DecNode(data).value.0, DecNode(data).value.1;
    cs, d2 := DecAll(d1, n - 1).value.0, DecAll(d1, n - 1).value.1;
  }

  /** Whatever the parser accepts is an encoding of what it returns: no second spelling of a node. */
  lemma {:induction false} NodeCanonical(data: Bytes)
    requires DecNode(data).Ok?
    ensures var (c, rest) := DecNode(data).value; Fits(c) && data == EncNode(c) + rest
    decreases |data|, 0
  {
    var (head, d1) := DecHead(data).value;
    HeadCanonical(data);
    AllCanonical(d1, head.count);
    var (children, d2) := DecAll(d1, head.count).value;
    var front := EncHead(head.level, head.magnitude, head.vector, head.value, head.count);
    assert front + (EncAll(children) + d2) == front + EncAll(children) + d2;
  }

  lemma {:induction false} AllCanonical(data: Bytes, n: nat)
    requires DecAll(data, n).Ok?
    ensures var (cs, rest) := DecAll(data, n).value;
            (forall i :: 0 <= i < |cs| ==> Fits(cs[i])) && data == EncAll(cs) + rest
    decreases |data|, n
  {
    hide EncAll, EncNode, DecAll, DecNode;
    if n == 0 {
      DecAllDone(data);
      EncAllStep([], data);
    } else {
      var c, d1, cs, d2 := DecAllSplit(data, n);
      NodeCanonical(data);
      AllCanonical(d1, n - 1);
      EncAllStep([c] + cs, d2);
    }
  }

  lemma HeadCanonical(data: Bytes)
    requires DecHead(data).Ok?
    ensures var (h, rest) := DecHead(data).value;
            FitsHead(h.level, h.vector, h.value, h.count)
            && data == EncHead(h.level, h.magnitude, h.vector, h.value, h.count) + rest
  {
    hide PutU32, PutWords, GetWords, GetU32, PutBytes, ToU32, ToInt32;
    var (level, d1) := ReadU32(data).value;
    var (magnitude, d2) := ReadU32(d1).value;
    var (length, d3) := ReadU32(d2).value;
    var (vector, d4) := ReadWords(d3, length).value;
    var (value, d5) := ReadBytes(d4).value;
    var (count, d6) := ReadU32(d5).value;
    U32Canonical(data);
    U32Canonical(d1);
    U32Canonical(d2);
    WordsCanonical(d3, length);
    BytesCanonical(d4);
    U32Canonical(d5);
    Int32Canonical(level);
    SmallKept(length);
    SmallKept(count);
    var b6 := PutU32(ToU32(count)) + d6;
    var b5 := PutBytes(value) + b6;
    var b4 := PutWords(vector) + b5;
    var b3 := PutU32(ToU32(|vector|)) + b4;
    var b2 := PutU32(magnitude) + b3;
    assert data == PutU32(ToU32(ToInt32(level))) + b2;
    assert EncHead(ToInt32(level), magnitude, vector, value, count) + d6 == PutU32(ToU32(ToInt32(level))) + b2;
  }

  /** A node survives the wire exactly when its numbers fit the fields: Go's conversions truncate
      everything else. */
  lemma NodeRoundTrip(c: Coded, rest: Bytes)
    ensures DecNode(EncNode(c) + rest) == Ok((c, rest)) <==> Fits(c)
  {
    if Fits(c) {
      NodeBack(c, rest);
    }
    if DecNode(EncNode(c) + rest) == Ok((c, rest)) {
      NodeCanonical(EncNode(c) + rest);
    }
  }

  predicate FitsTree(t: Stored) {
    |t.name| < TWO32 && (t.root.Some? ==> Fits(t.root.value))
  }

  lemma RootRoundTrip(root: Option<Coded>, rest: Bytes)
    ensures DecRoot(EncRoot(root) + rest) == Ok((root, rest)) <==> (root.Some? ==> Fits(root.value))
  {
    hide EncNode, DecNode, Fits;
    if root.Some? {
      assert (EncRoot(root) + rest)[1..] == EncNode(root.value) + rest;
      NodeRoundTrip(root.value, rest);
    } else {
      assert (EncRoot(root) + rest)[1..] == rest;
    }
  }

  /** The whole stream survives, and leaves what follows it unread, exactly when its numbers fit. */
  lemma TreeRoundTrip(t: Stored, rest: Bytes)
    ensures DecTree(EncTree(t) + rest) == Ok((t, rest)) <==> FitsTree(t)
  {
    hide EncRoot, DecRoot, PutU32, GetU32, ToU32, Fits;
    var b2 := EncRoot(t.root) + rest;
    var b1 := PutBytes(t.name) + b2;
    assert EncTree(t) + rest == PutU32(t.base) + b1;
    ReadBack(t.base, b1);
    if |t.name| < TWO32 {
      BytesBack(t.name, b2);
      RootRoundTrip(t.root, rest);
      assert DecTree(EncTree(t) + rest).Ok? ==> DecRoot(b2) == Ok((DecRoot(b2).value.0, DecRoot(b2).value.1));
    } else if ReadBytes(b1).Ok? {
      BytesCanonical(b1);
    }
  }

  /** Whatever the parser accepts fits the wire. */
  lemma TreeFits(data: Bytes)
    requires DecTree(data).Ok?
    ensures FitsTree(DecTree(data).value.0)
  {
    var d1 := ReadU32(data).value.1;
    BytesCanonical(d1);
    var d2 := ReadBytes(d1).value.1;
    if d2[0] != 0 {
      NodeCanonical(d2[1..]);
    }
  }
}
