/** Machine words and their little-endian form (encoding/binary), shared by both index codecs.
    A float32 is kept as its 32-bit pattern. */
module Wire {

  datatype Option<+T> = None | Some(value: T)

  datatype Result<+T> = Ok(value: T) | Err {
    predicate IsFailure() { Err? }
    function PropagateFailure<U>(): Result<U>
      requires Err?
    {
      Err
    }
    function Extract(): T
      requires Ok?
    {
      value
    }
  }

  const TWO32: int := 0x1_0000_0000
  const TWO31: int := 0x8000_0000

  type Byte = b: int | 0 <= b < 256
  type U32 = u: int | 0 <= u < 0x1_0000_0000
  type Bytes = seq<Byte>

  /** Conversion of an int to uint32: Go drops the high bits. */
  function ToU32(n: int): U32 {
    n % TWO32
  }

  /** Conversion of a uint32 bit pattern to int32. */
  function ToInt32(u: U32): int {
    if u < TWO31 then u else u - TWO32
  }

  predicate IsInt32(n: int) {
    -TWO31 <= n < TWO31
  }

  function PutU32(u: U32): (b: Bytes)
    ensures |b| == 4
  {
    [u % 256, u / 256 % 256, u / 65536 % 256, u / 16777216]
  }

  function GetU32(b: Bytes): U32
    requires |b| >= 4
  {
    b[0] as int + 256 * (b[1] as int) + 65536 * (b[2] as int) + 16777216 * (b[3] as int)
  }

  lemma Digits(u: int)
    requires u >= 0
    ensures u == u % 256 + 256 * (u / 256 % 256) + 65536 * (u / 65536 % 256) + 16777216 * (u / 16777216)
  {
    var p := u / 256;
    var q := p / 256;
    assert u / 65536 == q && u / 16777216 == q / 256;
    assert u == u % 256 + 256 * p && p == p % 256 + 256 * q && q == q % 256 + 256 * (q / 256);
  }

  lemma U32RoundTrip(u: U32, rest: Bytes)
    ensures GetU32(PutU32(u) + rest) == u
    ensures (PutU32(u) + rest)[4..] == rest
  {
    Digits(u);
    var b := PutU32(u) + rest;
    assert b[0] == u % 256 && b[1] == u / 256 % 256 && b[2] == u / 65536 % 256 && b[3] == u / 16777216;
  }

  lemma PutGetU32(b: Bytes)
    requires |b| >= 4
    ensures PutU32(GetU32(b)) == b[..4]
  {
    var u, b1, b2, b3: int := GetU32(b), b[1], b[2], b[3];
    assert u / 256 == b1 + 256 * (b2 + 256 * b3);
    assert u / 65536 == b2 + 256 * b3;
  }

  lemma Int32RoundTrip(n: int)
    requires IsInt32(n)
    ensures ToInt32(ToU32(n)) == n
  {
  }

  /** Low byte first; 1.0, 2.0 and 1.3 as binary32 patterns. */
  lemma SampleWords()
    ensures PutU32(0) == [0, 0, 0, 0] && PutU32(1) == [1, 0, 0, 0] && PutU32(2) == [2, 0, 0, 0]
    ensures PutU32(6) == [6, 0, 0, 0] && ToU32(0) == 0 && ToU32(1) == 1 && ToU32(2) == 2 && ToU32(6) == 6
    ensures PutU32(ToU32(-1)) == [0xFF, 0xFF, 0xFF, 0xFF]
    ensures PutU32(0x3F80_0000) == [0x00, 0x00, 0x80, 0x3F] && PutU32(0x4000_0000) == [0x00, 0x00, 0x00, 0x40]
    ensures PutU32(0x3FA6_6666) == [0x66, 0x66, 0xA6, 0x3F]
  {
  }

  function PutWords(v: seq<U32>): (b: Bytes)
    ensures |b| == 4 * |v|
  {
    if v == [] then [] else PutU32(v[0]) + PutWords(v[1..])
  }

  function GetWords(b: Bytes, n: nat): (v: seq<U32>)
    requires |b| >= 4 * n
    ensures |v| == n
    decreases n
  {
    if n == 0 then [] else [GetU32(b)] + GetWords(b[4..], n - 1)
  }

  lemma {:induction false} WordsRoundTrip(v: seq<U32>, rest: Bytes)
    ensures GetWords(PutWords(v) + rest, |v|) == v
    ensures (PutWords(v) + rest)[4 * |v|..] == rest
  {
    if v == [] {
    } else {
      var tail := PutWords(v[1..]) + rest;
      assert PutWords(v) + rest == PutU32(v[0]) + tail;
      U32RoundTrip(v[0], tail);
      WordsRoundTrip(v[1..], rest);
    }
  }

  /** The bytes of a string of ASCII characters. */
  function Ascii(s: string): (b: Bytes)
    requires forall i :: 0 <= i < |s| ==> s[i] < 128 as char
    ensures |b| == |s| && forall i :: 0 <= i < |s| ==> b[i] == s[i] as int
  {
    seq(|s|, i requires 0 <= i < |s| => s[i] as int)
  }

  /** A string with its length, which Go converts to uint32. */
  function PutBytes(b: Bytes): Bytes {
    PutU32(ToU32(|b|)) + b
  }

  function ReadU32(data: Bytes): Result<(U32, Bytes)> {
    if |data| < 4 then Err else Ok((GetU32(data), data[4..]))
  }

  function ReadWords(data: Bytes, n: nat): Result<(seq<U32>, Bytes)> {
    if |data| < 4 * n then Err else Ok((GetWords(data, n), data[4 * n..]))
  }

  function ReadBytes(data: Bytes): Result<(Bytes, Bytes)> {
    var (n, d) :- ReadU32(data);
    if |d| < n then Err else Ok((d[..n], d[n..]))
  }

  lemma ReadBack(u: U32, rest: Bytes)
    ensures ReadU32(PutU32(u) + rest) == Ok((u, rest))
  {
    U32RoundTrip(u, rest);
  }

  lemma WordsBack(v: seq<U32>, rest: Bytes)
    ensures ReadWords(PutWords(v) + rest, |v|) == Ok((v, rest))
  {
    WordsRoundTrip(v, rest);
  }

  lemma BytesBack(b: Bytes, rest: Bytes)
    requires |b| < TWO32
    ensures ReadBytes(PutBytes(b) + rest) == Ok((b, rest))
  {
    assert PutBytes(b) + rest == PutU32(ToU32(|b|)) + (b + rest);
    ReadBack(ToU32(|b|), b + rest);
  }

  lemma SmallKept(n: int)
    requires 0 <= n < TWO32
    ensures ToU32(n) == n
  {
  }

  lemma U32Canonical(data: Bytes)
    requires ReadU32(data).Ok?
    ensures var (u, rest) := ReadU32(data).value; data == PutU32(u) + rest
  {
    PutGetU32(data);
  }

  lemma {:induction false} WordsCanonical(data: Bytes, n: nat)
    requires |data| >= 4 * n
    ensures data == PutWords(GetWords(data, n)) + data[4 * n..]
    decreases n
  {
    if n == 0 {
    } else {
      PutGetU32(data);
      WordsCanonical(data[4..], n - 1);
      assert data[4..][4 * (n - 1)..] == data[4 * n..];
      assert data == data[..4] + data[4..];
      assert GetWords(data, n)[1..] == GetWords(data[4..], n - 1);
    }
  }

  lemma BytesCanonical(data: Bytes)
    requires ReadBytes(data).Ok?
    ensures var (b, rest) := ReadBytes(data).value; |b| < TWO32 && data == PutBytes(b) + rest
  {
    hide PutU32, GetU32;
    var (n, d) := ReadU32(data).value;
    U32Canonical(data);
    assert d == d[..n] + d[n..];
    assert PutU32(n) + (d[..n] + d[n..]) == PutU32(n) + d[..n] + d[n..];
  }

  lemma Int32Canonical(u: U32)
    ensures ToU32(ToInt32(u)) == u && IsInt32(ToInt32(u))
  {
  }
}
