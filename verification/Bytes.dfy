/** Byte strings, the 8-byte little-endian integers and length-prefixed slices of
    marshalutil, and what a decoder returns. Every writer here has its reader. */
module Bytes {

  type Byte = b: int | 0 <= b < 256
  type Bytes = seq<Byte>

  const U64_BOUND: nat := 0x1_0000_0000_0000_0000
  type U64 = n: int | 0 <= n < U64_BOUND

  /** A byte slice as a Go program holds it: its length fits uint64. */
  type Slice = s: Bytes | |s| < U64_BOUND

  const HASH_LEN: nat := 32
  type Digest = s: Bytes | |s| == HASH_LEN witness seq(HASH_LEN, _ => 0)

  const ZERO: Digest := [0, 0, 0, 0, 0, 0, 0, 0, 0, 0, 0, 0, 0, 0, 0, 0,
                         0, 0, 0, 0, 0, 0, 0, 0, 0, 0, 0, 0, 0, 0, 0, 0]

  /** SHA-256 is left uninterpreted: results hold for every function into 32-byte strings. */
  type HashFn = Bytes -> Digest

  datatype Option<+T> = None | Some(value: T)

  /** Result of a decoder: the error flag, or the value and the unread bytes. */
  datatype Dec<+T> = Bad | Ok(val: T, rest: Bytes)

  function Pow256(k: nat): nat {
    if k == 0 then 1 else 256 * Pow256(k - 1)
  }

  function LittleEndian(n: nat, width: nat): (s: Bytes)
    ensures |s| == width
  {
    if width == 0 then [] else [n % 256] + LittleEndian(n / 256, width - 1)
  }

  function FromLittleEndian(s: Bytes): nat {
    if s == [] then 0 else s[0] + 256 * FromLittleEndian(s[1..])
  }

  lemma {:induction false} LittleEndianRead(n: nat, width: nat)
    requires n < Pow256(width)
    ensures FromLittleEndian(LittleEndian(n, width)) == n
  {
    if width > 0 {
      LittleEndianRead(n / 256, width - 1);
      assert LittleEndian(n, width)[1..] == LittleEndian(n / 256, width - 1);
    }
  }

  lemma {:induction false} LittleEndianWrite(s: Bytes)
    ensures FromLittleEndian(s) < Pow256(|s|)
    ensures LittleEndian(FromLittleEndian(s), |s|) == s
  {
    if s != [] {
      LittleEndianWrite(s[1..]);
      var n := FromLittleEndian(s);
      assert n % 256 == s[0] && n / 256 == FromLittleEndian(s[1..]);
    }
  }

  /** Byte i is worth 256^i: the least significant byte comes first. */
  lemma {:induction false} LittleEndianAt(n: nat, width: nat, i: nat)
    requires i < width
    ensures Pow256(i) > 0 && LittleEndian(n, width)[i] == n / Pow256(i) % 256
  {
    if i > 0 {
      LittleEndianAt(n / 256, width - 1, i - 1);
      assert LittleEndian(n, width)[i] == LittleEndian(n / 256, width - 1)[i - 1];
      DivDiv(n, 256, Pow256(i - 1));
    }
  }

  lemma DivDiv(n: nat, d: nat, m: nat)
    requires d > 0 && m > 0
    ensures d * m > 0 && n / d / m == n / (d * m)
  {
    var k := n / d;
    var q, r := k / m, k % m;
    DivRest(n, d, k, n % d, m, q, r);
    DivUnique(n, d * m, q, d * r + n % d);
  }

  lemma DivRest(n: nat, d: nat, k: nat, s: nat, m: nat, q: nat, r: nat)
    requires s < d && r < m && n == d * k + s && k == q * m + r
    ensures d * m > 0 && n == q * (d * m) + (d * r + s) && d * r + s < d * m
  {
    assert d * k == q * (d * m) + d * r by {
      Expand(d, q, m, r);
    }
    MulLess(d, r + 1, m);
  }

  lemma Expand(d: nat, q: nat, m: nat, r: nat)
    ensures d * (q * m + r) == q * (d * m) + d * r
  {
  }

  lemma MulLess(d: nat, a: nat, b: nat)
    requires 0 < a <= b
    ensures d * a <= d * b
  {
  }

  lemma DivUnique(n: nat, d: nat, q: nat, r: nat)
    requires d > 0 && r < d && n == q * d + r
    ensures n / d == q
  {
    var k := n / d - q;
    assert k * d == r - n % d;
  }

  lemma Pow256Of8()
    ensures Pow256(8) == U64_BOUND
  {
    assert Pow256(2) == 65536;
    assert Pow256(4) == 65536 * 65536;
    assert Pow256(6) == 65536 * 65536 * 65536;
  }

  // ---- integers

  function IntBytes(n: U64): (s: Bytes)
    ensures |s| == 8
  {
    LittleEndian(n, 8)
  }

  function WriteInt(b: Bytes, n: U64): Bytes {
    b + IntBytes(n)
  }

  function ReadInt(b: Bytes): Dec<U64> {
    if |b| < 8 then Bad
    else
      LittleEndianWrite(b[..8]); Pow256Of8();
      Ok(FromLittleEndian(b[..8]), b[8..])
  }

  lemma IntRead(n: U64, tail: Bytes)
    ensures ReadInt(IntBytes(n) + tail) == Ok(n, tail)
  {
    Pow256Of8();
    LittleEndianRead(n, 8);
    assert (IntBytes(n) + tail)[..8] == IntBytes(n);
    assert (IntBytes(n) + tail)[8..] == tail;
  }

  lemma IntExact(b: Bytes)
    ensures ReadInt(b).Ok? <==> |b| >= 8
    ensures ReadInt(b).Ok? ==> b == IntBytes(ReadInt(b).val) + ReadInt(b).rest
  {
    if |b| >= 8 {
      LittleEndianWrite(b[..8]);
      assert b == b[..8] + b[8..];
    }
  }

  // ---- bools and bytes

  function WriteBool(b: Bytes, x: bool): Bytes {
    b + [if x then 1 else 0]
  }

  function ReadBool(b: Bytes): Dec<bool> {
    if |b| < 1 then Bad else Ok(b[0] != 0, b[1..])
  }

  /** False is the byte 0, true the byte 1; any byte but 0 reads as true, and only an empty buffer is an
      error. */
  lemma BoolBytes(x: bool, b: Bytes, tail: Bytes)
    ensures WriteBool(b, x) == b + if x then [1] else [0]
    ensures ReadBool(WriteBool([], x) + tail) == Ok(x, tail)
    ensures ReadBool(b).Bad? <==> b == []
    ensures b != [] ==> (ReadBool(b).val <==> b[0] != 0) && b == [b[0]] + ReadBool(b).rest
  {
  }

  function WriteByte(b: Bytes, x: Byte): Bytes {
    b + [x]
  }

  function ReadByte(b: Bytes): Dec<Byte> {
    if |b| < 1 then Bad else Ok(b[0], b[1..])
  }

  // ---- length-prefixed slices

  function SliceBytes(s: Slice): (r: Bytes)
    ensures |r| == 8 + |s|
  {
    IntBytes(|s|) + s
  }

  function WriteSlice1D(b: Bytes, s: Slice): Bytes {
    b + SliceBytes(s)
  }

  function ReadBytes(b: Bytes, n: U64): Dec<Slice> {
    if |b| < n then Bad else Ok(b[..n], b[n..])
  }

  function ReadSlice1D(b: Bytes): Dec<Slice> {
    match ReadInt(b)
    case Bad => Bad
    case Ok(n, rest) => ReadBytes(rest, n)
  }

  lemma SliceRead(s: Slice, tail: Bytes)
    ensures ReadSlice1D(SliceBytes(s) + tail) == Ok(s, tail)
  {
    IntRead(|s|, s + tail);
    assert SliceBytes(s) + tail == IntBytes(|s|) + (s + tail);
    assert (s + tail)[..|s|] == s && (s + tail)[|s|..] == tail;
  }

  lemma SliceExact(b: Bytes)
    ensures ReadSlice1D(b).Ok? ==> b == SliceBytes(ReadSlice1D(b).val) + ReadSlice1D(b).rest
  {
    IntExact(b);
  }

  /** A slice is recovered from any buffer that starts with its encoding. */
  lemma SlicePrefix(s: Slice, s': Slice, x: Bytes, x': Bytes)
    requires SliceBytes(s) + x == SliceBytes(s') + x'
    ensures s == s' && x == x'
  {
    SliceRead(s, x);
    SliceRead(s', x');
  }

  lemma IntPrefix(n: U64, n': U64, x: Bytes, x': Bytes)
    requires IntBytes(n) + x == IntBytes(n') + x'
    ensures n == n' && x == x'
  {
    IntRead(n, x);
    IntRead(n', x');
  }
}
