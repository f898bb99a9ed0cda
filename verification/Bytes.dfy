/** Byte strings, and numbers written as bytes. */
module Bytes {
  import opened Division

  type Byte = bv8

  function Zeros(n: nat): (r: seq<Byte>)
    ensures |r| == n
  {
    seq(n, _ => 0)
  }

  /** A hexadecimal digit as bits. */
  function Nibble(d: nat): (b: Byte)
    requires d < 16
    ensures b < 16
  {
    match d
    case 0 => 0x0 case 1 => 0x1 case 2 => 0x2 case 3 => 0x3 case 4 => 0x4 case 5 => 0x5 case 6 => 0x6 case 7 => 0x7
    case 8 => 0x8 case 9 => 0x9 case 10 => 0xA case 11 => 0xB case 12 => 0xC case 13 => 0xD case 14 => 0xE
    case _ => 0xF
  }

  /** The low byte of a number: its two last hexadecimal digits. */
  function ByteOf(x: nat): Byte {
    (Nibble(x / 16 % 16) << 4) | Nibble(x % 16)
  }

  /** The `n` low bytes of a number, the highest first. */
  function EncBe(x: nat, n: nat): (r: seq<Byte>)
    ensures |r| == n
  {
    if n == 0 then [] else EncBe(x / 0x100, n - 1) + [ByteOf(x)]
  }

  /** The `n` low bytes of a number, the lowest first. */
  function EncLe(x: nat, n: nat): (r: seq<Byte>)
    ensures |r| == n
  {
    if n == 0 then [] else [ByteOf(x)] + EncLe(x / 0x100, n - 1)
  }

  function Pow256(n: nat): (p: nat)
    ensures p > 0
  {
    if n == 0 then 1 else 0x100 * Pow256(n - 1)
  }

  lemma MulShift(hi: nat, p: nat)
    ensures hi * (0x100 * p) == 0x100 * (hi * p)
  {
  }

  lemma Low(k: nat, lo: nat)
    ensures (0x100 * k + lo) / 0x100 == k + lo / 0x100
    ensures ByteOf(0x100 * k + lo) == ByteOf(lo)
  {
    hide Nibble;
    assert 0x100 * k + lo == 16 * (16 * k) + lo;
    assert (0x100 * k + lo) / 16 == 16 * k + lo / 16 && (0x100 * k + lo) % 16 == lo % 16;
    assert (16 * k + lo / 16) % 16 == lo / 16 % 16;
  }

  /** A long big-endian number is its high part and its low part. */
  lemma {:induction false} EncBeSplit(hi: nat, lo: nat, a: nat, b: nat)
    requires lo < Pow256(b)
    ensures EncBe(hi * Pow256(b) + lo, a + b) == EncBe(hi, a) + EncBe(lo, b)
  {
    hide ByteOf;
    if b > 0 {
      var k := hi * Pow256(b - 1);
      MulShift(hi, Pow256(b - 1));
      Low(k, lo);
      EncBeSplit(hi, lo / 0x100, a, b - 1);
    } else {
      assert EncBe(lo, 0) == [] && EncBe(hi, a) + [] == EncBe(hi, a);
    }
  }

  /** Only the low bytes count. */
  lemma LowBytes(x: nat, q: nat, r: nat, n: nat)
    requires r < Pow256(n) && x == q * Pow256(n) + r
    ensures EncBe(r, n) == EncBe(x, n)
  {
    hide ByteOf, Pow256;
    EncBeSplit(q, r, 0, n);
    assert EncBe(q, 0) + EncBe(r, n) == EncBe(r, n);
  }

  /** The same for little-endian numbers. */
  lemma {:induction false} EncLeSplit(hi: nat, lo: nat, a: nat, b: nat)
    requires lo < Pow256(b)
    ensures EncLe(hi * Pow256(b) + lo, a + b) == EncLe(lo, b) + EncLe(hi, a)
  {
    hide ByteOf;
    if b > 0 {
      var k := hi * Pow256(b - 1);
      MulShift(hi, Pow256(b - 1));
      Low(k, lo);
      EncLeSplit(hi, lo / 0x100, a, b - 1);
    }
  }

  /** The last message byte: its `n` high bits, then a one. */
  function LastByte(ub: Byte, n: nat): Byte
    requires n < 8
  {
    match n
    case 0 => 0x80
    case 1 => (ub & 0x80) | 0x40
    case 2 => (ub & 0xC0) | 0x20
    case 3 => (ub & 0xE0) | 0x10
    case 4 => (ub & 0xF0) | 0x08
    case 5 => (ub & 0xF8) | 0x04
    case 6 => (ub & 0xFC) | 0x02
    case _ => (ub & 0xFE) | 0x01
  }

  /** `((ub & -z) | z) & 0xFF` with `z = 0x80 >> n`. */
  lemma LastByteIs(ub: Byte, n: nat)
    requires n < 8
    ensures (var z: Byte := 0x80 >> n; (ub & (0 - z)) | z) == LastByte(ub, n)
  {
    match n case 0 => case 1 => case 2 => case 3 => case 4 => case 5 => case 6 => case _ =>
  }

  /** `memset(u + from, 0, to - from)`. */
  method Clear(u: array<Byte>, from: nat, to: nat)
    requires from <= to <= u.Length
    modifies u
    ensures u[..] == old(u[..from]) + Zeros(to - from) + old(u[to..])
  {
    forall i | from <= i < to { u[i] := 0; }
  }

  lemma LowBytesLe(x: nat, q: nat, r: nat, n: nat)
    requires r < Pow256(n) && x == q * Pow256(n) + r
    ensures EncLe(r, n) == EncLe(x, n)
  {
    hide ByteOf, Pow256;
    EncLeSplit(q, r, 0, n);
    assert EncLe(r, n) + EncLe(q, 0) == EncLe(r, n);
  }

  /** What a 64-bit counter counts up to. */
  const COUNT_LIMIT: nat := 0x1_0000_0000_0000_0000

  lemma FourBytes()
    ensures Pow256(4) == 0x1_0000_0000
  {
    assert Pow256(2) == 0x1_0000;
  }

  lemma EightBytes()
    ensures Pow256(8) == COUNT_LIMIT
  {
    assert Pow256(4) == 0x1_0000_0000 by { assert Pow256(2) == 0x1_0000; }
    assert Pow256(6) == 0x1_0000_0000_0000;
  }

  // ---- what the bytes of a number stand for ----

  /** The number that bytes stand for, the highest first. */
  function NumberBe(bs: seq<Byte>): (x: nat) {
    if bs == [] then 0 else 256 * NumberBe(bs[..|bs| - 1]) + bs[|bs| - 1] as int
  }

  /** The number that bytes stand for, the lowest first. */
  function NumberLe(bs: seq<Byte>): (x: nat) {
    if bs == [] then 0 else bs[0] as int + 256 * NumberLe(bs[1..])
  }

  lemma NibbleValue(d: nat)
    requires d < 16
    ensures Nibble(d) as int == d
  {
  }

  lemma JoinedNibbles(a: Byte, b: Byte)
    requires a < 16 && b < 16
    ensures ((a << 4) | b) as int == 16 * (a as int) + b as int
  {
  }

  /** A byte is worth what it was made of. */
  lemma ByteValue(x: nat)
    ensures ByteOf(x) as int == x % 256
  {
    hide Nibble;
    NibbleValue(x / 16 % 16);
    NibbleValue(x % 16);
    JoinedNibbles(Nibble(x / 16 % 16), Nibble(x % 16));
    TwoNibbles(x);
  }

  /** Written bytes are read back as the number, as far as they can hold it. */
  lemma {:induction false} EncBeReads(x: nat, n: nat)
    ensures NumberBe(EncBe(x, n)) == x % Pow256(n)
  {
    hide ByteOf;
    if n > 0 {
      EncBeReads(x / 256, n - 1);
      ByteValue(x);
      LowNumber(x, Pow256(n - 1));
      assert EncBe(x, n)[..n - 1] == EncBe(x / 256, n - 1);
    }
  }

  /** The same from the other end. */
  lemma {:induction false} EncLeReads(x: nat, n: nat)
    ensures NumberLe(EncLe(x, n)) == x % Pow256(n)
  {
    hide ByteOf;
    if n > 0 {
      EncLeReads(x / 256, n - 1);
      ByteValue(x);
      LowNumber(x, Pow256(n - 1));
      assert EncLe(x, n)[1..] == EncLe(x / 256, n - 1);
    }
  }

  lemma Widened(b: Byte)
    ensures b as bv32 < 0x100
  {
  }

  lemma NibblesDiffer(c: nat, d: nat)
    requires c < 16 && d < 16 && Nibble(c) == Nibble(d)
    ensures c == d
  {
  }

  lemma HalvesDiffer(a: Byte, b: Byte, c: Byte, d: Byte)
    requires a < 16 && b < 16 && c < 16 && d < 16 && (a << 4) | b == (c << 4) | d
    ensures a == c && b == d
  {
  }

  lemma TwoNibbles(x: nat)
    ensures x % 0x100 == 16 * (x / 16 % 16) + x % 16
  {
  }

  lemma BytesDiffer(x: nat, y: nat)
    ensures ByteOf(x) == ByteOf(y) <==> x % 0x100 == y % 0x100
  {
    TwoNibbles(x);
    TwoNibbles(y);
    hide Nibble;
    if ByteOf(x) == ByteOf(y) {
      HalvesDiffer(Nibble(x / 16 % 16), Nibble(x % 16), Nibble(y / 16 % 16), Nibble(y % 16));
      NibblesDiffer(x / 16 % 16, y / 16 % 16);
      NibblesDiffer(x % 16, y % 16);
    }
  }

  /** A number modulo a power is its last byte and the rest of its bytes. */
  lemma LowNumber(x: nat, p: nat)
    requires p > 0
    ensures x % (0x100 * p) == 0x100 * (x / 0x100 % p) + x % 0x100
  {
    var q := x / 0x100;
    Recomposed(q, p);
    MulShift(q / p, p);
    Divided(0x100 * p, x, q / p, 0x100 * (q % p) + x % 0x100);
  }

  /** The bytes determine the number below their limit. */
  lemma {:induction false} EncBeInjective(x: nat, y: nat, n: nat)
    ensures EncBe(x, n) == EncBe(y, n) <==> x % Pow256(n) == y % Pow256(n)
  {
    hide ByteOf;
    if n > 0 {
      EncBeInjective(x / 0x100, y / 0x100, n - 1);
      LowNumber(x, Pow256(n - 1));
      LowNumber(y, Pow256(n - 1));
      EncBeLast(x, y, n);
    }
  }

  lemma EncBeLast(x: nat, y: nat, n: nat)
    requires n > 0
    ensures EncBe(x, n) == EncBe(y, n) <==>
            EncBe(x / 0x100, n - 1) == EncBe(y / 0x100, n - 1) && x % 0x100 == y % 0x100
  {
    hide ByteOf;
    var a, b := EncBe(x / 0x100, n - 1), EncBe(y / 0x100, n - 1);
    assert (a + [ByteOf(x)])[..n - 1] == a && (b + [ByteOf(y)])[..n - 1] == b;
    assert (a + [ByteOf(x)])[n - 1] == ByteOf(x) && (b + [ByteOf(y)])[n - 1] == ByteOf(y);
    BytesDiffer(x, y);
  }

  /** `memcpy(u + at, bytes, |bytes|)`. */
  method Put(u: array<Byte>, at: nat, bytes: seq<Byte>)
    requires at + |bytes| <= u.Length
    modifies u
    ensures u[..] == old(u[..at]) + bytes + old(u[at + |bytes|..])
  {
    forall i | 0 <= i < |bytes| { u[at + i] := bytes[i]; }
    assert u[at..at + |bytes|] == bytes;
  }

  /** `sph_enc32be_aligned` and `sph_enc64be_aligned`, for `n` bytes. */
  method Store(u: array<Byte>, at: nat, x: nat, n: nat)
    requires at + n <= u.Length
    modifies u
    ensures u[..] == old(u[..at]) + EncBe(x, n) + old(u[at + n..])
  {
    hide EncBe;
    Put(u, at, EncBe(x, n));
  }

  /** The last message byte, and zeros behind it. */
  method MarkAndClear(u: array<Byte>, to: nat, ub: Byte, n: nat)
    requires 0 < to <= u.Length && n < 8
    modifies u
    ensures u[..to] == [LastByte(ub, n)] + Zeros(to - 1)
  {
    hide LastByte;
    var z: Byte := 0x80 >> n;
    u[0] := (ub & (0 - z)) | z;
    LastByteIs(ub, n);
    Clear(u, 1, to);
  }
}
