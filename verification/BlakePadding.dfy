/** The padding of BLAKE as section 2.2.3 of its SHA-3 submission words it: bit by bit. */
module BlakePadding {
  import opened Bytes
  import opened Blake

  /** Bit `i` of a byte, counted from the highest. */
  predicate Bit(b: Byte, i: nat)
    requires i < 8
  {
    match i
    case 0 => b & 0x80 != 0
    case 1 => b & 0x40 != 0
    case 2 => b & 0x20 != 0
    case 3 => b & 0x10 != 0
    case 4 => b & 0x08 != 0
    case 5 => b & 0x04 != 0
    case 6 => b & 0x02 != 0
    case _ => b & 0x01 != 0
  }

  function BitsOf(b: Byte): (r: seq<bool>)
    ensures |r| == 8
  {
    seq(8, i requires 0 <= i < 8 => Bit(b, i))
  }

  function Flat(bs: seq<Byte>): (r: seq<bool>)
    ensures |r| == 8 * |bs|
  {
    if bs == [] then [] else Flat(bs[..|bs| - 1]) + BitsOf(bs[|bs| - 1])
  }

  function Off(n: nat): (r: seq<bool>)
    ensures |r| == n
  {
    seq(n, _ => false)
  }

  lemma {:induction false} FlatJoin(a: seq<Byte>, b: seq<Byte>)
    ensures Flat(a + b) == Flat(a) + Flat(b)
  {
    hide BitsOf;
    if b == [] {
      assert a + b == a;
    } else {
      FlatJoin(a, b[..|b| - 1]);
      assert (a + b)[..|a + b| - 1] == a + b[..|b| - 1];
    }
  }

  lemma FlatOne(b: Byte)
    ensures Flat([b]) == BitsOf(b)
  {
    hide BitsOf;
    assert Flat([b][..0]) == [];
  }

  lemma {:induction false} FlatZeros(n: nat)
    ensures Flat(Zeros(n)) == Off(8 * n)
  {
    if n > 0 {
      FlatZeros(n - 1);
      assert Zeros(n)[..n - 1] == Zeros(n - 1);
      assert BitsOf(0) == Off(8);
    }
  }

  lemma LastBit(ub: Byte, n: nat, i: nat)
    requires n < 8 && i < 8
    ensures Bit(LastByte(ub, n), i) == if i < n then Bit(ub, i) else i == n
  {
    match n case 0 => case 1 => case 2 => case 3 => case 4 => case 5 => case 6 => case _ =>
  }

  lemma MarkedBit(b: Byte, i: nat)
    requires i < 8
    ensures Bit(b | 1, i) == (i == 7 || Bit(b, i))
  {
  }

  /** The last message byte: the message's bits, then a one, then zeros, the last of which may be the marker. */
  lemma LastBits(ub: Byte, n: nat)
    requires n < 8
    ensures BitsOf(LastByte(ub, n)) == BitsOf(ub)[..n] + [true] + Off(7 - n)
    ensures n < 7 ==> BitsOf(LastByte(ub, n) | 1) == BitsOf(ub)[..n] + [true] + Off(6 - n) + [true]
  {
    hide Bit, LastByte;
    forall i | 0 <= i < 8 ensures BitsOf(LastByte(ub, n))[i] == if i < n then BitsOf(ub)[i] else i == n {
      LastBit(ub, n, i);
    }
    forall i | 0 <= i < 8
      ensures BitsOf(LastByte(ub, n) | 1)[i] == (i == 7 || if i < n then BitsOf(ub)[i] else i == n)
    {
      LastBit(ub, n, i);
      MarkedBit(LastByte(ub, n), i);
    }
    if n < 7 {
      var want := BitsOf(ub)[..n] + [true] + Off(6 - n) + [true];
      assert |want| == 8 && forall i :: 0 <= i < 8 ==> want[i] == (i == 7 || if i < n then BitsOf(ub)[i] else i == n);
      assert BitsOf(LastByte(ub, n) | 1) == want;
    }
  }

  /** The number of zero bits between the one and the marker. */
  function ZeroBits(w: Width, p: nat, n: nat): int
    requires p < w.Size() && n < 8
  {
    8 * Fill(w, p, n) + 6 - n
  }

  /** One, as few zeros as bring the text to a block less marker and length, marker. */
  lemma MarkedBits(w: Width, p: nat, ub: Byte, n: nat, full: bool)
    requires p < w.Size() && n < 8
    ensures 0 <= ZeroBits(w, p, n) < w.BlockBits()
    ensures Flat(Marked([LastByte(ub, n)] + Zeros(Fill(w, p, n)), full))
         == BitsOf(ub)[..n] + [true] + Off(ZeroBits(w, p, n)) + [full]
  {
    hide LastByte, BitsOf, Flat;
    var last, z := LastByte(ub, n), Fill(w, p, n);
    LastBits(ub, n);
    ZeroBitsBound(w, p, n);
    if z == 0 {
      assert [last] + Zeros(0) == [last] && [last][0 := last | 1] == [last | 1];
      FlatOne(last);
      FlatOne(last | 1);
      assert Off(7 - n) == Off(6 - n) + [false];
    } else {
      SpreadBits(last, z, full);
      assert Off(ZeroBits(w, p, n)) == Off(7 - n) + Off(8 * (z - 1) + 7);
    }
  }

  /** A body of more than one byte. */
  lemma SpreadBits(last: Byte, z: nat, full: bool)
    requires z > 0
    ensures Flat(Marked([last] + Zeros(z), full)) == BitsOf(last) + Off(8 * (z - 1) + 7) + [full]
  {
    hide BitsOf, Flat;
    var tip: Byte := if full then 1 else 0;
    assert Marked([last] + Zeros(z), full) == [last] + Zeros(z - 1) + [tip];
    FlatJoin([last] + Zeros(z - 1), [tip]);
    FlatJoin([last], Zeros(z - 1));
    FlatOne(last);
    FlatOne(tip);
    FlatZeros(z - 1);
    TipBits(full);
    assert Off(8 * (z - 1) + 7) == Off(8 * (z - 1)) + Off(7);
  }

  lemma ZeroBitsBound(w: Width, p: nat, n: nat)
    requires p < w.Size() && n < 8
    ensures 0 <= ZeroBits(w, p, n) < w.BlockBits()
    ensures Fill(w, p, n) == 0 ==> n < 7
  {
    match w case Small => case Big =>
  }

  lemma TipBits(full: bool)
    ensures BitsOf(if full then 1 else 0) == Off(7) + [full]
  {
  }

  /** The padded text is the message, a one, the fewest zeros that reach `MostBits` + 1 modulo a block, the marker,
      and the length. */
  lemma PaddedBits(w: Width, msg: seq<Byte>, ub: Byte, n: nat, full: bool) returns (zeros: nat)
    requires n < 8
    ensures zeros < w.BlockBits() && (Bits(|msg|, n) + 1 + zeros) % w.BlockBits() == w.MostBits() + 1
    ensures Flat(Padded(w, msg, ub, n, full))
         == Flat(msg) + BitsOf(ub)[..n] + [true] + Off(zeros) + [full] + Flat(EncBe(Bits(|msg|, n), 2 * w.Word()))
  {
    hide Flat, BitsOf, LastByte, Marked, Fill, EncBe, ZeroBits, Bits;
    var p := |msg| % w.Size();
    var body := Marked([LastByte(ub, n)] + Zeros(Fill(w, p, n)), full);
    var length := EncBe(Bits(|msg|, n), 2 * w.Word());
    MarkedBits(w, p, ub, n, full);
    zeros := ZeroBits(w, p, n);
    Congruent(w, |msg|, n);
    SplitPadded(msg, body, length);
    assert Padded(w, msg, ub, n, full) == msg + (body + length);
  }

  lemma SplitPadded(msg: seq<Byte>, body: seq<Byte>, length: seq<Byte>)
    ensures Flat(msg + (body + length)) == Flat(msg) + Flat(body) + Flat(length)
  {
    FlatJoin(msg, body + length);
    FlatJoin(body, length);
  }

  lemma Congruent(w: Width, len: nat, n: nat)
    requires n < 8
    ensures (Bits(len, n) + 1 + ZeroBits(w, len % w.Size(), n)) % w.BlockBits() == w.MostBits() + 1
  {
    match w case Small => case Big =>
  }
}
