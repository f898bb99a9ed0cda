/** BMW: two chaining buffers that change places, and the closing of the hash. */
module Bmw {
  import opened Bytes
  import opened Division
  import opened Streams

  /** BMW-224/256 have 32-bit words, BMW-384/512 64-bit words; a block and a chaining value have sixteen of them. */
  datatype Width = Small | Big {
    function Word(): nat { match this case Small => 4 case Big => 8 }
    function Size(): nat { match this case Small => 64 case Big => 128 }
  }

  type Words = h: seq<nat> | |h| == 16 witness [0, 0, 0, 0, 0, 0, 0, 0, 0, 0, 0, 0, 0, 0, 0, 0]

  /** `compress_small` and `compress_big`: block and chaining value to chaining value. */
  type Compress = (seq<Byte>, Words) -> Words

  function Compressing(f: Compress): Step<Words> { (h: Words, b: seq<Byte>) => f(b, h) }

  // ---- the specification ----

  function Bits(len: nat, n: nat): nat { 8 * len + n }

  /** How many blocks the last bits of a message take up, with the padding. */
  function LastBlocks(w: Width, p: nat): nat { if p + 1 > w.Size() - 8 then 2 else 1 }

  function Padding(w: Width, p: nat, ub: Byte, n: nat, bits: nat): (r: seq<Byte>)
    requires p < w.Size() && n < 8
    ensures |r| == LastBlocks(w, p) * w.Size() - p
  {
    [LastByte(ub, n)] + Zeros(LastBlocks(w, p) * w.Size() - p - 9) + EncLe(bits, 8)
  }

  function PaddedBlocks(w: Width, len: nat): nat { len / w.Size() + LastBlocks(w, len % w.Size()) }

  /** The message, a one bit, zeros, and the number of message bits modulo 2^64, the lowest byte first. */
  function Padded(w: Width, msg: seq<Byte>, ub: Byte, n: nat): (r: seq<Byte>)
    requires n < 8
    ensures |r| == PaddedBlocks(w, |msg|) * w.Size()
  {
    Recomposed(|msg|, w.Size());
    assert PaddedBlocks(w, |msg|) * w.Size()
        == |msg| / w.Size() * w.Size() + LastBlocks(w, |msg| % w.Size()) * w.Size();
    msg + Padding(w, |msg| % w.Size(), ub, n, Bits(|msg|, n))
  }

  /** Words `from` to `to` as bytes, the lowest byte first. */
  function WordBytes(w: Width, h: Words, from: nat, to: nat): (r: seq<Byte>)
    requires from <= to <= 16
    ensures |r| == w.Word() * (to - from)
  {
    if from == to then [] else WordBytes(w, h, from, to - 1) + EncLe(h[to - 1], w.Word())
  }

  /** One more compression turns the chaining value into the result, whose last words are the digest. */
  function Digest(w: Width, f: Compress, fin: Words, iv: Words, msg: seq<Byte>, ub: Byte, n: nat, words: nat): seq<Byte>
    requires n < 8 && words <= 16
  {
    var h := Blocks(Compressing(f), w.Size(), iv, Padded(w, msg, ub, n), PaddedBlocks(w, |msg|));
    WordBytes(w, f(WordBytes(w, h, 0, 16), fin), 16 - words, 16)
  }

  // ---- the code ----

  /** `compress(data, h, dh)`. */
  method CompressInto(f: Compress, data: seq<Byte>, h: array<nat>, dh: array<nat>)
    requires h.Length == 16 && dh.Length == 16
    modifies dh
    ensures dh[..] == f(data, old(h[..]))
  {
    var r := f(data, h[..]);
    forall i | 0 <= i < 16 { dh[i] := r[i]; }
  }

  lemma BitsAdd(count: nat, before: nat, more: nat)
    requires count == 8 * before % COUNT_LIMIT
    ensures (count + 8 * more % COUNT_LIMIT) % COUNT_LIMIT == 8 * (before + more) % COUNT_LIMIT
  {
  }

  lemma NothingStreamed<S>(step: Step<S>, size: nat, s: S)
    requires size > 0
    ensures Streamed(step, size, s, [], Ctx(s, []), 0)
  {
  }

  class Context {
    const w: Width
    const f: Compress
    const iv: Words
    const buf: array<Byte>
    const H: array<nat>
    var ptr: nat
    var bitCount: nat
    /** Everything fed so far. */
    ghost var msg: seq<Byte>

    ghost predicate Shape()
      reads this
    {
      buf.Length == w.Size() && H.Length == 16 && ptr < w.Size()
    }

    ghost function View(): (c: Ctx<Words>)
      reads this, buf, H
      requires Shape()
      ensures |c.buf| < w.Size()
    {
      Ctx<Words>.Ctx(H[..], buf[..ptr])
    }

    ghost predicate Valid()
      reads this, buf, H
    {
      && Shape() && bitCount == 8 * |msg| % COUNT_LIMIT
      && Streamed(Compressing(f), w.Size(), iv, msg, View(), |msg| / w.Size())
    }

    /** `bmw32_init` and `bmw64_init`. */
    constructor (w: Width, f: Compress, iv: Words)
      ensures Valid() && fresh(buf) && fresh(H) && msg == []
      ensures this.w == w && this.f == f && this.iv == iv
    {
      this.w, this.f, this.iv := w, f, iv;
      buf := new Byte[w.Size()];
      H := new nat[16](i requires 0 <= i < 16 => iv[i]);
      ptr, bitCount, msg := 0, 0, [];
      new;
      assert H[..] == iv;
      NothingStreamed(Compressing(f), w.Size(), iv);
    }

    /** One pass of the update loop. */
    method CorePiece(data: seq<Byte>, from: nat, g1: array<nat>, g2: array<nat>)
      returns (at: nat, h1: array<nat>, h2: array<nat>)
      requires Shape() && from < |data| && g1.Length == 16 && g2.Length == 16 && g1 != g2
      modifies this`ptr, buf, g2
      ensures Shape() && from < at <= |data| && ((h1 == g1 && h2 == g2) || (h1 == g2 && h2 == g1))
      ensures Fed(Compressing(f), w.Size(), Ctx<Words>.Ctx(h1[..], buf[..ptr]), data[at..])
           == Fed(Compressing(f), w.Size(), old(Ctx<Words>.Ctx(g1[..], buf[..ptr])), data[from..])
    {
      hide Fed;
      var clen := buf.Length - ptr;
      if clen > |data| - from {
        clen := |data| - from;
      }
      ghost var c := Ctx<Words>.Ctx(g1[..], buf[..ptr]);
      FedPiece(Compressing(f), w.Size(), c, data, from, clen);
      Put(buf, ptr, data[from..from + clen]);
      assert buf[..ptr + clen] == c.buf + data[from..from + clen];
      at, h1, h2 := from + clen, g1, g2;
      ptr := ptr + clen;
      if ptr == buf.Length {
        assert buf[..] == buf[..ptr];
        CompressInto(f, buf[..], h1, h2);
        h1, h2 := h2, h1;
        ptr := 0;
      }
    }

    /** The update loop of `bmw32` and `bmw64`: `h1` and `h2` change places with each block, and `H` gets the
        current value at the end if it is in the other buffer. */
    method Core(data: seq<Byte>)
      requires Shape()
      modifies this`ptr, buf, H
      ensures Shape() && View() == Fed(Compressing(f), w.Size(), old(View()), data)
    {
      var htmp := new nat[16];
      var h1, h2 := H, htmp;
      ghost var target := Fed(Compressing(f), w.Size(), View(), data);
      var at := 0;
      assert data[0..] == data;
      while at < |data|
        invariant Shape() && at <= |data|
        invariant (h1 == H && h2 == htmp) || (h1 == htmp && h2 == H)
        invariant Fed(Compressing(f), w.Size(), Ctx<Words>.Ctx(h1[..], buf[..ptr]), data[at..]) == target
      {
        at, h1, h2 := CorePiece(data, at, h1, h2);
      }
      ghost var c := Ctx<Words>.Ctx(h1[..], buf[..ptr]);
      FedNothing(Compressing(f), w.Size(), c);
      assert data[at..] == [] && c == target;
      if h1 != H {
        forall i | 0 <= i < 16 { H[i] := h1[i]; }
        assert H[..] == c.state;
      }
    }

    /** `bmw32` and `bmw64`. */
    method Update(data: seq<Byte>)
      requires Valid()
      modifies this, buf, H
      ensures Valid() && msg == old(msg) + data
    {
      hide Compressing, Blocks, Fed;
      BitsAdd(bitCount, |msg|, |data|);
      bitCount := (bitCount + 8 * |data| % COUNT_LIMIT) % COUNT_LIMIT;
      ghost var k := FedIsBlocks(Compressing(f), w.Size(), iv, msg, View(), |msg| / w.Size(), data);
      Core(data);
      msg := msg + data;
      Divided(w.Size(), |msg|, k, |View().buf|);
    }

    /** What the closing methods start from: the last message byte is in the buffer. */
    ghost predicate Marked(c: Ctx<Words>, ub: Byte, n: nat)
      requires n < 8
      reads this, buf, H
    {
      && Shape() && ptr < buf.Length && buf[..ptr + 1] == c.buf + [LastByte(ub, n)] && H[..] == c.state
      && |c.buf| == ptr && bitCount == 8 * |msg| % COUNT_LIMIT
      && Streamed(Compressing(f), w.Size(), iv, msg, c, |msg| / w.Size())
    }

    /** Zeros to the end of the block, one compression from `H` to `h1`; then a block of zeros and the length. */
    method FinishSpilling(ub: Byte, n: nat, h1: array<nat>, h2: array<nat>, ghost c: Ctx<Words>)
      requires n < 8 && Marked(c, ub, n) && ptr + 1 > w.Size() - 8
      requires h1.Length == 16 && h2.Length == 16 && h1 != h2 && h1 != H && h2 != H
      modifies buf, h1, h2
      ensures h2[..] == Blocks(Compressing(f), w.Size(), iv, Padded(w, msg, ub, n), PaddedBlocks(w, |msg|))
    {
      hide LastByte, Blocks, EncLe, Zeros, Padded, PaddedBlocks, Padding;
      ghost var first := [LastByte(ub, n)] + Zeros(w.Size() - ptr - 1);
      ghost var second := Zeros(w.Size() - 8) + EncLe(Bits(|msg|, n), 8);
      ghost var k := |msg| / w.Size();
      ghost var front := buf[..ptr + 1];
      Clear(buf, ptr + 1, w.Size());
      assert buf[..] == front + Zeros(w.Size() - ptr - 1);
      assert buf[..] == c.buf + first;
      CompressInto(f, buf[..], H, h1);
      LengthField(|msg|, n);
      PutLength(0, (bitCount + n) % COUNT_LIMIT);
      assert buf[..] == second;
      SpillPadding(w, ptr, ub, n, Bits(|msg|, n));
      Divided(w.Size(), |msg|, k, ptr);
      PaddedIs(w, msg, ub, n, ptr);
      Spilled(w, f, iv, msg, c, k, first, second);
      CompressInto(f, buf[..], h1, h2);
    }

    /** Marker, zeros and length fit in the current block: one compression from `H` to `h2`. */
    method FinishFitting(ub: Byte, n: nat, h2: array<nat>, ghost c: Ctx<Words>)
      requires n < 8 && Marked(c, ub, n) && ptr + 1 <= w.Size() - 8 && h2.Length == 16 && h2 != H
      modifies buf, h2
      ensures h2[..] == Blocks(Compressing(f), w.Size(), iv, Padded(w, msg, ub, n), PaddedBlocks(w, |msg|))
    {
      hide LastByte, Blocks, EncLe, Zeros;
      ghost var pad := Padding(w, ptr, ub, n, Bits(|msg|, n));
      ghost var k := |msg| / w.Size();
      ghost var front := buf[..ptr + 1];
      LengthField(|msg|, n);
      PutLength(ptr + 1, (bitCount + n) % COUNT_LIMIT);
      assert buf[..] == front + Zeros(w.Size() - 9 - ptr) + EncLe(Bits(|msg|, n), 8);
      assert buf[..] == c.buf + pad;
      StreamedBlock(Compressing(f), w.Size(), iv, msg, c, k, pad);
      Divided(w.Size(), |msg|, k, ptr);
      assert msg + pad == Padded(w, msg, ub, n);
      CompressInto(f, buf[..], H, h2);
    }

    /** Zeros from `at` on, and the bit count in the last eight bytes. */
    method PutLength(at: nat, count: nat)
      requires at + 8 <= w.Size() == buf.Length
      modifies buf
      ensures buf[..] == old(buf[..at]) + Zeros(w.Size() - 8 - at) + EncLe(count, 8)
    {
      hide EncLe, Zeros;
      Clear(buf, at, w.Size() - 8);
      ghost var front := buf[..w.Size() - 8];
      assert front == old(buf[..at]) + Zeros(w.Size() - 8 - at);
      Put(buf, w.Size() - 8, EncLe(count, 8));
      assert buf[..] == front + EncLe(count, 8);
    }

    /** `bmw32_close` and `bmw64_close`, for a message that ends with the `n` high bits of `ub`; `fin` is the constant
        `final_s` or `final_b`. */
    method Close(fin: Words, ub: Byte, n: nat, words: nat) returns (dst: seq<Byte>)
      requires Valid() && n < 8 && words <= 16
      modifies buf
      ensures dst == Digest(w, f, fin, iv, msg, ub, n, words)
    {
      hide Compressing, Padded, Blocks, LastByte;
      var h1, h2 := new nat[16], new nat[16];
      ghost var c := View();
      var z: Byte := 0x80 >> n;
      buf[ptr] := (ub & (0 - z)) | z;
      LastByteIs(ub, n);
      assert buf[..ptr + 1] == c.buf + [LastByte(ub, n)];
      if ptr + 1 > w.Size() - 8 {
        FinishSpilling(ub, n, h1, h2, c);
      } else {
        FinishFitting(ub, n, h2, c);
      }
      dst := Output(fin, h1, h2, words);
    }

    /** One more compression, from `h2` as a block and the constant, and the digest from its last words. */
    method Output(fin: Words, h1: array<nat>, h2: array<nat>, words: nat) returns (dst: seq<Byte>)
      requires buf.Length == w.Size() && words <= 16 && h1.Length == 16 && h2.Length == 16 && h1 != h2
      modifies buf, h1
      ensures dst == WordBytes(w, f(WordBytes(w, old(h2[..]), 0, 16), fin), 16 - words, 16)
    {
      hide EncLe;
      ghost var h: Words := h2[..];
      for u := 0 to 16
        invariant buf[..w.Word() * u] == WordBytes(w, h, 0, u)
        invariant h2[..] == h
      {
        ghost var front := buf[..w.Word() * u];
        Put(buf, w.Word() * u, EncLe(h2[u], w.Word()));
        assert w.Word() * (u + 1) == w.Word() * u + w.Word();
        assert buf[..w.Word() * (u + 1)] == front + EncLe(h2[u], w.Word());
      }
      assert buf[..] == buf[..w.Word() * 16];
      var last := new nat[16](i requires 0 <= i < 16 => fin[i]);
      assert last[..] == fin;
      CompressInto(f, buf[..], last, h1);
      dst := [];
      var v := 16 - words;
      for u := 0 to words
        invariant v == 16 - words + u && dst == WordBytes(w, h1[..], 16 - words, v)
      {
        dst := dst + EncLe(h1[v], w.Word());
        v := v + 1;
      }
    }
  }

  /** The length field is the bit count of the whole message. */
  lemma LengthField(len: nat, n: nat)
    ensures EncLe((8 * len % COUNT_LIMIT + n) % COUNT_LIMIT, 8) == EncLe(Bits(len, n), 8)
  {
    hide EncLe;
    var c := 8 * len % COUNT_LIMIT + n;
    Recomposed(8 * len, COUNT_LIMIT);
    Recomposed(c, COUNT_LIMIT);
    var q := 8 * len / COUNT_LIMIT + c / COUNT_LIMIT;
    assert Bits(len, n) == q * COUNT_LIMIT + c % COUNT_LIMIT;
    EightBytes();
    LowBytesLe(Bits(len, n), q, c % COUNT_LIMIT, 8);
  }

  /** Padding that spills over. */
  lemma PaddedIs(w: Width, msg: seq<Byte>, ub: Byte, n: nat, p: nat)
    requires n < 8 && p == |msg| % w.Size()
    ensures Padded(w, msg, ub, n) == msg + Padding(w, p, ub, n, Bits(|msg|, n))
    ensures PaddedBlocks(w, |msg|) == |msg| / w.Size() + LastBlocks(w, p)
  {
    hide Padding;
  }

  lemma SpillPadding(w: Width, p: nat, ub: Byte, n: nat, bits: nat)
    requires p < w.Size() && n < 8 && p + 1 > w.Size() - 8
    ensures Padding(w, p, ub, n, bits)
         == [LastByte(ub, n)] + Zeros(w.Size() - p - 1) + (Zeros(w.Size() - 8) + EncLe(bits, 8))
  {
    hide LastByte, EncLe;
    assert Zeros(2 * w.Size() - p - 9) == Zeros(w.Size() - p - 1) + Zeros(w.Size() - 8);
  }

  lemma Spilled(w: Width, f: Compress, iv: Words, msg: seq<Byte>, c: Ctx<Words>, k: nat, first: seq<Byte>,
      second: seq<Byte>)
    requires Streamed(Compressing(f), w.Size(), iv, msg, c, k)
    requires |first| == w.Size() - |c.buf| && |second| == w.Size()
    ensures (k + 2) * w.Size() <= |msg + (first + second)|
    ensures f(second, f(c.buf + first, c.state)) == Blocks(Compressing(f), w.Size(), iv, msg + (first + second), k + 2)
  {
    hide Blocks;
    StreamedBlock(Compressing(f), w.Size(), iv, msg, c, k, first);
    StreamedBlock(Compressing(f), w.Size(), iv, msg + first, Ctx(f(c.buf + first, c.state), []), k + 1, second);
    assert msg + first + second == msg + (first + second) && [] + second == second;
  }
}
