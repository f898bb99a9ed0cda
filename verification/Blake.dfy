/** The BLAKE hash functions: padding, the message length, and the bit counter that each compression sees. */
module Blake {
  import opened Bytes
  import opened Counters
  import opened Division
  import opened Streams

  /** BLAKE-224/256 work on 64-byte blocks and 32-bit words, BLAKE-384/512 on 128-byte blocks and 64-bit words. */
  datatype Width = Small | Big {
    function Size(): nat { match this case Small => 64 case Big => 128 }
    function BlockBits(): nat { match this case Small => 512 case Big => 1024 }
    function Word(): nat { match this case Small => 4 case Big => 8 }
    function Modulus(): nat { match this case Small => 0x1_0000_0000 case Big => 0x1_0000_0000_0000_0000 }
    /** The largest number of message bits in the last block that leaves room for marker and length. */
    function MostBits(): nat { match this case Small => 446 case Big => 894 }
    /** Where the length starts in the last block. */
    function LengthAt(): nat { match this case Small => 56 case Big => 112 }
  }

  type Chain = h: seq<nat> | |h| == 8 witness [0, 0, 0, 0, 0, 0, 0, 0]

  /** The compression function: chaining value, block, low and high counter word. */
  type Compress = (Chain, seq<Byte>, nat, nat) -> Chain

  datatype State = State(h: Chain, t0: nat, t1: nat)

  /** A bit count as the two counter words hold it. */
  function Lo(w: Width, c: nat): nat { c % w.Modulus() }
  function Hi(w: Width, c: nat): nat { c / w.Modulus() % w.Modulus() }

  /** Adding a block's bits to the two counter words. */
  function Ticked(w: Width, t0: nat, t1: nat): (nat, nat) {
    var low := (t0 + w.BlockBits()) % w.Modulus();
    (low, if low < w.BlockBits() then (t1 + 1) % w.Modulus() else t1)
  }

  /** What an update does with a full block: add the block's bits to the counter, carry, compress. */
  function Take(w: Width, f: Compress, s: State, block: seq<Byte>): State {
    var t := Ticked(w, s.t0, s.t1);
    State(f(s.h, block, t.0, t.1), t.0, t.1)
  }

  function Taking(w: Width, f: Compress): Step<State> { (s: State, b: seq<Byte>) => Take(w, f, s, b) }

  // ---- the specification ----

  function Bits(bytes: nat, n: nat): nat { 8 * bytes + n }

  predicate Fits(w: Width, p: nat, n: nat) { Bits(p, n) <= w.MostBits() }

  /** How many zero bytes follow the last message byte, when `p` whole bytes are in the last block. */
  function Fill(w: Width, p: nat, n: nat): nat
    requires p < w.Size() && n < 8
  {
    (if Fits(w, p, n) then w.LengthAt() else w.Size() + w.LengthAt()) - p - 1
  }

  /** The last bit before the length is set in the variants with a full-size digest. */
  function Marked(body: seq<Byte>, full: bool): (r: seq<Byte>)
    requires body != []
    ensures |r| == |body|
  {
    if full then body[|body| - 1 := body[|body| - 1] | 1] else body
  }

  function Padding(w: Width, p: nat, ub: Byte, n: nat, full: bool, bits: nat): seq<Byte>
    requires p < w.Size() && n < 8
  {
    Marked([LastByte(ub, n)] + Zeros(Fill(w, p, n)), full) + EncBe(bits, 2 * w.Word())
  }

  function Padded(w: Width, msg: seq<Byte>, ub: Byte, n: nat, full: bool): seq<Byte>
    requires n < 8
  {
    msg + Padding(w, |msg| % w.Size(), ub, n, full, Bits(|msg|, n))
  }

  function Hash(w: Width, f: Compress, iv: Chain, text: seq<Byte>, bits: nat, i: nat): Chain
    requires i * w.Size() <= |text|
  {
    if i == 0 then iv
    else
      assert (i - 1) * w.Size() <= i * w.Size();
      var c := Count(w.BlockBits(), bits, i - 1);
      f(Hash(w, f, iv, text, bits, i - 1), Block(text, w.Size(), i - 1), Lo(w, c), Hi(w, c))
  }

  /** The first `k` words of a chaining value. */
  function Output(w: Width, h: Chain, k: nat): seq<Byte>
    requires k <= 8
  {
    if k == 0 then [] else Output(w, h, k - 1) + EncBe(h[k - 1], w.Word())
  }

  function Digest(w: Width, f: Compress, iv: Chain, msg: seq<Byte>, ub: Byte, n: nat, words: nat): seq<Byte>
    requires n < 8 && words <= 8
  {
    var text := Padded(w, msg, ub, n, words == 8);
    assert |text| / w.Size() * w.Size() <= |text|;
    Output(w, Hash(w, f, iv, text, Bits(|msg|, n), |text| / w.Size()), words)
  }

  // ---- the counter ----

  /** Adding a block's bits to the counter words adds them to the count. */
  lemma Advance(w: Width, c: nat)
    ensures Ticked(w, Lo(w, c), Hi(w, c)) == (Lo(w, c + w.BlockBits()), Hi(w, c + w.BlockBits()))
  {
    var m := w.Modulus();
    if Lo(w, c) + w.BlockBits() < m {
      LowPart(m, c, w.BlockBits());
      BelowModulus(m, Lo(w, c) + w.BlockBits());
    } else {
      HighPart(m, c, w.BlockBits());
      Divided(m, Lo(w, c) + w.BlockBits(), 1, Lo(w, c) + w.BlockBits() - m);
      Carry(m, c / m);
    }
  }

  /** The preset from which the next addition reaches zero. */
  lemma PresetZero(w: Width)
    ensures Ticked(w, w.Modulus() - w.BlockBits(), w.Modulus() - 1) == (0, 0)
  {
    match w case Small => case Big =>
  }

  /** The preset for a last block that begins when the low counter word is zero. */
  lemma PresetWrapped(w: Width, c: nat, more: nat)
    requires Lo(w, c) == 0 && 0 < more < w.BlockBits()
    ensures Ticked(w, w.Modulus() - w.BlockBits() + more, (Hi(w, c) + w.Modulus() - 1) % w.Modulus())
         == (Lo(w, c + more), Hi(w, c + more))
  {
    var m := w.Modulus();
    LowPart(m, c, more);
    Borrow(m, Hi(w, c));
    Divided(m, m + more, 1, more);
  }

  /** The preset for every other last block. */
  lemma PresetBack(w: Width, c: nat, more: nat)
    requires c % w.BlockBits() == 0 && Lo(w, c) != 0 && more < w.BlockBits()
    ensures Lo(w, c) >= w.BlockBits()
    ensures Ticked(w, Lo(w, c) - (w.BlockBits() - more), Hi(w, c)) == (Lo(w, c + more), Hi(w, c + more))
  {
    var m := w.Modulus();
    WholeBlocks(w, c);
    LowPart(m, c, more);
    BelowModulus(m, Lo(w, c) + more);
  }

  /** The low counter word is a whole number of blocks. */
  lemma WholeBlocks(w: Width, c: nat)
    requires c % w.BlockBits() == 0
    ensures Lo(w, c) % w.BlockBits() == 0 && Lo(w, c) + w.BlockBits() <= w.Modulus()
  {
    Recomposed(c, w.BlockBits());
    MultipleResidue(w.BlockBits(), c / w.BlockBits(), w.Modulus() / w.BlockBits());
  }

  /** The bits of `k` blocks. */
  lemma BlockBitsSize(w: Width, k: nat)
    ensures w.BlockBits() * k == 8 * (k * w.Size()) && w.BlockBits() * k % w.BlockBits() == 0
    ensures w.BlockBits() * (k + 1) == w.BlockBits() * k + w.BlockBits()
  {
    match w case Small => case Big =>
  }

  lemma NoBits(w: Width)
    ensures Lo(w, 0) == 0 && Hi(w, 0) == 0
  {
    BelowModulus(w.Modulus(), 0);
  }

  /** Blocks full of message bits: the running counter is the specified one. */
  lemma {:induction false} MessageBlocks(w: Width, f: Compress, iv: Chain, text: seq<Byte>, bits: nat, k: nat)
    requires k * w.Size() <= |text| && w.BlockBits() * k <= bits
    ensures Blocks(Taking(w, f), w.Size(), State(iv, 0, 0), text, k)
         == State(Hash(w, f, iv, text, bits, k), Lo(w, w.BlockBits() * k), Hi(w, w.BlockBits() * k))
  {
    hide Ticked, Lo, Hi;
    if k == 0 {
      NoBits(w);
    } else {
      assert (k - 1) * w.Size() <= k * w.Size();
      BlockBitsSize(w, k - 1);
      MessageBlocks(w, f, iv, text, bits, k - 1);
      Advance(w, w.BlockBits() * (k - 1));
      assert Count(w.BlockBits(), bits, k - 1) == w.BlockBits() * k;
    }
  }

  // ---- the end of the message ----

  /** The length field is the two counter words' worth of the bit count. */
  lemma LengthField(w: Width, c: nat)
    ensures EncBe(Hi(w, c), w.Word()) + EncBe(Lo(w, c), w.Word()) == EncBe(c, 2 * w.Word())
  {
    hide EncBe, Pow256;
    WordPower(w);
    var h, l := c / w.Modulus(), c % w.Modulus();
    Recomposed(c, w.Modulus());
    EncBeSplit(h, l, w.Word(), w.Word());
    var q, r := h / w.Modulus(), h % w.Modulus();
    Recomposed(h, w.Modulus());
    LowBytes(h, q, r, w.Word());
  }

  lemma WordPower(w: Width)
    ensures Pow256(w.Word()) == w.Modulus()
  {
    assert Pow256(4) == 0x1_0000_0000 by { assert Pow256(2) == 0x1_0000; }
    match w
    case Small =>
    case Big => assert Pow256(6) == 0x1_0000_0000_0000;
  }

  /** The padding completes the last block, or the last block and one more. */
  lemma PaddingSize(w: Width, p: nat, ub: Byte, n: nat, full: bool, bits: nat)
    requires p < w.Size() && n < 8
    ensures |Padding(w, p, ub, n, full, bits)| == (if Fits(w, p, n) then w.Size() else 2 * w.Size()) - p
  {
    match w case Small => case Big =>
  }

  /** A block that holds only the end of the padding. */
  function SecondPart(w: Width, full: bool, bits: nat): seq<Byte> {
    Marked(Zeros(w.LengthAt()), full) + EncBe(bits, 2 * w.Word())
  }

  /** Padding that spills over: the rest of the current block, then one block without message bits. */
  lemma Spill(w: Width, p: nat, ub: Byte, n: nat, full: bool, bits: nat)
    requires p < w.Size() && n < 8 && !Fits(w, p, n)
    ensures var pad := Padding(w, p, ub, n, full, bits);
      && |pad| == 2 * w.Size() - p
      && pad[..w.Size() - p] == [LastByte(ub, n)] + Zeros(w.Size() - p - 1)
      && pad[w.Size() - p..] == SecondPart(w, full, bits)
  {
    hide LastByte, EncBe;
    PaddingSize(w, p, ub, n, full, bits);
  }

  /** Bits of a message of `k` whole blocks, `p` bytes and `n` bits. */
  lemma BitsSplit(w: Width, msg: seq<Byte>, k: nat, p: nat, n: nat)
    requires |msg| == k * w.Size() + p && p < w.Size()
    ensures |msg| / w.Size() == k && |msg| % w.Size() == p
    ensures Bits(|msg|, n) == w.BlockBits() * k + Bits(p, n)
  {
    Divided(w.Size(), |msg|, k, p);
    BlockBitsSize(w, k);
  }

  /** The state before the last block is the specified one. */
  lemma BeforeLast(w: Width, f: Compress, iv: Chain, msg: seq<Byte>, pad: seq<Byte>, bits: nat, k: nat)
    requires k * w.Size() <= |msg| && w.BlockBits() * k <= bits
    ensures k * w.Size() <= |msg + pad|
    ensures Blocks(Taking(w, f), w.Size(), State(iv, 0, 0), msg, k)
         == State(Hash(w, f, iv, msg + pad, bits, k), Lo(w, w.BlockBits() * k), Hi(w, w.BlockBits() * k))
  {
    BlocksPrefix(Taking(w, f), w.Size(), State(iv, 0, 0), msg, pad, k);
    MessageBlocks(w, f, iv, msg + pad, bits, k);
  }

  /** One block more of the specified hash. */
  lemma LastBlock(w: Width, f: Compress, iv: Chain, text: seq<Byte>, bits: nat, k: nat, s: State, block: seq<Byte>)
    requires (k + 1) * w.Size() <= |text| && block == Block(text, w.Size(), k)
    requires k * w.Size() <= |text| && s.h == Hash(w, f, iv, text, bits, k)
    requires var c := Count(w.BlockBits(), bits, k); Ticked(w, s.t0, s.t1) == (Lo(w, c), Hi(w, c))
    ensures Take(w, f, s, block).h == Hash(w, f, iv, text, bits, k + 1)
  {
    hide Ticked, Lo, Hi, Count, Block;
  }

  /** The two blocks of a padding that spills over. */
  lemma SpillBlocks(w: Width, msg: seq<Byte>, k: nat, p: nat, pad: seq<Byte>)
    requires |msg| == k * w.Size() + p && p < w.Size() && |pad| == 2 * w.Size() - p
    ensures |msg + pad| == (k + 2) * w.Size() && (k + 1) * w.Size() <= |msg + pad|
    ensures Block(msg + pad, w.Size(), k) == msg[k * w.Size()..] + pad[..w.Size() - p]
    ensures Block(msg + pad, w.Size(), k + 1) == pad[w.Size() - p..]
  {
    assert (k + 1) * w.Size() == k * w.Size() + w.Size() && (k + 2) * w.Size() == (k + 1) * w.Size() + w.Size();
    SliceAcross(msg, pad, k * w.Size(), (k + 1) * w.Size());
    SliceOfSecond(msg, pad, (k + 1) * w.Size(), (k + 2) * w.Size());
    assert pad[w.Size() - p..|pad|] == pad[w.Size() - p..];
  }

  /** The last block of a text. */
  lemma TailBlock(size: nat, text: seq<Byte>, k: nat)
    requires |text| == (k + 1) * size
    ensures Block(text, size, k) == text[k * size..]
  {
    assert (k + 1) * size == k * size + size;
  }

  class Context {
    const w: Width
    const f: Compress
    const iv: Chain
    const sc: Stream<State>
    /** Everything fed so far. */
    ghost var msg: seq<Byte>

    ghost predicate Valid()
      reads this, sc, sc.buf
    {
      && sc.Valid() && sc.size == w.Size() && sc.step == Taking(w, f)
      && Streamed(Taking(w, f), w.Size(), State(iv, 0, 0), msg, sc.View(), |msg| / w.Size())
    }

    /** `blake32_init` and `blake64_init`; the salt is part of the compression function. */
    constructor (w: Width, f: Compress, iv: Chain)
      ensures Valid() && fresh(sc) && fresh(sc.buf) && msg == []
      ensures this.w == w && this.f == f && this.iv == iv
    {
      this.w, this.f, this.iv, msg := w, f, iv, [];
      sc := new Stream(Taking(w, f), w.Size(), State(iv, 0, 0));
    }

    /** `blake32` and `blake64`. */
    method Update(data: seq<Byte>)
      requires Valid()
      modifies this, sc, sc.buf
      ensures Valid() && msg == old(msg) + data
    {
      hide Take, Blocks, Fed;
      ghost var k := FedIsBlocks(Taking(w, f), w.Size(), State(iv, 0, 0), msg, sc.View(), |msg| / w.Size(), data);
      sc.Core(data);
      msg := msg + data;
      Divided(w.Size(), |msg|, k, |sc.View().buf|);
    }

    /** What a close does to the counter before it feeds the padding: the next addition of a whole block's bits
        must give the count of the message bits, or zero when there is none in the last block. */
    method Preset(bitLen: nat, ghost c: nat)
      requires bitLen < w.BlockBits() && c % w.BlockBits() == 0
      requires sc.state.t0 == Lo(w, c) && sc.state.t1 == Hi(w, c)
      modifies sc`state
      ensures sc.state.h == old(sc.state.h)
      ensures var d := if bitLen == 0 then 0 else c + bitLen;
        Ticked(w, sc.state.t0, sc.state.t1) == (Lo(w, d), Hi(w, d))
    {
      hide Ticked, Lo, Hi;
      var s := sc.state;
      if bitLen == 0 {
        PresetZero(w);
        NoBits(w);
        sc.state := State(s.h, w.Modulus() - w.BlockBits(), w.Modulus() - 1);
      } else if s.t0 == 0 {
        PresetWrapped(w, c, bitLen);
        sc.state := State(s.h, w.Modulus() - w.BlockBits() + bitLen, (s.t1 + w.Modulus() - 1) % w.Modulus());
      } else {
        PresetBack(w, c, bitLen);
        sc.state := State(s.h, s.t0 - (w.BlockBits() - bitLen), s.t1);
      }
    }

    /** Feed bytes that complete a block, the counter being preset for it. */
    method CloseBlock(ghost text: seq<Byte>, ghost k: nat, data: seq<Byte>, ghost bits: nat)
      requires sc.Valid() && sc.size == w.Size() && sc.step == Taking(w, f)
      requires |sc.View().buf| + |data| == w.Size()
      requires k * w.Size() <= (k + 1) * w.Size() <= |text| && sc.View().buf + data == Block(text, w.Size(), k)
      requires sc.state.h == Hash(w, f, iv, text, bits, k)
      requires var c := Count(w.BlockBits(), bits, k); Ticked(w, sc.state.t0, sc.state.t1) == (Lo(w, c), Hi(w, c))
      modifies sc, sc.buf
      ensures sc.Valid() && sc.View().buf == []
      ensures sc.state.h == Hash(w, f, iv, text, bits, k + 1)
    {
      hide Lo, Hi, Ticked, Count, Hash, Block, Fed;
      LastBlock(w, f, iv, text, bits, k, sc.state, sc.View().buf + data);
      FedExactly(sc.step, sc.size, sc.View(), data);
      sc.Core(data);
    }

    /** The counter is preset for the block in which the message ends, and `text` is the padded message. */
    ghost predicate Ready(text: seq<Byte>, bits: nat, k: nat)
      reads this, sc, sc.buf
    {
      && sc.Valid() && sc.size == w.Size() && sc.step == Taking(w, f)
      && |msg| == k * w.Size() + sc.ptr && sc.View().buf == msg[k * w.Size()..]
      && k * w.Size() <= |text| && sc.state.h == Hash(w, f, iv, text, bits, k)
      && (var c := Count(w.BlockBits(), bits, k); Ticked(w, sc.state.t0, sc.state.t1) == (Lo(w, c), Hi(w, c)))
    }

    /** Marker and length fit in the block in which the message ends. */
    method CloseFitting(u: array<Byte>, ub: Byte, n: nat, full: bool, th: nat, tl: nat, ghost bits: nat, ghost k: nat)
      requires sc.ptr < w.Size() && n < 8 && Fits(w, sc.ptr, n)
      requires Ready(msg + Padding(w, sc.ptr, ub, n, full, bits), bits, k)
      requires u.Length == w.Size() && u != sc.buf && u[sc.ptr] == LastByte(ub, n)
      requires th == Hi(w, bits) && tl == Lo(w, bits)
      modifies sc, sc.buf, u
      ensures var text := msg + Padding(w, old(sc.ptr), ub, n, full, bits);
        |text| == (k + 1) * w.Size() && sc.state.h == Hash(w, f, iv, text, bits, k + 1)
    {
      hide LastByte, Lo, Hi, Ticked, Count, Hash, Padding;
      ghost var pad := Padding(w, sc.ptr, ub, n, full, bits);
      ghost var text := msg + pad;
      PaddingSize(w, sc.ptr, ub, n, full, bits);
      FinishFitting(w, u, sc.ptr, ub, n, full, th, tl, bits);
      assert (k + 1) * w.Size() == k * w.Size() + w.Size();
      TailBlock(w.Size(), text, k);
      assert msg[k * w.Size()..] + pad == text[k * w.Size()..];
      CloseBlock(text, k, u[sc.ptr..], bits);
    }

    /** The block after the one in which the message ends: no message bit is in it. */
    method CloseExtra(
        u: array<Byte>, full: bool, th: nat, tl: nat, ghost text: seq<Byte>, ghost bits: nat, ghost k: nat)
      requires sc.Valid() && sc.size == w.Size() && sc.step == Taking(w, f) && sc.View().buf == []
      requires k * w.Size() <= (k + 1) * w.Size() <= |text|
      requires Block(text, w.Size(), k) == SecondPart(w, full, bits)
      requires sc.state.h == Hash(w, f, iv, text, bits, k) && Count(w.BlockBits(), bits, k) == 0
      requires u.Length == w.Size() && u != sc.buf && th == Hi(w, bits) && tl == Lo(w, bits)
      modifies sc, sc.buf, u
      ensures sc.Valid() && sc.state.h == Hash(w, f, iv, text, bits, k + 1)
    {
      hide Lo, Hi, Ticked, Count, Hash, Block, SecondPart;
      sc.state := State(sc.state.h, w.Modulus() - w.BlockBits(), w.Modulus() - 1);
      PresetZero(w);
      NoBits(w);
      FinishSpilled(w, u, full, th, tl, bits);
      assert [] + u[..] == u[..];
      CloseBlock(text, k, u[..], bits);
    }

    /** They do not: the message ends in one block, and marker and length go into another. */
    method CloseSpilling(u: array<Byte>, ub: Byte, n: nat, full: bool, th: nat, tl: nat, ghost bits: nat, ghost k: nat)
      requires sc.ptr < w.Size() && n < 8 && !Fits(w, sc.ptr, n)
      requires Ready(msg + Padding(w, sc.ptr, ub, n, full, bits), bits, k)
      requires u.Length == w.Size() && u != sc.buf && u[sc.ptr] == LastByte(ub, n)
      requires th == Hi(w, bits) && tl == Lo(w, bits) && Count(w.BlockBits(), bits, k + 1) == 0
      modifies sc, sc.buf, u
      ensures var text := msg + Padding(w, old(sc.ptr), ub, n, full, bits);
        |text| == (k + 2) * w.Size() && sc.state.h == Hash(w, f, iv, text, bits, k + 2)
    {
      hide LastByte, Lo, Hi, Ticked, Count, Hash, Padding, SecondPart;
      ghost var pad := Padding(w, sc.ptr, ub, n, full, bits);
      ghost var text := msg + pad;
      Clear(u, sc.ptr + 1, w.Size());
      assert u[sc.ptr..] == [LastByte(ub, n)] + Zeros(w.Size() - sc.ptr - 1);
      Spill(w, sc.ptr, ub, n, full, bits);
      SpillBlocks(w, msg, k, sc.ptr, pad);
      CloseBlock(text, k, u[sc.ptr..], bits);
      CloseExtra(u, full, th, tl, text, bits, k + 1);
    }

    static method PutLast(u: array<Byte>, ptr: nat, ub: Byte, n: nat)
      requires ptr < u.Length && n < 8
      modifies u
      ensures u[ptr] == LastByte(ub, n)
    {
      hide LastByte;
      var z: Byte := 0x80 >> n;
      u[ptr] := (ub & (0 - z)) | z;
      LastByteIs(ub, n);
    }

    /** The first part of the closing: mark the end of the message, and preset the counter for its block. */
    method MarkMessage(u: array<Byte>, ub: Byte, n: nat, ghost text: seq<Byte>, ghost bits: nat, ghost k: nat)
      returns (th: nat, tl: nat)
      requires Valid() && n < 8 && u.Length == w.Size() && u != sc.buf && msg <= text
      requires k == |msg| / w.Size() && bits == Bits(|msg|, n)
      modifies sc`state, u
      ensures Ready(text, bits, k) && u[sc.ptr] == LastByte(ub, n)
      ensures th == Hi(w, bits) && tl == Lo(w, bits)
    {
      hide LastByte, Lo, Hi, Ticked, Count, Hash, Blocks, Fed;
      var ptr := sc.ptr;
      var bitLen := 8 * ptr + n;
      PutLast(u, ptr, ub, n);
      BitsSplit(w, msg, k, ptr, n);
      BeforeLast(w, f, iv, msg, text[|msg|..], bits, k);
      assert msg + text[|msg|..] == text;
      BlockBitsSize(w, k);
      LastCount(w.BlockBits(), k, bitLen);
      Lengths(w, w.BlockBits() * k, bitLen);
      tl := sc.state.t0 + bitLen;
      th := sc.state.t1;
      Preset(bitLen, w.BlockBits() * k);
    }

    /** The words of the chaining value. */
    method WriteOut(words: nat) returns (dst: seq<Byte>)
      requires words <= 8
      ensures dst == Output(w, sc.state.h, words)
    {
      hide EncBe;
      dst := [];
      for i := 0 to words
        invariant dst == Output(w, sc.state.h, i)
      {
        dst := dst + EncBe(sc.state.h[i], w.Word());
      }
    }

    /** `blake32_close` and `blake64_close`, for a message that ends with the `n` high bits of `ub`. The buffer
        `u` starts with arbitrary contents. */
    method Close(ub: Byte, n: nat, words: nat) returns (dst: seq<Byte>)
      requires Valid() && n < 8 && words <= 8
      modifies sc, sc.buf
      ensures dst == Digest(w, f, iv, msg, ub, n, words)
    {
      hide LastByte, Lo, Hi, Ticked, Count, Hash, Blocks, Padding, Fed, Output;
      var u := new Byte[w.Size()];
      var ptr := sc.ptr;
      ghost var k := |msg| / w.Size();
      ghost var bits := Bits(|msg|, n);
      ghost var text := msg + Padding(w, ptr, ub, n, words == 8, bits);
      BitsSplit(w, msg, k, ptr, n);
      BlockBitsSize(w, k);
      LastCount(w.BlockBits(), k, 8 * ptr + n);
      var th, tl := MarkMessage(u, ub, n, text, bits, k);
      if 8 * ptr + n <= w.MostBits() {
        CloseFitting(u, ub, n, words == 8, th, tl, bits, k);
        Divided(w.Size(), |text|, k + 1, 0);
      } else {
        CloseSpilling(u, ub, n, words == 8, th, tl, bits, k);
        Divided(w.Size(), |text|, k + 2, 0);
      }
      dst := WriteOut(words);
    }
  }

  /** The length words, computed before the counter is preset. */
  lemma Lengths(w: Width, c: nat, more: nat)
    requires c % w.BlockBits() == 0 && more < w.BlockBits()
    ensures Lo(w, c) + more == Lo(w, c + more) && Hi(w, c) == Hi(w, c + more)
  {
    WholeBlocks(w, c);
    LowPart(w.Modulus(), c, more);
  }

  /** The length words at the end of the last block. */
  method StoreLength(w: Width, u: array<Byte>, th: nat, tl: nat, ghost bits: nat)
    requires u.Length == w.Size() && th == Hi(w, bits) && tl == Lo(w, bits)
    modifies u
    ensures u[..w.LengthAt()] == old(u[..w.LengthAt()])
    ensures u[w.LengthAt()..] == EncBe(bits, 2 * w.Word())
  {
    hide Lo, Hi, EncBe;
    var at := w.LengthAt();
    Store(u, at, th, w.Word());
    assert u[..at] == old(u[..at]);
    assert u[at..at + w.Word()] == EncBe(th, w.Word());
    Store(u, at + w.Word(), tl, w.Word());
    LengthField(w, bits);
    assert u[at..] == EncBe(th, w.Word()) + EncBe(tl, w.Word());
  }

  /** Zeros and marker after the last message byte. */
  method FillUp(u: array<Byte>, ptr: nat, at: nat, last: Byte, full: bool)
    requires ptr < at <= u.Length && u[ptr] == last
    modifies u
    ensures u[ptr..at] == Marked([last] + Zeros(at - ptr - 1), full)
  {
    Clear(u, ptr + 1, at);
    assert u[ptr..at] == [last] + Zeros(at - ptr - 1);
    if full {
      u[at - 1] := u[at - 1] | 1;
    }
  }

  /** Zeros, marker and length after the last message byte. */
  method FinishFitting(w: Width, u: array<Byte>, ptr: nat, ub: Byte, n: nat, full: bool, th: nat, tl: nat,
      ghost bits: nat)
    requires u.Length == w.Size() && ptr < w.Size() && n < 8 && Fits(w, ptr, n)
    requires u[ptr] == LastByte(ub, n) && th == Hi(w, bits) && tl == Lo(w, bits)
    modifies u
    ensures u[ptr..] == Padding(w, ptr, ub, n, full, bits)
  {
    hide LastByte, Lo, Hi, EncBe, Marked;
    FillUp(u, ptr, w.LengthAt(), LastByte(ub, n), full);
    ghost var body := u[ptr..w.LengthAt()];
    ghost var front := u[..w.LengthAt()];
    assert body == front[ptr..];
    StoreLength(w, u, th, tl, bits);
    assert u[ptr..] == front[ptr..] + u[w.LengthAt()..];
  }

  /** Zeros, marker and length in a block of their own. */
  method FinishSpilled(w: Width, u: array<Byte>, full: bool, th: nat, tl: nat, ghost bits: nat)
    requires u.Length == w.Size() && th == Hi(w, bits) && tl == Lo(w, bits)
    modifies u
    ensures u[..] == SecondPart(w, full, bits)
  {
    hide Lo, Hi, EncBe;
    var at := w.LengthAt();
    Clear(u, 0, at);
    if full {
      u[at - 1] := 1;
    }
    assert u[..at] == Marked(Zeros(at), full);
    StoreLength(w, u, th, tl, bits);
    assert u[..] == u[..at] + u[at..];
  }
}
