/** JH: the padded message and its bit length. */
module JH {
  import opened Bytes
  import opened CountedStreams
  import opened Division
  import opened Streams

  const SIZE: nat := 64

  /** The block count has 64 bits, so the bit length is right below this number of bits. */
  const LENGTH_LIMIT: nat := 0x200_0000_0000_0000_0000

  // ---- the specification ----

  function Bits(len: nat, n: nat): nat { 8 * len + n }

  /** A message of whole blocks takes one block of padding, every other message is filled up to two. */
  function LastBlocks(p: nat, n: nat): nat { if p == 0 && n == 0 then 1 else 2 }

  /** A one bit, zeros, and a number of bits as sixteen bytes. */
  function Padding(p: nat, ub: Byte, n: nat, bits: nat): (r: seq<Byte>)
    requires p < SIZE && n < 8
    ensures |r| == LastBlocks(p, n) * SIZE - p
  {
    [LastByte(ub, n)] + Zeros(LastBlocks(p, n) * SIZE - p - 17) + EncBe(bits, 16)
  }

  function PaddedBlocks(len: nat, n: nat): nat { len / SIZE + LastBlocks(len % SIZE, n) }

  /** The message, a one bit, zeros, and the number of message bits. */
  function Padded(msg: seq<Byte>, ub: Byte, n: nat): (r: seq<Byte>)
    requires n < 8
    ensures |r| == PaddedBlocks(|msg|, n) * SIZE
  {
    msg + Padding(|msg| % SIZE, ub, n, Bits(|msg|, n))
  }

  /** What the code hashes: its number of bits comes from a block count that has wrapped around. */
  function Written(msg: seq<Byte>, ub: Byte, n: nat): (r: seq<Byte>)
    requires n < 8
    ensures |r| == PaddedBlocks(|msg|, n) * SIZE
  {
    msg + Padding(|msg| % SIZE, ub, n, Bits(|msg|, n) % LENGTH_LIMIT)
  }

  /** The end of the last 64 bytes of the state, which `out` writes. */
  function TextDigest<H>(f: Compress<H>, out: H -> Half, iv: H, text: seq<Byte>, blocks: nat, words: nat): seq<Byte>
    requires blocks * SIZE <= |text| && words <= 16
  {
    out(Blocks(f, SIZE, iv, text, blocks))[4 * (16 - words)..]
  }

  /** The digest of JH. */
  function Digest<H>(f: Compress<H>, out: H -> Half, iv: H, msg: seq<Byte>, ub: Byte, n: nat, words: nat): seq<Byte>
    requires n < 8 && words <= 16
  {
    TextDigest(f, out, iv, Padded(msg, ub, n), PaddedBlocks(|msg|, n), words)
  }

  /** The digest of the code. */
  function WrittenDigest<H>(f: Compress<H>, out: H -> Half, iv: H, msg: seq<Byte>, ub: Byte, n: nat, words: nat)
    : seq<Byte>
    requires n < 8 && words <= 16
  {
    TextDigest(f, out, iv, Written(msg, ub, n), PaddedBlocks(|msg|, n), words)
  }

  type Half = bs: seq<Byte> | |bs| == 64 witness Zeros(64)

  // ---- the length ----

  /** The two length words of the code are the length as it is encoded. */
  lemma LengthWords(k: nat, low: nat)
    requires low < 512
    ensures var count := k % COUNT_LIMIT;
      EncBe(count / 0x80_0000_0000_0000, 8) + EncBe(count * 512 % COUNT_LIMIT + low, 8)
      == EncBe((512 * k + low) % LENGTH_LIMIT, 16)
  {
    hide EncBe;
    var count := k % COUNT_LIMIT;
    var h, l := count / 0x80_0000_0000_0000, count % 0x80_0000_0000_0000;
    Recomposed(k, COUNT_LIMIT);
    Recomposed(count, 0x80_0000_0000_0000);
    Divided(COUNT_LIMIT, count * 512, h, l * 512);
    Divided(LENGTH_LIMIT, 512 * k + low, k / COUNT_LIMIT, 512 * count + low);
    EightBytes();
    EncBeSplit(h, l * 512 + low, 8, 8);
    assert h * COUNT_LIMIT + (l * 512 + low) == 512 * count + low;
  }

  /** The two length words together are the bit length exactly for messages of fewer than 2^73 bits, whatever the
      number of blocks. */
  lemma LengthExact(k: nat, low: nat)
    requires low < 512
    ensures var count := k % COUNT_LIMIT;
      count / 0x80_0000_0000_0000 * COUNT_LIMIT + (count * 512 % COUNT_LIMIT + low) == 512 * k + low
      <==> 512 * k + low < LENGTH_LIMIT
  {
    var count := k % COUNT_LIMIT;
    var h, l := count / 0x80_0000_0000_0000, count % 0x80_0000_0000_0000;
    Recomposed(k, COUNT_LIMIT);
    Recomposed(count, 0x80_0000_0000_0000);
    Divided(COUNT_LIMIT, count * 512, h, l * 512);
    assert h * COUNT_LIMIT + (l * 512 + low) == 512 * count + low;
    if k < COUNT_LIMIT {
      BelowModulus(COUNT_LIMIT, k);
    }
  }

  /** What sixteen bytes hold. */
  const FIELD_LIMIT: nat := 0x1_0000_0000_0000_0000_0000_0000_0000_0000

  lemma SixteenBytes()
    ensures Pow256(16) == FIELD_LIMIT
  {
    EightBytes();
    assert Pow256(10) == 0x1_0000_0000_0000_0000_0000;
    assert Pow256(12) == 0x1_0000_0000_0000_0000_0000_0000;
    assert Pow256(14) == 0x1_0000_0000_0000_0000_0000_0000_0000;
  }

  /** A number below 2^128 is its own residue modulo 2^73 exactly when it is below 2^73. */
  lemma FieldsAgree(bits: nat)
    ensures EncBe(bits % LENGTH_LIMIT, 16) == EncBe(bits, 16) <==> bits % FIELD_LIMIT < LENGTH_LIMIT
  {
    hide EncBe, Pow256;
    SixteenBytes();
    EncBeInjective(bits % LENGTH_LIMIT, bits, 16);
    BelowModulus(FIELD_LIMIT, bits % LENGTH_LIMIT);
    Recomposed(bits, FIELD_LIMIT);
    var low := bits % FIELD_LIMIT;
    assert bits == bits / FIELD_LIMIT * 0x80_0000_0000_0000 * LENGTH_LIMIT + low;
    if low < LENGTH_LIMIT {
      Divided(LENGTH_LIMIT, bits, bits / FIELD_LIMIT * 0x80_0000_0000_0000, low);
    }
  }

  /** The code hashes the text of JH exactly when the message, measured in 128 bits, has fewer than 2^73 bits. */
  lemma WrittenIsPadded(msg: seq<Byte>, ub: Byte, n: nat)
    requires n < 8
    ensures Written(msg, ub, n) == Padded(msg, ub, n) <==> Bits(|msg|, n) % FIELD_LIMIT < LENGTH_LIMIT
  {
    hide EncBe, LastByte, Zeros;
    var bits := Bits(|msg|, n);
    FieldsAgree(bits);
    var front := msg + [LastByte(ub, n)] + Zeros(LastBlocks(|msg| % SIZE, n) * SIZE - |msg| % SIZE - 17);
    assert Written(msg, ub, n) == front + EncBe(bits % LENGTH_LIMIT, 16);
    assert Padded(msg, ub, n) == front + EncBe(bits, 16);
    assert Written(msg, ub, n)[|front|..] == EncBe(bits % LENGTH_LIMIT, 16);
    assert Padded(msg, ub, n)[|front|..] == EncBe(bits, 16);
  }

  /** A compression that keeps the last block, and a state that is its own output. */
  function Keep(): Compress<seq<Byte>> { (h, block) => block }

  function Whole(): seq<Byte> -> Half { (h: seq<Byte>) => if |h| == 64 then h else Zeros(64) }

  lemma KeptBlock(text: seq<Byte>, k: nat)
    requires k > 0 && |text| == k * SIZE
    ensures TextDigest(Keep(), Whole(), [], text, k, 16) == text[(k - 1) * SIZE..]
  {
    assert text[(k - 1) * SIZE..k * SIZE] == text[(k - 1) * SIZE..];
  }

  /** The bound is sharp for digests too: some compression tells the two texts apart whenever they differ. */
  lemma LongerDiffers(msg: seq<Byte>, ub: Byte, n: nat)
    requires n < 8
    ensures WrittenDigest(Keep(), Whole(), [], msg, ub, n, 16) == Digest(Keep(), Whole(), [], msg, ub, n, 16)
            <==> Bits(|msg|, n) % FIELD_LIMIT < LENGTH_LIMIT
  {
    var k := PaddedBlocks(|msg|, n);
    var written, padded := Written(msg, ub, n), Padded(msg, ub, n);
    WrittenIsPadded(msg, ub, n);
    KeptBlock(written, k);
    KeptBlock(padded, k);
    SameFront(msg, ub, n);
    hide TextDigest, Written, Padded;
    if written[(k - 1) * SIZE..] == padded[(k - 1) * SIZE..] {
      assert written == written[..(k - 1) * SIZE] + written[(k - 1) * SIZE..];
      assert padded == padded[..(k - 1) * SIZE] + padded[(k - 1) * SIZE..];
    }
  }

  /** 2^70 zero bytes are the first such message. */
  lemma AtTheLimit() returns (msg: seq<Byte>)
    ensures Bits(|msg|, 0) == LENGTH_LIMIT
    ensures WrittenDigest(Keep(), Whole(), [], msg, 0, 0, 16) != Digest(Keep(), Whole(), [], msg, 0, 0, 16)
  {
    hide WrittenDigest, Digest;
    msg := Zeros(0x40_0000_0000_0000_0000);
    LongerDiffers(msg, 0, 0);
  }

  lemma SameFront(msg: seq<Byte>, ub: Byte, n: nat)
    requires n < 8
    ensures var k := PaddedBlocks(|msg|, n);
      k > 0 && Written(msg, ub, n)[..(k - 1) * SIZE] == Padded(msg, ub, n)[..(k - 1) * SIZE]
  {
    hide EncBe, LastByte, Zeros;
    var bits := Bits(|msg|, n);
    var front := msg + [LastByte(ub, n)] + Zeros(LastBlocks(|msg| % SIZE, n) * SIZE - |msg| % SIZE - 17);
    assert Written(msg, ub, n) == front + EncBe(bits % LENGTH_LIMIT, 16);
    assert Padded(msg, ub, n) == front + EncBe(bits, 16);
  }

  // ---- the code ----

  /** The padding is built in a buffer of its own, with arbitrary contents at first. */
  method MakePadding(ptr: nat, ub: Byte, n: nat, l1: nat, l0: nat, ghost bits: nat) returns (r: seq<Byte>)
    requires ptr < SIZE && n < 8
    requires EncBe(l1, 8) + EncBe(l0, 8) == EncBe(bits, 16)
    ensures r == Padding(ptr, ub, n, bits)
  {
    hide LastByte, EncBe, Zeros;
    var buf := new Byte[128];
    var numz;
    if ptr == 0 && n == 0 {
      numz := 47;
    } else {
      numz := 111 - ptr;
    }
    MarkAndClear(buf, numz + 1, ub, n);
    ghost var front := buf[..numz + 1];
    Store(buf, numz + 1, l1, 8);
    assert buf[..numz + 9] == front + EncBe(l1, 8);
    ghost var more := buf[..numz + 9];
    Store(buf, numz + 9, l0, 8);
    assert buf[..numz + 17] == more + EncBe(l0, 8);
    assert front + EncBe(l1, 8) + EncBe(l0, 8) == front + (EncBe(l1, 8) + EncBe(l0, 8));
    r := buf[..numz + 17];
  }

  /** `jh_close`, for a message that ends with the `n` high bits of `ub`; then the context starts afresh. */
  method Close<H>(ctx: Context<H>, out: H -> Half, ub: Byte, n: nat, words: nat) returns (dst: seq<Byte>)
    requires ctx.Valid() && ctx.size == SIZE && n < 8 && words <= 16
    modifies ctx, ctx.sc, ctx.sc.buf
    ensures dst == WrittenDigest(ctx.f, out, ctx.iv, old(ctx.msg), ub, n, words)
    ensures Bits(|old(ctx.msg)|, n) < LENGTH_LIMIT ==>
      dst == Digest(ctx.f, out, ctx.iv, old(ctx.msg), ub, n, words)
    ensures ctx.Valid() && ctx.msg == []
  {
    hide LastByte, Counting, Blocks, EncBe, Padding, Padded, Streamed;
    var ptr := ctx.sc.ptr;
    ctx.Counted();
    LengthWords(|ctx.msg| / SIZE, 8 * ptr + n);
    var l0 := ctx.sc.state.count * 512 % COUNT_LIMIT + 8 * ptr + n;
    var l1 := ctx.sc.state.count / 0x80_0000_0000_0000;
    var pad := MakePadding(ptr, ub, n, l1, l0, Bits(|ctx.msg|, n) % LENGTH_LIMIT);
    assert ctx.msg + pad == Written(ctx.msg, ub, n);
    BelowField(ctx.msg, ub, n);
    ctx.FeedPadding(pad, PaddedBlocks(|ctx.msg|, n));
    dst := out(ctx.sc.state.h)[4 * (16 - words)..];
    ctx.Restart();
  }

  lemma BelowField(msg: seq<Byte>, ub: Byte, n: nat)
    requires n < 8
    ensures Bits(|msg|, n) < LENGTH_LIMIT ==> Written(msg, ub, n) == Padded(msg, ub, n)
  {
    hide Written, Padded;
    WrittenIsPadded(msg, ub, n);
    if Bits(|msg|, n) < LENGTH_LIMIT {
      BelowModulus(FIELD_LIMIT, Bits(|msg|, n));
    }
  }
}
