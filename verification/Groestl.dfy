/** Groestl: the padded message and its block count. */
module Groestl {
  import opened Bytes
  import opened CountedStreams
  import opened Division
  import opened Streams

  datatype Width = Small | Big {
    function Size(): nat { match this case Small => 64 case Big => 128 }
  }

  // ---- the specification ----

  /** How many blocks the last bits of a message take up, with the padding. */
  function LastBlocks(w: Width, p: nat): nat { if p < w.Size() - 8 then 1 else 2 }

  function Padding(w: Width, p: nat, ub: Byte, n: nat, blocks: nat): (r: seq<Byte>)
    requires p < w.Size() && n < 8
    ensures |r| == LastBlocks(w, p) * w.Size() - p
  {
    [LastByte(ub, n)] + Zeros(LastBlocks(w, p) * w.Size() - p - 9) + EncBe(blocks, 8)
  }

  function PaddedBlocks(w: Width, len: nat): nat { len / w.Size() + LastBlocks(w, len % w.Size()) }

  /** The message, a one bit, zeros, and the number of blocks of the padded text. */
  function Padded(w: Width, msg: seq<Byte>, ub: Byte, n: nat): (r: seq<Byte>)
    requires n < 8
    ensures |r| == PaddedBlocks(w, |msg|) * w.Size()
  {
    Recomposed(|msg|, w.Size());
    assert PaddedBlocks(w, |msg|) * w.Size()
        == |msg| / w.Size() * w.Size() + LastBlocks(w, |msg| % w.Size()) * w.Size();
    msg + Padding(w, |msg| % w.Size(), ub, n, PaddedBlocks(w, |msg|))
  }

  /** The output transformation; the digest is the end of what it yields. */
  type Final<!H> = H -> seq<Byte>

  function Tail(bs: seq<Byte>, len: nat): seq<Byte> { if len <= |bs| then bs[|bs| - len..] else bs }

  function Digest<H>(w: Width, f: Compress<H>, fin: Final<H>, iv: H, msg: seq<Byte>, ub: Byte, n: nat,
      len: nat): seq<Byte>
    requires n < 8
  {
    Tail(fin(Blocks(f, w.Size(), iv, Padded(w, msg, ub, n), PaddedBlocks(w, |msg|))), len)
  }

  // ---- the code ----

  /** The count in the padding is that of all blocks. */
  lemma CountField(k: nat, more: nat)
    ensures EncBe((k % COUNT_LIMIT + more) % COUNT_LIMIT, 8) == EncBe(k + more, 8)
  {
    hide EncBe;
    EightBytes();
    Recomposed(k, COUNT_LIMIT);
    var c := k % COUNT_LIMIT + more;
    Recomposed(c, COUNT_LIMIT);
    var q := k / COUNT_LIMIT + c / COUNT_LIMIT;
    assert k + more == q * COUNT_LIMIT + c % COUNT_LIMIT;
    LowBytes(k + more, q, c % COUNT_LIMIT, 8);
  }

  /** The padding is built in a buffer of its own, with arbitrary contents at first. */
  method MakePadding(w: Width, ptr: nat, ub: Byte, n: nat, padLen: nat, count: nat, ghost blocks: nat)
    returns (r: seq<Byte>)
    requires ptr < w.Size() && n < 8 && padLen == LastBlocks(w, ptr) * w.Size() - ptr
    requires EncBe(count, 8) == EncBe(blocks, 8)
    ensures r == Padding(w, ptr, ub, n, blocks)
  {
    hide LastByte, EncBe, Zeros;
    var pad := new Byte[w.Size() + 8];
    MarkAndClear(pad, padLen - 8, ub, n);
    ghost var front := pad[..padLen - 8];
    Store(pad, padLen - 8, count, 8);
    assert pad[..padLen] == front + EncBe(count, 8);
    r := pad[..padLen];
  }

  /** `groestl_small_close` and `groestl_big_close`, for a message that ends with the `n` high bits of `ub`; the
      digest has `len` bytes; then the context starts afresh. */
  method Close<H>(w: Width, ctx: Context<H>, fin: Final<H>, ub: Byte, n: nat, len: nat) returns (dst: seq<Byte>)
    requires ctx.Valid() && ctx.size == w.Size() && n < 8
    modifies ctx, ctx.sc, ctx.sc.buf
    ensures dst == Digest(w, ctx.f, fin, ctx.iv, old(ctx.msg), ub, n, len)
    ensures ctx.Valid() && ctx.msg == []
  {
    hide LastByte, Counting, Blocks, EncBe, Padding, Streamed;
    var ptr := ctx.sc.ptr;
    ctx.Counted();
    var padLen, count;
    if ptr < w.Size() - 8 {
      padLen := w.Size() - ptr;
      count := (ctx.sc.state.count + 1) % COUNT_LIMIT;
    } else {
      padLen := 2 * w.Size() - ptr;
      count := (ctx.sc.state.count + 2) % COUNT_LIMIT;
    }
    CountField(|ctx.msg| / w.Size(), LastBlocks(w, ptr));
    var pad := MakePadding(w, ptr, ub, n, padLen, count, PaddedBlocks(w, |ctx.msg|));
    assert ctx.msg + pad == Padded(w, ctx.msg, ub, n);
    ctx.FeedPadding(pad, PaddedBlocks(w, |ctx.msg|));
    dst := Tail(fin(ctx.sc.state.h), len);
    ctx.Restart();
  }
}
