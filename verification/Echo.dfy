/** ECHO: the 128-bit counter in four words, and the padded message. */
module Echo {
  import opened Bytes
  import opened Counters
  import opened Division
  import opened Streams

  /** ECHO-224/256 work on 192-byte blocks, ECHO-384/512 on 128-byte blocks. */
  datatype Width = Small | Big {
    function Size(): nat { match this case Small => 192 case Big => 128 }
    function BlockBits(): nat { match this case Small => 1536 case Big => 1024 }
  }

  const WORD: nat := 0x1_0000_0000

  /** `C0` to `C3`. */
  datatype Counter = Counter(c0: nat, c1: nat, c2: nat, c3: nat)

  const ZERO: Counter := Counter(0, 0, 0, 0)

  /** The four words of a bit count. */
  function CounterOf(x: nat): Counter {
    var q1 := x / WORD;
    var q2 := q1 / WORD;
    var q3 := q2 / WORD;
    Counter(x % WORD, q1 % WORD, q2 % WORD, q3 % WORD)
  }

  /** `INCR_COUNTER`: add to the lowest word, and carry as far as words become zero. */
  function Incr(c: Counter, val: nat): Counter {
    var c0 := (c.c0 + val) % WORD;
    if c0 >= val then c.(c0 := c0)
    else
      var c1 := (c.c1 + 1) % WORD;
      if c1 != 0 then Counter(c0, c1, c.c2, c.c3)
      else
        var c2 := (c.c2 + 1) % WORD;
        if c2 != 0 then Counter(c0, c1, c2, c.c3)
        else Counter(c0, c1, c2, (c.c3 + 1) % WORD)
  }

  /** One digit of a carry: it stops unless the digit becomes zero. */
  lemma CarryDigit(q: nat)
    ensures (q % WORD + 1) % WORD == (q + 1) % WORD
    ensures (q + 1) / WORD == if (q + 1) % WORD == 0 then q / WORD + 1 else q / WORD
  {
    Carry(WORD, q);
    if q % WORD + 1 < WORD {
      LowPart(WORD, q, 1);
    } else {
      HighPart(WORD, q, 1);
    }
  }

  /** The four words together count. */
  lemma IncrCounts(x: nat, val: nat)
    requires val < WORD
    ensures Incr(CounterOf(x), val) == CounterOf(x + val)
  {
    var q1 := x / WORD;
    if x % WORD + val < WORD {
      LowPart(WORD, x, val);
      BelowModulus(WORD, x % WORD + val);
    } else {
      HighPart(WORD, x, val);
      Divided(WORD, x % WORD + val, 1, x % WORD + val - WORD);
      assert (x % WORD + val) % WORD < val;
      CarryDigit(q1);
      CarryDigit(q1 / WORD);
      CarryDigit(q1 / WORD / WORD);
    }
  }

  datatype State<V> = State(v: V, c: Counter)

  /** The compression function: state, block and counter. */
  type Compress<!V> = (V, seq<Byte>, Counter) -> V

  function Counting<V>(w: Width, f: Compress<V>): Step<State<V>> {
    (s: State<V>, b: seq<Byte>) => var c := Incr(s.c, w.BlockBits()); State(f(s.v, b, c), c)
  }

  // ---- the specification ----

  function Bits(len: nat, n: nat): nat { 8 * len + n }

  /** How many blocks the last bits of a message take up, with the padding. */
  function LastBlocks(w: Width, p: nat): nat { if p + 1 > w.Size() - 18 then 2 else 1 }

  /** A one bit, zeros, the digest size in bits as two bytes and the message size in bits as sixteen. */
  function Padding(w: Width, p: nat, ub: Byte, n: nat, words: nat, bits: nat): (r: seq<Byte>)
    requires p < w.Size() && n < 8
    ensures |r| == LastBlocks(w, p) * w.Size() - p
  {
    [LastByte(ub, n)] + Zeros(LastBlocks(w, p) * w.Size() - p - 19) + EncLe(32 * words, 2) + EncLe(bits, 16)
  }

  function PaddedBlocks(w: Width, len: nat): nat { len / w.Size() + LastBlocks(w, len % w.Size()) }

  function Padded(w: Width, msg: seq<Byte>, ub: Byte, n: nat, words: nat): (r: seq<Byte>)
    requires n < 8
    ensures |r| == PaddedBlocks(w, |msg|) * w.Size()
  {
    Recomposed(|msg|, w.Size());
    assert PaddedBlocks(w, |msg|) * w.Size()
        == |msg| / w.Size() * w.Size() + LastBlocks(w, |msg| % w.Size()) * w.Size();
    msg + Padding(w, |msg| % w.Size(), ub, n, words, Bits(|msg|, n))
  }

  function Hash<V>(w: Width, f: Compress<V>, iv: V, text: seq<Byte>, bits: nat, i: nat): V
    requires i * w.Size() <= |text|
  {
    if i == 0 then iv
    else
      assert (i - 1) * w.Size() <= i * w.Size();
      f(Hash(w, f, iv, text, bits, i - 1), Block(text, w.Size(), i - 1), CounterOf(Count(w.BlockBits(), bits, i - 1)))
  }

  /** The digest is the first words of the state, which `out` writes. */
  function Digest<V>(w: Width, f: Compress<V>, out: V -> seq<Byte>, iv: V, msg: seq<Byte>, ub: Byte, n: nat, words: nat)
    : seq<Byte>
    requires n < 8
  {
    Head(out(Hash(w, f, iv, Padded(w, msg, ub, n, words), Bits(|msg|, n), PaddedBlocks(w, |msg|))), 4 * words)
  }

  function Head(bs: seq<Byte>, len: nat): seq<Byte> { if len <= |bs| then bs[..len] else bs }

  // ---- the counter over the message ----

  lemma BlockBitsSize(w: Width, k: nat)
    ensures w.BlockBits() * k == 8 * (k * w.Size()) && w.BlockBits() * (k + 1) == w.BlockBits() * k + w.BlockBits()
  {
    match w case Small => case Big =>
  }

  lemma ZeroCounter()
    ensures CounterOf(0) == ZERO
  {
    BelowModulus(WORD, 0);
  }

  /** Blocks full of message bits: the running counter is the specified one. */
  lemma {:induction false} MessageBlocks<V>(w: Width, f: Compress<V>, iv: V, text: seq<Byte>, bits: nat, k: nat)
    requires k * w.Size() <= |text| && w.BlockBits() * k <= bits
    ensures Blocks(Counting(w, f), w.Size(), State(iv, ZERO), text, k)
         == State(Hash(w, f, iv, text, bits, k), CounterOf(w.BlockBits() * k))
  {
    hide Incr, CounterOf;
    if k == 0 {
      ZeroCounter();
    } else {
      assert (k - 1) * w.Size() <= k * w.Size();
      BlockBitsSize(w, k - 1);
      MessageBlocks(w, f, iv, text, bits, k - 1);
      IncrCounts(w.BlockBits() * (k - 1), w.BlockBits());
      assert Count(w.BlockBits(), bits, k - 1) == w.BlockBits() * k;
    }
  }

  /** The counter as bytes is the length field. */
  lemma CounterBytes(x: nat)
    ensures var c := CounterOf(x);
      EncLe(c.c0, 4) + EncLe(c.c1, 4) + EncLe(c.c2, 4) + EncLe(c.c3, 4) == EncLe(x, 16)
  {
    hide EncLe;
    FourBytes();
    var q1 := x / WORD;
    var q2 := q1 / WORD;
    var q3 := q2 / WORD;
    Recomposed(x, WORD);
    Recomposed(q1, WORD);
    Recomposed(q2, WORD);
    Recomposed(q3, WORD);
    EncLeSplit(q1, x % WORD, 12, 4);
    EncLeSplit(q2, q1 % WORD, 8, 4);
    EncLeSplit(q3, q2 % WORD, 4, 4);
    LowBytesLe(q3, q3 / WORD, q3 % WORD, 4);
    var a, b, c, d := EncLe(x % WORD, 4), EncLe(q1 % WORD, 4), EncLe(q2 % WORD, 4), EncLe(q3 % WORD, 4);
    assert a + (b + (c + d)) == a + b + c + d;
  }

  // ---- the code ----

  /** The state after the message's whole blocks is the specified one, whatever follows them. */
  lemma BeforeLast<V>(w: Width, f: Compress<V>, iv: V, msg: seq<Byte>, pad: seq<Byte>, bits: nat, k: nat)
    requires k * w.Size() <= |msg| && w.BlockBits() * k <= bits
    ensures k * w.Size() <= |msg + pad|
    ensures Blocks(Counting(w, f), w.Size(), State(iv, ZERO), msg, k)
         == State(Hash(w, f, iv, msg + pad, bits, k), CounterOf(w.BlockBits() * k))
  {
    hide Incr, CounterOf, Hash, Blocks;
    BlocksPrefix(Counting(w, f), w.Size(), State(iv, ZERO), msg, pad, k);
    MessageBlocks(w, f, iv, msg + pad, bits, k);
  }

  /** One block more of the specified hash. */
  lemma NextBlock<V>(w: Width, f: Compress<V>, iv: V, text: seq<Byte>, bits: nat, k: nat, block: seq<Byte>)
    requires k * w.Size() <= (k + 1) * w.Size() <= |text| && block == Block(text, w.Size(), k)
    ensures f(Hash(w, f, iv, text, bits, k), block, CounterOf(Count(w.BlockBits(), bits, k)))
         == Hash(w, f, iv, text, bits, k + 1)
  {
    hide CounterOf, Count, Block;
  }

  /** The blocks of a message of `k` whole blocks and `p` bytes, padded. */
  lemma LastTexts(w: Width, msg: seq<Byte>, k: nat, p: nat, pad: seq<Byte>)
    requires |msg| == k * w.Size() + p && p < w.Size() && |pad| >= w.Size() - p
    ensures (k + 1) * w.Size() <= |msg + pad|
    ensures Block(msg + pad, w.Size(), k) == msg[k * w.Size()..] + pad[..w.Size() - p]
    ensures |pad| == 2 * w.Size() - p ==>
      |msg + pad| == (k + 2) * w.Size() && Block(msg + pad, w.Size(), k + 1) == pad[w.Size() - p..]
  {
    assert (k + 1) * w.Size() == k * w.Size() + w.Size() && (k + 2) * w.Size() == (k + 1) * w.Size() + w.Size();
    SliceAcross(msg, pad, k * w.Size(), (k + 1) * w.Size());
    if |pad| == 2 * w.Size() - p {
      SliceOfSecond(msg, pad, (k + 1) * w.Size(), (k + 2) * w.Size());
      assert pad[w.Size() - p..|pad|] == pad[w.Size() - p..];
    }
  }

  /** Padding that spills over. */
  lemma SpillPadding(w: Width, p: nat, ub: Byte, n: nat, words: nat, bits: nat)
    requires p < w.Size() && n < 8 && p + 1 > w.Size() - 18
    ensures var pad := Padding(w, p, ub, n, words, bits);
      && pad[..w.Size() - p] == [LastByte(ub, n)] + Zeros(w.Size() - p - 1)
      && pad[w.Size() - p..] == Zeros(w.Size() - 18) + EncLe(32 * words, 2) + EncLe(bits, 16)
  {
    hide LastByte, EncLe;
  }

  lemma PaddedIs(w: Width, msg: seq<Byte>, ub: Byte, n: nat, words: nat, p: nat)
    requires n < 8 && p == |msg| % w.Size()
    ensures Padded(w, msg, ub, n, words) == msg + Padding(w, p, ub, n, words, Bits(|msg|, n))
    ensures PaddedBlocks(w, |msg|) == |msg| / w.Size() + LastBlocks(w, p)
  {
    hide Padding;
  }

  /** Behind the block in which the message ends, there is a block without message bits. */
  lemma NoBitsBehind(w: Width, len: nat, n: nat, k: nat, p: nat)
    requires len == k * w.Size() + p && p < w.Size() && n < 8
    ensures Count(w.BlockBits(), Bits(len, n), k + 1) == 0
  {
    BlockBitsSize(w, k);
    LastCount(w.BlockBits(), k, 8 * p + n);
  }

  class Context<V> {
    const w: Width
    const f: Compress<V>
    const iv: V
    const sc: Stream<State<V>>
    /** Everything fed so far. */
    ghost var msg: seq<Byte>

    ghost predicate Valid()
      reads this, sc, sc.buf
    {
      && sc.Valid() && sc.size == w.Size() && sc.step == Counting(w, f)
      && Streamed(Counting(w, f), w.Size(), State(iv, ZERO), msg, sc.View(), |msg| / w.Size())
    }

    /** `echo_small_init` and `echo_big_init`. */
    constructor (w: Width, f: Compress<V>, iv: V)
      ensures Valid() && fresh(sc) && fresh(sc.buf) && msg == []
      ensures this.w == w && this.f == f && this.iv == iv
    {
      this.w, this.f, this.iv, msg := w, f, iv, [];
      sc := new Stream(Counting(w, f), w.Size(), State(iv, ZERO));
    }

    /** `echo_small_core` and `echo_big_core`. */
    method Update(data: seq<Byte>)
      requires Valid()
      modifies this, sc, sc.buf
      ensures Valid() && msg == old(msg) + data
    {
      hide Counting, Blocks, Fed;
      ghost var k := FedIsBlocks(Counting(w, f), w.Size(), State(iv, ZERO), msg, sc.View(), |msg| / w.Size(), data);
      sc.Core(data);
      msg := msg + data;
      Divided(w.Size(), |msg|, k, |sc.View().buf|);
    }

    /** `echo_small_compress` and `echo_big_compress`: the buffer and the counter as they are. */
    method CompressBuffer(ghost text: seq<Byte>, ghost bits: nat, ghost k: nat)
      requires k * w.Size() <= (k + 1) * w.Size() <= |text| && sc.buf[..] == Block(text, w.Size(), k)
      requires sc.state.v == Hash(w, f, iv, text, bits, k)
      requires sc.state.c == CounterOf(Count(w.BlockBits(), bits, k))
      modifies sc`state
      ensures sc.state.v == Hash(w, f, iv, text, bits, k + 1) && sc.state.c == old(sc.state.c)
    {
      hide Hash, CounterOf, Count;
      NextBlock(w, f, iv, text, bits, k, sc.buf[..]);
      sc.state := State(f(sc.state.v, sc.buf[..], sc.state.c), sc.state.c);
    }

    /** The last message byte is in the buffer, and the counter is that of its block. */
    ghost predicate Marked(text: seq<Byte>, ub: Byte, n: nat, bits: nat, k: nat)
      requires n < 8
      reads this, sc, sc.buf
    {
      && sc.Valid() && sc.size == w.Size() && |msg| == k * w.Size() + sc.ptr
      && sc.buf[..sc.ptr + 1] == msg[k * w.Size()..] + [LastByte(ub, n)]
      && k * w.Size() <= |text| && sc.state.v == Hash(w, f, iv, text, bits, k)
      && sc.state.c == CounterOf(Count(w.BlockBits(), bits, k))
    }

    /** Zeros, the digest size and the message size to the end of the buffer. */
    method PutSizes(at: nat, words: nat, tmp: seq<Byte>)
      requires sc.buf.Length == w.Size() && at + 18 <= w.Size() && |tmp| == 16
      modifies sc.buf
      ensures sc.buf[..] == old(sc.buf[..at]) + Zeros(w.Size() - 18 - at) + EncLe(32 * words, 2) + tmp
    {
      hide EncLe, Zeros;
      var buf := sc.buf;
      Clear(buf, at, buf.Length - 18);
      ghost var front := buf[..buf.Length - 18];
      assert front == old(buf[..at]) + Zeros(w.Size() - 18 - at);
      Put(buf, buf.Length - 18, EncLe(32 * words, 2));
      assert buf[..buf.Length - 16] == front + EncLe(32 * words, 2);
      ghost var more := buf[..buf.Length - 16];
      Put(buf, buf.Length - 16, tmp);
      assert buf[..] == more + tmp;
    }

    method FinishFitting(ub: Byte, n: nat, words: nat, tmp: seq<Byte>, ghost bits: nat, ghost k: nat)
      requires n < 8 && sc.ptr < w.Size() && sc.ptr + 1 <= w.Size() - 18 && tmp == EncLe(bits, 16)
      requires Marked(msg + Padding(w, sc.ptr, ub, n, words, bits), ub, n, bits, k)
      modifies sc`state, sc.buf
      ensures (k + 1) * w.Size() <= |msg + Padding(w, sc.ptr, ub, n, words, bits)|
      ensures sc.state.v == Hash(w, f, iv, msg + Padding(w, sc.ptr, ub, n, words, bits), bits, k + 1)
    {
      hide LastByte, EncLe, Hash, CounterOf, Count, Zeros;
      ghost var pad := Padding(w, sc.ptr, ub, n, words, bits);
      ghost var front := sc.buf[..sc.ptr + 1];
      PutSizes(sc.ptr + 1, words, tmp);
      assert sc.buf[..] == front + Zeros(w.Size() - 19 - sc.ptr) + EncLe(32 * words, 2) + tmp;
      assert sc.buf[..] == msg[k * w.Size()..] + pad;
      LastTexts(w, msg, k, sc.ptr, pad);
      assert pad[..w.Size() - sc.ptr] == pad;
      CompressBuffer(msg + pad, bits, k);
    }

    /** Zeros behind the last message byte. */
    method ClearRest(ghost front: seq<Byte>, ub: Byte, n: nat)
      requires n < 8 && sc.Valid() && sc.buf[..sc.ptr + 1] == front + [LastByte(ub, n)]
      modifies sc.buf
      ensures sc.buf[..] == front + ([LastByte(ub, n)] + Zeros(sc.buf.Length - sc.ptr - 1))
    {
      hide LastByte, Zeros;
      ghost var marked := sc.buf[..sc.ptr + 1];
      Clear(sc.buf, sc.ptr + 1, sc.buf.Length);
      assert sc.buf[..] == marked + Zeros(sc.buf.Length - sc.ptr - 1);
    }

    method FinishSpilling(ub: Byte, n: nat, words: nat, tmp: seq<Byte>, ghost bits: nat, ghost k: nat)
      requires n < 8 && sc.ptr < w.Size() && sc.ptr + 1 > w.Size() - 18 && tmp == EncLe(bits, 16)
      requires Marked(msg + Padding(w, sc.ptr, ub, n, words, bits), ub, n, bits, k)
      requires Count(w.BlockBits(), bits, k + 1) == 0
      modifies sc`state, sc.buf
      ensures (k + 2) * w.Size() <= |msg + Padding(w, sc.ptr, ub, n, words, bits)|
      ensures sc.state.v == Hash(w, f, iv, msg + Padding(w, sc.ptr, ub, n, words, bits), bits, k + 2)
    {
      hide LastByte, EncLe, Hash, CounterOf, Count, Zeros, Padding;
      ghost var pad := Padding(w, sc.ptr, ub, n, words, bits);
      ghost var front := msg[k * w.Size()..];
      SpillPadding(w, sc.ptr, ub, n, words, bits);
      LastTexts(w, msg, k, sc.ptr, pad);
      ClearRest(front, ub, n);
      CompressBuffer(msg + pad, bits, k);
      sc.state := State(sc.state.v, ZERO);
      ZeroCounter();
      PutSizes(0, words, tmp);
      assert sc.buf[..] == Zeros(w.Size() - 18) + EncLe(32 * words, 2) + tmp;
      CompressBuffer(msg + pad, bits, k + 1);
    }

    /** The first part of the closing: count the message's last bits, and mark its end in the buffer. */
    method MarkMessage(ub: Byte, n: nat, ghost pad: seq<Byte>, ghost bits: nat, ghost k: nat) returns (tmp: seq<Byte>)
      requires Valid() && n < 8 && k == |msg| / w.Size() && bits == Bits(|msg|, n)
      modifies sc`state, sc.buf
      ensures tmp == EncLe(bits, 16) && Marked(msg + pad, ub, n, bits, k)
    {
      hide LastByte, EncLe, Hash, CounterOf, Count, Blocks;
      ghost var before := sc.View().buf;
      Divided(w.Size(), |msg|, k, sc.ptr);
      tmp := CountMessage(n, pad, k);
      PutLast(ub, n);
      assert sc.buf[..sc.ptr + 1] == before + [LastByte(ub, n)];
    }

    /** `echo_small_close` and `echo_big_close`, for a message that ends with the `n` high bits of `ub`; then the
        context starts afresh. */
    method Close(out: V -> seq<Byte>, ub: Byte, n: nat, words: nat) returns (dst: seq<Byte>)
      requires Valid() && n < 8
      modifies this, sc, sc.buf
      ensures dst == Digest(w, f, out, iv, old(msg), ub, n, words)
      ensures Valid() && msg == []
    {
      hide LastByte, EncLe, Hash, CounterOf, Count, Padding, Blocks, Counting, Padded, PaddedBlocks, Head;
      ghost var k := |msg| / w.Size();
      ghost var bits := Bits(|msg|, n);
      Waiting();
      ghost var pad := Padding(w, sc.ptr, ub, n, words, bits);
      var tmp := MarkMessage(ub, n, pad, bits, k);
      Finish(ub, n, words, tmp, bits, k);
      dst := Head(out(sc.state.v), 4 * words);
      Restart();
    }

    /** The bytes that wait are those behind the last whole block. */
    lemma Waiting()
      requires Valid()
      ensures sc.ptr == |msg| % w.Size() && sc.ptr < w.Size() && |msg| == |msg| / w.Size() * w.Size() + sc.ptr
    {
      hide Blocks, Counting;
      Divided(w.Size(), |msg|, |msg| / w.Size(), sc.ptr);
    }

    /** The second part of the closing: the padding fits in the block, or it spills over. */
    method Finish(ub: Byte, n: nat, words: nat, tmp: seq<Byte>, ghost bits: nat, ghost k: nat)
      requires n < 8 && sc.ptr == |msg| % w.Size() && k == |msg| / w.Size() && bits == Bits(|msg|, n)
      requires tmp == EncLe(bits, 16) && Marked(msg + Padding(w, sc.ptr, ub, n, words, bits), ub, n, bits, k)
      modifies sc`state, sc.buf
      ensures sc.state.v == Hash(w, f, iv, Padded(w, msg, ub, n, words), bits, PaddedBlocks(w, |msg|))
    {
      hide LastByte, EncLe, Hash, CounterOf, Count, Padding, Padded, PaddedBlocks, Bits;
      PaddedIs(w, msg, ub, n, words, sc.ptr);
      if sc.ptr + 1 > w.Size() - 18 {
        NoBitsBehind(w, |msg|, n, k, sc.ptr);
        FinishSpilling(ub, n, words, tmp, bits, k);
      } else {
        FinishFitting(ub, n, words, tmp, bits, k);
      }
    }

    method Restart()
      requires sc.Valid() && sc.size == w.Size() && sc.step == Counting(w, f)
      modifies this, sc`state, sc`ptr
      ensures Valid() && msg == []
    {
      sc.state, sc.ptr := State(iv, ZERO), 0;
      msg := [];
    }

    /** The last message byte goes behind the bytes that wait. */
    method PutLast(ub: Byte, n: nat)
      requires sc.Valid() && n < 8
      modifies sc.buf
      ensures sc.buf[..sc.ptr + 1] == old(sc.buf[..sc.ptr]) + [LastByte(ub, n)]
    {
      hide LastByte;
      var z: Byte := 0x80 >> n;
      sc.buf[sc.ptr] := (ub & (0 - z)) | z;
      LastByteIs(ub, n);
    }

    /** Count the message's last bits: the length field, and the counter for the block that they are in. */
    method CountMessage(n: nat, ghost pad: seq<Byte>, ghost k: nat) returns (tmp: seq<Byte>)
      requires Valid() && n < 8 && |msg| == k * w.Size() + sc.ptr && k == |msg| / w.Size()
      modifies sc`state
      ensures tmp == EncLe(Bits(|msg|, n), 16)
      ensures k * w.Size() <= |msg + pad| && sc.state.v == Hash(w, f, iv, msg + pad, Bits(|msg|, n), k)
      ensures sc.state.c == CounterOf(Count(w.BlockBits(), Bits(|msg|, n), k))
    {
      hide EncLe, Hash, CounterOf, Incr, Count, Blocks;
      ghost var bits := Bits(|msg|, n);
      BlockBitsSize(w, k);
      BeforeLast(w, f, iv, msg, pad, bits, k);
      var elen := 8 * sc.ptr + n;
      IncrCounts(w.BlockBits() * k, elen);
      LastCount(w.BlockBits(), k, elen);
      CounterBytes(bits);
      ZeroCounter();
      var c := Incr(sc.state.c, elen);
      tmp := EncLe(c.c0, 4) + EncLe(c.c1, 4) + EncLe(c.c2, 4) + EncLe(c.c3, 4);
      if elen == 0 {
        c := ZERO;
      }
      sc.state := State(sc.state.v, c);
    }
  }
}
