/** CubeHash: rounds without word swaps, and the padded message. */
module CubeHash {
  import opened Bytes
  import opened Division
  import opened Streams

  type Word = bv32

  function Add(x: Word, y: Word): Word { x + y }

  function Rotl(x: Word, n: nat): Word
    requires n < 32
  {
    x.RotateLeft(n)
  }

  function Xor(x: Word, y: Word): Word { x ^ y }

  /** Half of the state: the words whose index starts with the same bit. */
  datatype Row = Row(w0: Word, w1: Word, w2: Word, w3: Word, w4: Word, w5: Word, w6: Word, w7: Word,
                     w8: Word, w9: Word, wa: Word, wb: Word, wc: Word, wd: Word, we: Word, wf: Word)

  /** `a` holds words 0 to 15 (`x0` .. `xf`), `b` words 16 to 31 (`xg` .. `xv`). */
  datatype State = State(a: Row, b: Row)

  // ---- the specification: ten steps a round, four of them swaps ----

  function Added(r: Row, q: Row): Row {
    Row(Add(r.w0, q.w0), Add(r.w1, q.w1), Add(r.w2, q.w2), Add(r.w3, q.w3),
        Add(r.w4, q.w4), Add(r.w5, q.w5), Add(r.w6, q.w6), Add(r.w7, q.w7),
        Add(r.w8, q.w8), Add(r.w9, q.w9), Add(r.wa, q.wa), Add(r.wb, q.wb),
        Add(r.wc, q.wc), Add(r.wd, q.wd), Add(r.we, q.we), Add(r.wf, q.wf))
  }

  function Rotated(r: Row, n: nat): Row
    requires n < 32
  {
    Row(Rotl(r.w0, n), Rotl(r.w1, n), Rotl(r.w2, n), Rotl(r.w3, n),
        Rotl(r.w4, n), Rotl(r.w5, n), Rotl(r.w6, n), Rotl(r.w7, n),
        Rotl(r.w8, n), Rotl(r.w9, n), Rotl(r.wa, n), Rotl(r.wb, n),
        Rotl(r.wc, n), Rotl(r.wd, n), Rotl(r.we, n), Rotl(r.wf, n))
  }

  function Xored(r: Row, q: Row): Row {
    Row(Xor(r.w0, q.w0), Xor(r.w1, q.w1), Xor(r.w2, q.w2), Xor(r.w3, q.w3),
        Xor(r.w4, q.w4), Xor(r.w5, q.w5), Xor(r.w6, q.w6), Xor(r.w7, q.w7),
        Xor(r.w8, q.w8), Xor(r.w9, q.w9), Xor(r.wa, q.wa), Xor(r.wb, q.wb),
        Xor(r.wc, q.wc), Xor(r.wd, q.wd), Xor(r.we, q.we), Xor(r.wf, q.wf))
  }

  /** Swap each word with the one whose index differs in the first, second, third or fourth of its four bits. */
  function Swap1(r: Row): Row {
    Row(r.w8, r.w9, r.wa, r.wb, r.wc, r.wd, r.we, r.wf, r.w0, r.w1, r.w2, r.w3, r.w4, r.w5, r.w6, r.w7)
  }

  function Swap2(r: Row): Row {
    Row(r.w4, r.w5, r.w6, r.w7, r.w0, r.w1, r.w2, r.w3, r.wc, r.wd, r.we, r.wf, r.w8, r.w9, r.wa, r.wb)
  }

  function Swap3(r: Row): Row {
    Row(r.w2, r.w3, r.w0, r.w1, r.w6, r.w7, r.w4, r.w5, r.wa, r.wb, r.w8, r.w9, r.we, r.wf, r.wc, r.wd)
  }

  function Swap4(r: Row): Row {
    Row(r.w1, r.w0, r.w3, r.w2, r.w5, r.w4, r.w7, r.w6, r.w9, r.w8, r.wb, r.wa, r.wd, r.wc, r.wf, r.we)
  }

  function Round(s: State): State {
    var b1 := Added(s.a, s.b);
    var a1 := Xored(Swap1(Rotated(s.a, 7)), b1);
    var b2 := Added(a1, Swap3(b1));
    var a2 := Xored(Swap2(Rotated(a1, 11)), b2);
    State(a2, Swap4(b2))
  }

  function Rounds(s: State, k: nat): State {
    if k == 0 then s else Round(Rounds(s, k - 1))
  }

  // ---- the rounds of the code, which never move a word ----

  /** Where the words of a state are after an even round, seen from an odd one: no swap has been carried out. */
  function Renamed(s: State): State {
    State(Swap2(Swap1(s.a)), Swap4(Swap3(s.b)))
  }

  /** `ROUND_EVEN`: one round, with the words left where they were. */
  method RoundEven(s: State) returns (r: State)
    ensures Renamed(r) == Round(s)
  {
    hide Add, Rotl, Xor;
    var State(a, b) := s;
    var Row(x0, x1, x2, x3, x4, x5, x6, x7, x8, x9, xa, xb, xc, xd, xe, xf) := a;
    var Row(xg, xh, xi, xj, xk, xl, xm, xn, xo, xp, xq, xr, xs, xt, xu, xv) := b;
    xg := Add(x0, xg); x0 := Rotl(x0, 7); xh := Add(x1, xh); x1 := Rotl(x1, 7);
    xi := Add(x2, xi); x2 := Rotl(x2, 7); xj := Add(x3, xj); x3 := Rotl(x3, 7);
    xk := Add(x4, xk); x4 := Rotl(x4, 7); xl := Add(x5, xl); x5 := Rotl(x5, 7);
    xm := Add(x6, xm); x6 := Rotl(x6, 7); xn := Add(x7, xn); x7 := Rotl(x7, 7);
    xo := Add(x8, xo); x8 := Rotl(x8, 7); xp := Add(x9, xp); x9 := Rotl(x9, 7);
    xq := Add(xa, xq); xa := Rotl(xa, 7); xr := Add(xb, xr); xb := Rotl(xb, 7);
    xs := Add(xc, xs); xc := Rotl(xc, 7); xt := Add(xd, xt); xd := Rotl(xd, 7);
    xu := Add(xe, xu); xe := Rotl(xe, 7); xv := Add(xf, xv); xf := Rotl(xf, 7);
    x8 := Xor(x8, xg); x9 := Xor(x9, xh); xa := Xor(xa, xi); xb := Xor(xb, xj);
    xc := Xor(xc, xk); xd := Xor(xd, xl); xe := Xor(xe, xm); xf := Xor(xf, xn);
    x0 := Xor(x0, xo); x1 := Xor(x1, xp); x2 := Xor(x2, xq); x3 := Xor(x3, xr);
    x4 := Xor(x4, xs); x5 := Xor(x5, xt); x6 := Xor(x6, xu); x7 := Xor(x7, xv);
    xi := Add(x8, xi); x8 := Rotl(x8, 11); xj := Add(x9, xj); x9 := Rotl(x9, 11);
    xg := Add(xa, xg); xa := Rotl(xa, 11); xh := Add(xb, xh); xb := Rotl(xb, 11);
    xm := Add(xc, xm); xc := Rotl(xc, 11); xn := Add(xd, xn); xd := Rotl(xd, 11);
    xk := Add(xe, xk); xe := Rotl(xe, 11); xl := Add(xf, xl); xf := Rotl(xf, 11);
    xq := Add(x0, xq); x0 := Rotl(x0, 11); xr := Add(x1, xr); x1 := Rotl(x1, 11);
    xo := Add(x2, xo); x2 := Rotl(x2, 11); xp := Add(x3, xp); x3 := Rotl(x3, 11);
    xu := Add(x4, xu); x4 := Rotl(x4, 11); xv := Add(x5, xv); x5 := Rotl(x5, 11);
    xs := Add(x6, xs); x6 := Rotl(x6, 11); xt := Add(x7, xt); x7 := Rotl(x7, 11);
    xc := Xor(xc, xi); xd := Xor(xd, xj); xe := Xor(xe, xg); xf := Xor(xf, xh);
    x8 := Xor(x8, xm); x9 := Xor(x9, xn); xa := Xor(xa, xk); xb := Xor(xb, xl);
    x4 := Xor(x4, xq); x5 := Xor(x5, xr); x6 := Xor(x6, xo); x7 := Xor(x7, xp);
    x0 := Xor(x0, xu); x1 := Xor(x1, xv); x2 := Xor(x2, xs); x3 := Xor(x3, xt);
    r := State(Row(x0, x1, x2, x3, x4, x5, x6, x7, x8, x9, xa, xb, xc, xd, xe, xf),
               Row(xg, xh, xi, xj, xk, xl, xm, xn, xo, xp, xq, xr, xs, xt, xu, xv));
  }

  /** `ROUND_ODD`: one round on renamed words, with the words back in place. */
  method RoundOdd(s: State) returns (r: State)
    ensures r == Round(Renamed(s))
  {
    hide Add, Rotl, Xor;
    var State(a, b) := s;
    var Row(x0, x1, x2, x3, x4, x5, x6, x7, x8, x9, xa, xb, xc, xd, xe, xf) := a;
    var Row(xg, xh, xi, xj, xk, xl, xm, xn, xo, xp, xq, xr, xs, xt, xu, xv) := b;
    xj := Add(xc, xj); xc := Rotl(xc, 7); xi := Add(xd, xi); xd := Rotl(xd, 7);
    xh := Add(xe, xh); xe := Rotl(xe, 7); xg := Add(xf, xg); xf := Rotl(xf, 7);
    xn := Add(x8, xn); x8 := Rotl(x8, 7); xm := Add(x9, xm); x9 := Rotl(x9, 7);
    xl := Add(xa, xl); xa := Rotl(xa, 7); xk := Add(xb, xk); xb := Rotl(xb, 7);
    xr := Add(x4, xr); x4 := Rotl(x4, 7); xq := Add(x5, xq); x5 := Rotl(x5, 7);
    xp := Add(x6, xp); x6 := Rotl(x6, 7); xo := Add(x7, xo); x7 := Rotl(x7, 7);
    xv := Add(x0, xv); x0 := Rotl(x0, 7); xu := Add(x1, xu); x1 := Rotl(x1, 7);
    xt := Add(x2, xt); x2 := Rotl(x2, 7); xs := Add(x3, xs); x3 := Rotl(x3, 7);
    x4 := Xor(x4, xj); x5 := Xor(x5, xi); x6 := Xor(x6, xh); x7 := Xor(x7, xg);
    x0 := Xor(x0, xn); x1 := Xor(x1, xm); x2 := Xor(x2, xl); x3 := Xor(x3, xk);
    xc := Xor(xc, xr); xd := Xor(xd, xq); xe := Xor(xe, xp); xf := Xor(xf, xo);
    x8 := Xor(x8, xv); x9 := Xor(x9, xu); xa := Xor(xa, xt); xb := Xor(xb, xs);
    xh := Add(x4, xh); x4 := Rotl(x4, 11); xg := Add(x5, xg); x5 := Rotl(x5, 11);
    xj := Add(x6, xj); x6 := Rotl(x6, 11); xi := Add(x7, xi); x7 := Rotl(x7, 11);
    xl := Add(x0, xl); x0 := Rotl(x0, 11); xk := Add(x1, xk); x1 := Rotl(x1, 11);
    xn := Add(x2, xn); x2 := Rotl(x2, 11); xm := Add(x3, xm); x3 := Rotl(x3, 11);
    xp := Add(xc, xp); xc := Rotl(xc, 11); xo := Add(xd, xo); xd := Rotl(xd, 11);
    xr := Add(xe, xr); xe := Rotl(xe, 11); xq := Add(xf, xq); xf := Rotl(xf, 11);
    xt := Add(x8, xt); x8 := Rotl(x8, 11); xs := Add(x9, xs); x9 := Rotl(x9, 11);
    xv := Add(xa, xv); xa := Rotl(xa, 11); xu := Add(xb, xu); xb := Rotl(xb, 11);
    x0 := Xor(x0, xh); x1 := Xor(x1, xg); x2 := Xor(x2, xj); x3 := Xor(x3, xi);
    x4 := Xor(x4, xl); x5 := Xor(x5, xk); x6 := Xor(x6, xn); x7 := Xor(x7, xm);
    x8 := Xor(x8, xp); x9 := Xor(x9, xo); xa := Xor(xa, xr); xb := Xor(xb, xq);
    xc := Xor(xc, xt); xd := Xor(xd, xs); xe := Xor(xe, xv); xf := Xor(xf, xu);
    r := State(Row(x0, x1, x2, x3, x4, x5, x6, x7, x8, x9, xa, xb, xc, xd, xe, xf),
               Row(xg, xh, xi, xj, xk, xl, xm, xn, xo, xp, xq, xr, xs, xt, xu, xv));
  }

  /** `SIXTEEN_ROUNDS`, whatever the loop is unrolled to. */
  method SixteenRounds(unroll: nat, s: State) returns (r: State)
    ensures r == Rounds(s, 16)
  {
    hide Round, Renamed;
    r := s;
    if unroll == 2 {
      for j := 0 to 8
        invariant r == Rounds(s, 2 * j)
      {
        r := RoundEven(r);
        r := RoundOdd(r);
      }
    } else if unroll == 4 {
      for j := 0 to 4
        invariant r == Rounds(s, 4 * j)
      {
        r := RoundEven(r);
        r := RoundOdd(r);
        r := RoundEven(r);
        r := RoundOdd(r);
        FourMore(s, 4 * j);
      }
    } else if unroll == 8 {
      for j := 0 to 2
        invariant r == Rounds(s, 8 * j)
      {
        r := RoundEven(r);
        r := RoundOdd(r);
        r := RoundEven(r);
        r := RoundOdd(r);
        FourMore(s, 8 * j);
        r := RoundEven(r);
        r := RoundOdd(r);
        r := RoundEven(r);
        r := RoundOdd(r);
        FourMore(s, 8 * j + 4);
      }
    } else {
      r := RoundEven(r);
      r := RoundOdd(r);
      r := RoundEven(r);
      r := RoundOdd(r);
      FourMore(s, 0);
      r := RoundEven(r);
      r := RoundOdd(r);
      r := RoundEven(r);
      r := RoundOdd(r);
      FourMore(s, 4);
      r := RoundEven(r);
      r := RoundOdd(r);
      r := RoundEven(r);
      r := RoundOdd(r);
      FourMore(s, 8);
      r := RoundEven(r);
      r := RoundOdd(r);
      r := RoundEven(r);
      r := RoundOdd(r);
      FourMore(s, 12);
    }
  }

  lemma FourMore(s: State, k: nat)
    ensures Round(Round(Round(Round(Rounds(s, k))))) == Rounds(s, k + 4)
  {
    hide Round;
    assert Rounds(s, k + 1) == Round(Rounds(s, k));
    assert Rounds(s, k + 3) == Round(Rounds(s, k + 2));
  }

  lemma {:induction false} RoundsJoin(s: State, a: nat, b: nat)
    ensures Rounds(Rounds(s, a), b) == Rounds(s, a + b)
  {
    hide Round;
    if b > 0 {
      RoundsJoin(s, a, b - 1);
    }
  }

  // ---- the hash ----

  const BLOCK: nat := 32

  /** `sph_dec32le_aligned(buf + at)`. */
  function Dec32le(block: seq<Byte>, at: nat): Word
    requires at + 4 <= |block|
  {
    block[at] as Word | (block[at + 1] as Word << 8) | (block[at + 2] as Word << 16) | (block[at + 3] as Word << 24)
  }

  /** `INPUT_BLOCK`. */
  function Absorbed(s: State, block: seq<Byte>): State {
    if |block| != BLOCK then s
    else
      State(s.a.(w0 := Xor(s.a.w0, Dec32le(block, 0)), w1 := Xor(s.a.w1, Dec32le(block, 4)),
                 w2 := Xor(s.a.w2, Dec32le(block, 8)), w3 := Xor(s.a.w3, Dec32le(block, 12)),
                 w4 := Xor(s.a.w4, Dec32le(block, 16)), w5 := Xor(s.a.w5, Dec32le(block, 20)),
                 w6 := Xor(s.a.w6, Dec32le(block, 24)), w7 := Xor(s.a.w7, Dec32le(block, 28))), s.b)
  }

  function Absorbing(): Step<State> { (s: State, block: seq<Byte>) => Rounds(Absorbed(s, block), 16) }

  /** A one bit after the message, then zeros to the end of the block. */
  function Padded(msg: seq<Byte>, ub: Byte, n: nat): (r: seq<Byte>)
    requires n < 8
    ensures |r| == (|msg| / BLOCK + 1) * BLOCK
  {
    msg + [LastByte(ub, n)] + Zeros(BLOCK - 1 - |msg| % BLOCK)
  }

  /** After the last block: flip the last bit of the last word, then ten times sixteen rounds. */
  function Finished(s: State): State {
    Rounds(State(s.a, s.b.(wf := Xor(s.b.wf, 1))), 160)
  }

  function Words(s: State): (r: seq<Word>)
    ensures |r| == 32
  {
    [s.a.w0, s.a.w1, s.a.w2, s.a.w3, s.a.w4, s.a.w5, s.a.w6, s.a.w7,
     s.a.w8, s.a.w9, s.a.wa, s.a.wb, s.a.wc, s.a.wd, s.a.we, s.a.wf,
     s.b.w0, s.b.w1, s.b.w2, s.b.w3, s.b.w4, s.b.w5, s.b.w6, s.b.w7,
     s.b.w8, s.b.w9, s.b.wa, s.b.wb, s.b.wc, s.b.wd, s.b.we, s.b.wf]
  }

  function Output(ws: seq<Word>, k: nat): seq<Byte>
    requires k <= |ws|
  {
    if k == 0 then [] else Output(ws, k - 1) + EncLe(ws[k - 1] as nat, 4)
  }

  function Digest(iv: State, msg: seq<Byte>, ub: Byte, n: nat, words: nat): seq<Byte>
    requires n < 8 && words <= 32
  {
    var text := Padded(msg, ub, n);
    Output(Words(Finished(Blocks(Absorbing(), BLOCK, iv, text, |msg| / BLOCK + 1))), words)
  }

  /** The padding completes the block in which the message ends. */
  lemma LastBlock(iv: State, msg: seq<Byte>, c: Ctx<State>, ub: Byte, n: nat)
    requires n < 8 && Streamed(Absorbing(), BLOCK, iv, msg, c, |msg| / BLOCK)
    ensures Blocks(Absorbing(), BLOCK, iv, Padded(msg, ub, n), |msg| / BLOCK + 1)
         == Rounds(Absorbed(c.state, c.buf + ([LastByte(ub, n)] + Zeros(BLOCK - 1 - |c.buf|))), 16)
  {
    hide LastByte, Rounds, Absorbed;
    var pad := [LastByte(ub, n)] + Zeros(BLOCK - 1 - |c.buf|);
    StreamedBlock(Absorbing(), BLOCK, iv, msg, c, |msg| / BLOCK, pad);
    assert Padded(msg, ub, n) == msg + pad;
  }

  class Context {
    const unroll: nat
    const iv: State
    const sc: Stream<State>
    /** Everything fed so far. */
    ghost var msg: seq<Byte>

    ghost predicate Valid()
      reads this, sc, sc.buf
    {
      && sc.Valid() && sc.size == BLOCK && sc.step == Absorbing()
      && Streamed(Absorbing(), BLOCK, iv, msg, sc.View(), |msg| / BLOCK)
    }

    /** `cubehash_init`. */
    constructor (unroll: nat, iv: State)
      ensures Valid() && fresh(sc) && fresh(sc.buf) && msg == []
      ensures this.unroll == unroll && this.iv == iv
    {
      this.unroll, this.iv, msg := unroll, iv, [];
      sc := new Stream(Absorbing(), BLOCK, iv);
    }

    /** `cubehash_core`. */
    method Update(data: seq<Byte>)
      requires Valid()
      modifies this, sc, sc.buf
      ensures Valid() && msg == old(msg) + data
    {
      hide Absorbing, Blocks, Fed;
      ghost var k := FedIsBlocks(Absorbing(), BLOCK, iv, msg, sc.View(), |msg| / BLOCK, data);
      sc.Core(data);
      msg := msg + data;
      Divided(BLOCK, |msg|, k, |sc.View().buf|);
    }

    /** `cubehash_close`, for a message that ends with the `n` high bits of `ub`. */
    method Close(ub: Byte, n: nat, words: nat) returns (dst: seq<Byte>)
      requires Valid() && n < 8 && words <= 32
      modifies sc, sc.buf
      ensures dst == Digest(iv, msg, ub, n, words)
    {
      hide LastByte, Rounds, Absorbed, Words, Output, Finished, Blocks, Absorbing;
      ghost var before := sc.View();
      var buf, ptr := sc.buf, sc.ptr;
      var z: Byte := 0x80 >> n;
      buf[ptr] := (ub & (0 - z)) | z;
      LastByteIs(ub, n);
      ptr := ptr + 1;
      Clear(buf, ptr, buf.Length);
      assert buf[..] == before.buf + ([LastByte(ub, n)] + Zeros(BLOCK - ptr));
      LastBlock(iv, msg, before, ub, n);
      sc.state := Absorbed(sc.state, buf[..]);
      sc.state := Finish(unroll, sc.state);
      dst := Write(Words(sc.state), words);
    }
  }

  /** The eleven times sixteen rounds that close the hash; the first sixteen belong to the last block. */
  method Finish(unroll: nat, s: State) returns (r: State)
    ensures r == Finished(Rounds(s, 16))
  {
    hide Round, Xor;
    r := s;
    ghost var whole := Rounds(s, 16);
    ghost var flipped := State(whole.a, whole.b.(wf := Xor(whole.b.wf, 1)));
    assert flipped == Rounds(flipped, 0);
    for i := 0 to 11
      invariant i == 0 ==> r == s
      invariant i > 0 ==> r == Rounds(flipped, 16 * (i - 1))
    {
      r := SixteenRounds(unroll, r);
      if i == 0 {
        r := State(r.a, r.b.(wf := Xor(r.b.wf, 1)));
      } else {
        RoundsJoin(flipped, 16 * (i - 1), 16);
      }
    }
  }

  /** The loop that writes the digest. */
  method Write(ws: seq<Word>, words: nat) returns (dst: seq<Byte>)
    requires words <= |ws|
    ensures dst == Output(ws, words)
  {
    dst := [];
    for z := 0 to words
      invariant dst == Output(ws, z)
    {
      dst := dst + EncLe(ws[z] as nat, 4);
    }
  }
}
