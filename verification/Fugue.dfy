/** Fugue as a streaming hash (src/fugue.c): the held-back word, the resumed switch and the close. */
module Fugue {
  import opened Bytes
  import opened FugueRounds

  const TWO64: nat := 0x1_0000_0000_0000_0000

  /** A byte pushed into a word at the bottom. */
  function Push(w: Word, b: Byte): Word { (w << 8) | (b as bv32) }

  /** Bytes pushed into a word one after the other, the first ones falling off the top. */
  function Be(bs: seq<Byte>): Word {
    if bs == [] then 0 else Push(Be(bs[..|bs| - 1]), bs[|bs| - 1])
  }

  /** `sph_dec32be`. */
  function Dec32be(b0: Byte, b1: Byte, b2: Byte, b3: Byte): Word {
    ((b0 as bv32) << 24) | ((b1 as bv32) << 16) | ((b2 as bv32) << 8) | (b3 as bv32)
  }

  lemma BeNothing()
    ensures Be([]) == 0
  {
  }

  lemma BePush(bs: seq<Byte>, b: Byte)
    ensures Be(bs + [b]) == Push(Be(bs), b)
  {
    hide Push;
    assert (bs + [b])[..|bs|] == bs;
  }

  lemma ShiftFour(a: bv32, b: bv32, c: bv32, d: bv32)
    ensures (((((((0 << 8) | a) << 8) | b) << 8) | c) << 8) | d == (a << 24) | (b << 16) | (c << 8) | d
  {
  }

  lemma PushFour(b0: Byte, b1: Byte, b2: Byte, b3: Byte)
    ensures Push(Push(Push(Push(0, b0), b1), b2), b3) == Dec32be(b0, b1, b2, b3)
  {
    ShiftFour(b0 as bv32, b1 as bv32, b2 as bv32, b3 as bv32);
  }

  lemma BeFour(b0: Byte, b1: Byte, b2: Byte, b3: Byte)
    ensures Be([b0, b1, b2, b3]) == Dec32be(b0, b1, b2, b3)
  {
    hide Push, Dec32be, Be;
    BeNothing();
    BePush([], b0);
    BePush([b0], b1);
    BePush([b0, b1], b2);
    BePush([b0, b1, b2], b3);
    PushFour(b0, b1, b2, b3);
    assert [] + [b0] == [b0] && [b0] + [b1] == [b0, b1] && [b0, b1] + [b2] == [b0, b1, b2];
    assert [b0, b1, b2] + [b3] == [b0, b1, b2, b3];
  }

  /** `sph_enc64be`. */
  function Enc64be(x: nat): (r: seq<Byte>)
    ensures |r| == 8
  {
    EncBe(x, 8)
  }

  // ------------------------------------------------------------------ the hash of a whole message

  /** The plain algorithm: one round for each four bytes. */
  function Absorb(v: Variant, mix: Mixer, s: seq<Word>, bs: seq<Byte>): (r: seq<Word>)
    requires |s| == Size(v) && |bs| % 4 == 0
    ensures |r| == Size(v)
  {
    if bs == [] then s else Round(v, mix, Absorb(v, mix, s, bs[..|bs| - 4]), Be(bs[|bs| - 4..]))
  }

  function InitialState(v: Variant, iv: seq<Word>): (s: seq<Word>)
    requires |iv| <= Size(v)
    ensures |s| == Size(v)
  {
    seq(Size(v) - |iv|, _ => 0) + iv
  }

  /** `~(0xFF >> n)` in eight bits. */
  function TopBits(n: nat): Byte
    requires n < 8
  {
    match n
    case 0 => 0x00 case 1 => 0x80 case 2 => 0xC0 case 3 => 0xE0
    case 4 => 0xF0 case 5 => 0xF8 case 6 => 0xFC case _ => 0xFE
  }

  /** The last byte of a message that ends in `n` more bits, `0 < n < 8`. */
  function LastBits(ub: Byte, n: nat): Byte
    requires n < 8
  {
    ub & TopBits(n)
  }

  /** How many bytes a length lacks to be a multiple of four. */
  function Missing(len: nat): (r: nat)
    ensures r < 4 && (len + r) % 4 == 0
  {
    if len % 4 == 0 then 0 else 4 - len % 4
  }

  /** The trailing bits, and zeros up to a full word. */
  function Filler(len: nat, ub: Byte, n: nat): (r: seq<Byte>)
    requires n < 8
    ensures (len + |r|) % 4 == 0
  {
    if n == 0 then Zeros(Missing(len)) else [LastBits(ub, n)] + Zeros(Missing(len + 1))
  }

  /** The filler, then the bit count. */
  function Padding(len: nat, ub: Byte, n: nat): (r: seq<Byte>)
    requires n < 8
    ensures (len + |r|) % 4 == 0
  {
    var filler := Filler(len, ub, n);
    EightMore(len + |filler|);
    filler + Enc64be(BitCount(len, n))
  }

  /** The bits of `len` bytes and `n` more bits, as a 64-bit number. */
  function BitCount(len: nat, n: nat): nat { (8 * len + n) % TWO64 }

  lemma EightMore(x: nat)
    requires x % 4 == 0
    ensures (x + 8) % 4 == 0
  {
  }

  function Flip(s: seq<Word>, names: seq<nat>): (r: seq<Word>)
    ensures |r| == |s|
  {
    if names == [] then s else Xor(Flip(s, names[..|names| - 1]), names[|names| - 1], 0)
  }

  /** Flip some words by the first one, rotate, mix. */
  function Blend(mix: Mixer, s: seq<Word>, names: seq<nat>, k: nat): (r: seq<Word>)
    requires k <= |s|
    ensures |r| == |s|
  {
    SMIX(mix, ROR(k, Flip(s, names)), 0, 1, 2, 3)
  }

  /** One pass of the second closing loop. */
  function Blended(v: Variant, mix: Mixer, s: seq<Word>): (r: seq<Word>)
    requires |s| == Size(v)
    ensures |r| == Size(v)
  {
    match v
    case Fugue2 => Blend(mix, Blend(mix, s, [4, 15], 15), [4, 16], 14)
    case Fugue3 => Blend(mix, Blend(mix, Blend(mix, s, [4, 12, 24], 12), [4, 13, 24], 12), [4, 13, 25], 11)
    case Fugue4 =>
      Blend(mix, Blend(mix, Blend(mix, Blend(mix, s, [4, 9, 18, 27], 9), [4, 10, 18, 27], 9), [4, 10, 19, 27], 9),
          [4, 10, 19, 28], 8)
  }

  function BlendedTimes(v: Variant, mix: Mixer, s: seq<Word>, k: nat): (r: seq<Word>)
    requires |s| == Size(v)
    ensures |r| == Size(v)
  {
    if k == 0 then s else Blended(v, mix, BlendedTimes(v, mix, s, k - 1))
  }

  function ClosingMixes(v: Variant): nat {
    match v case Fugue2 => 10 case Fugue3 => 18 case Fugue4 => 32
  }

  function OutputWords(v: Variant): seq<nat> {
    match v
    case Fugue2 => [1, 2, 3, 4, 15, 16, 17, 18]
    case Fugue3 => [1, 2, 3, 4, 12, 13, 14, 15, 24, 25, 26, 27]
    case Fugue4 => [1, 2, 3, 4, 9, 10, 11, 12, 18, 19, 20, 21, 27, 28, 29, 30]
  }

  function LastFlips(v: Variant): seq<nat> {
    match v case Fugue2 => [4, 15] case Fugue3 => [4, 12, 24] case Fugue4 => [4, 9, 18, 27]
  }

  function Picked(s: seq<Word>, names: seq<nat>, n: nat): (r: seq<Word>)
    ensures |r| == if n <= |names| then n else |names|
  {
    seq(if n <= |names| then n else |names|, i requires 0 <= i < |names| => At(s, names[i]))
  }

  /** The digest, as big-endian words, of the state after all rounds. */
  function Output(v: Variant, mix: Mixer, s: seq<Word>, outWords: nat): seq<Word>
    requires |s| == Size(v)
  {
    Picked(Flip(BlendedTimes(v, mix, MixTimes(v, mix, s, ClosingMixes(v)), 13), LastFlips(v)), OutputWords(v), outWords)
  }

  /** The digest of a message of `msg` and `n` more bits. */
  function Digest(v: Variant, mix: Mixer, iv: seq<Word>, msg: seq<Byte>, ub: Byte, n: nat, outWords: nat): seq<Word>
    requires |iv| <= Size(v) && n < 8
  {
    Output(v, mix, Absorb(v, mix, InitialState(v, iv), msg + Padding(|msg|, ub, n)), outWords)
  }

  lemma AbsorbWord(v: Variant, mix: Mixer, s: seq<Word>, bs: seq<Byte>, four: seq<Byte>)
    requires |s| == Size(v) && |bs| % 4 == 0 && |four| == 4
    ensures Absorb(v, mix, s, bs + four) == Round(v, mix, Absorb(v, mix, s, bs), Be(four))
  {
    assert (bs + four)[..|bs|] == bs && (bs + four)[|bs|..] == four;
  }

  /** The plain algorithm on the first `end` bytes, one word further. */
  lemma AbsorbNext(v: Variant, mix: Mixer, s: seq<Word>, bs: seq<Byte>, end: nat)
    requires |s| == Size(v) && end % 4 == 0 && end + 4 <= |bs|
    ensures Absorb(v, mix, s, bs[..end + 4]) == Round(v, mix, Absorb(v, mix, s, bs[..end]), Be(bs[end..end + 4]))
  {
    assert bs[..end + 4] == bs[..end] + bs[end..end + 4];
    AbsorbWord(v, mix, s, bs[..end], bs[end..end + 4]);
  }

  lemma BitsAdd(a: nat, b: nat)
    ensures (8 * a % TWO64 + 8 * b) % TWO64 == 8 * (a + b) % TWO64
  {
  }

  // ------------------------------------------------------------------ the streaming context

  class Context {
    const v: Variant
    const mix: Mixer
    const iv: seq<Word>
    var partial: Word
    var partialLen: nat
    var roundShift: nat
    const S: array<Word>
    var bitCount: nat
    /** What has been hashed since the last initialisation. */
    ghost var msg: seq<Byte>

    /** The state as the plain algorithm would have it. */
    ghost function Turned(): seq<Word>
      reads this`roundShift, S
      requires S.Length == Size(v) && roundShift < Cases(v)
    {
      View(v, S[..], Front(v, roundShift))
    }

    /** The first `end` bytes of `bs` are in the state. */
    ghost predicate Absorbed(bs: seq<Byte>, end: int)
      reads this`roundShift, S
    {
      && S.Length == Size(v) && |iv| <= Size(v) && roundShift < Cases(v)
      && 0 <= end <= |bs| && end % 4 == 0
      && Turned() == Absorb(v, mix, InitialState(v, iv), bs[..end])
    }

    ghost predicate Valid()
      reads this, S
    {
      && partialLen <= 4 && partialLen <= |msg|
      && Absorbed(msg, |msg| - partialLen)
      && partial == Be(msg[|msg| - partialLen..])
      && bitCount == 8 * |msg| % TWO64
    }

    constructor (v: Variant, mix: Mixer, iv: seq<Word>)
      requires |iv| <= Size(v)
      ensures Valid() && msg == [] && fresh(S)
      ensures this.v == v && this.mix == mix && this.iv == iv
    {
      this.v, this.mix, this.iv := v, mix, iv;
      S := new Word[Size(v)];
      new;
      hide Absorbed, InitialState, Absorb, Size, Be;
      Init();
    }

    /** The state words of `fugue_init`: zeros, then the initial value. */
    method InitState()
      requires S.Length == Size(v) && |iv| <= Size(v)
      modifies S
      ensures S[..] == InitialState(v, iv)
    {
      var zLen := Size(v) - |iv|;
      forall u | 0 <= u < S.Length { S[u] := if u < zLen then 0 else iv[u - zLen]; }
    }

    /** `fugue_init`. */
    method Init()
      requires S.Length == Size(v) && |iv| <= Size(v)
      modifies this`partial, this`partialLen, this`roundShift, this`bitCount, this`msg, S
      ensures Valid() && msg == []
    {
      hide Be, InitialState, View;
      InitState();
      partial, partialLen, roundShift, bitCount := 0, 0, 0, 0;
      msg := [];
      BeNothing();
      StartView(v, S[..]);
    }

    static lemma StartView(v: Variant, s: seq<Word>)
      requires |s| == Size(v)
      ensures View(v, s, Front(v, 0)) == s
    {
    }

    /** Push the bytes `data[from..to]` into `p`. */
    static method PushBytes(p: Word, ghost before: seq<Byte>, data: seq<Byte>, from: nat, to: nat) returns (q: Word)
      requires from <= to <= |data| && p == Be(before)
      ensures q == Be(before + data[from..to])
    {
      hide Push, Be;
      q := p;
      assert before + data[from..from] == before;
      for i := from to to
        invariant q == Be(before + data[from..i])
      {
        BePush(before + data[from..i], data[i]);
        assert before + data[from..i] + [data[i]] == before + data[from..i + 1];
        q := Push(q, data[i]);
      }
    }

    /** The resumed switch: `p` is processed, then every word of `data[at..]` but the last one to four bytes. */
    method Rounds(p: Word, data: seq<Byte>, at: nat, ghost full: seq<Byte>) returns (rest: nat)
      requires at <= |data| && |full| >= |data| - at + 4 && full[|full| - (|data| - at)..] == data[at..]
      requires Absorbed(full, |full| - (|data| - at) - 4)
      requires p == Be(full[|full| - (|data| - at) - 4..|full| - (|data| - at)])
      modifies this`roundShift, S
      ensures at <= rest <= |data| && |data| - rest <= 4 && (at < |data| ==> rest < |data|)
      ensures Absorbed(full, |full| - (|data| - rest))
    {
      hide CaseOf, View, Absorb, Round, Front, NextCase, Be, Dec32be, Size, Cases, InitialState;
      var word, s, rshift: nat := p, S[..], roundShift;
      rest := at;
      ghost var base: nat := |full| - (|data| - at) - 4;
      while true
        invariant at <= rest <= |data| && (at < |data| ==> rest < |data|)
        invariant base == |full| - (|data| - rest) - 4 && base % 4 == 0
        invariant |s| == Size(v) && rshift < Cases(v)
        invariant word == Be(full[base..base + 4])
        invariant View(v, s, Front(v, rshift)) == Absorb(v, mix, InitialState(v, iv), full[..base])
        decreases |data| - rest
      {
        CaseIsRound(v, mix, rshift, s, word);
        AbsorbNext(v, mix, InitialState(v, iv), full, base);
        s := CaseOf(v, mix, rshift, s, word);
        rshift := NextCase(v, rshift);
        base := base + 4;
        if |data| - rest <= 4 {
          break;
        }
        word := Dec32be(data[rest], data[rest + 1], data[rest + 2], data[rest + 3]);
        NextWord(data, at, rest, full, base);
        rest := rest + 4;
      }
      WriteState(s);
      roundShift := rshift;
    }

    /** `WRITE_STATE`. */
    method WriteState(s: seq<Word>)
      requires |s| == S.Length
      modifies S
      ensures S[..] == s
    {
      forall u | 0 <= u < S.Length { S[u] := s[u]; }
    }

    static lemma NextWord(data: seq<Byte>, at: nat, rest: nat, full: seq<Byte>, base: nat)
      requires at <= rest && rest + 4 <= |data| && |full| >= |data| - at && full[|full| - (|data| - at)..] == data[at..]
      requires base == |full| - (|data| - rest)
      ensures Dec32be(data[rest], data[rest + 1], data[rest + 2], data[rest + 3]) == Be(full[base..base + 4])
    {
      var start := |full| - (|data| - at);
      forall i | base <= i < base + 4 ensures full[i] == data[rest + i - base] {
        assert full[start..][i - start] == data[at..][i - start];
      }
      BeFour(data[rest], data[rest + 1], data[rest + 2], data[rest + 3]);
      assert full[base..base + 4] == [data[rest], data[rest + 1], data[rest + 2], data[rest + 3]];
    }

    /** The end of `CORE_ENTRY` when the data fits into the held-back word. */
    method Keep(data: seq<Byte>, p: Word, plen: nat)
      requires Valid() && plen == partialLen + |data| <= 4 && p == Be(msg[|msg| - partialLen..] + data)
      modifies this`partial, this`partialLen, this`msg, this`bitCount
      ensures Valid() && msg == old(msg) + data && partialLen == plen
    {
      hide View, Absorb, Front, Be, Size, Cases, InitialState;
      BitsAdd(|msg|, |data|);
      bitCount := (bitCount + 8 * |data|) % TWO64;
      assert msg[|msg| - partialLen..] + data == (msg + data)[|msg| - partialLen..];
      assert (msg + data)[..|msg| - partialLen] == msg[..|msg| - partialLen];
      partial, partialLen := p, plen;
      msg := msg + data;
    }

    /** The parts of a message and the data that follow it, around the word that is held back. */
    static lemma JoinedParts(msg: seq<Byte>, data: seq<Byte>, held: nat, pos: nat)
      requires held <= |msg| && pos <= |data|
      ensures (msg + data)[|msg| + pos..] == data[pos..]
      ensures (msg + data)[|msg| - held..|msg| + pos] == msg[|msg| - held..] + data[..pos]
    {
    }

    /** Data behind what has been absorbed does not matter. */
    lemma StillAbsorbed(data: seq<Byte>, end: int)
      requires Absorbed(msg, end)
      ensures Absorbed(msg + data, end)
    {
      hide View, Absorb, Front, Size, Cases, InitialState;
      assert (msg + data)[..end] == msg[..end];
    }

    /** `CORE_EXIT`: the bytes from `rest` on wait for more data. */
    method HoldBack(data: seq<Byte>, rest: nat)
      requires rest <= |data| <= rest + 4 && bitCount == 8 * |msg + data| % TWO64
      requires Absorbed(msg + data, |msg| + rest)
      modifies this`partial, this`partialLen, this`msg
      ensures Valid() && msg == old(msg) + data && partialLen == |data| - rest
    {
      hide Absorbed, Be;
      ghost var full := msg + data;
      BeNothing();
      partialLen := |data| - rest;
      partial := PushBytes(0, [], data, rest, |data|);
      assert [] + data[rest..|data|] == full[|full| - partialLen..];
      msg := full;
    }

    /** What follows `CORE_ENTRY` when more data is left than the held-back word takes. */
    method Go(data: seq<Byte>, p: Word, pos: nat)
      requires Valid() && pos == 4 - partialLen <= |data| && p == Be(msg[|msg| - partialLen..] + data[..pos])
      modifies this, S
      ensures Valid() && msg == old(msg) + data
      ensures pos < |data| ==> partialLen > 0
    {
      hide Absorbed, Be;
      BitsAdd(|msg|, |data|);
      StillAbsorbed(data, |msg| - partialLen);
      bitCount := (bitCount + 8 * |data|) % TWO64;
      ghost var full := msg + data;
      JoinedParts(msg, data, partialLen, pos);
      var rest := Rounds(p, data, pos, full);
      HoldBack(data, rest);
    }

    /** `fugue2_core`, `fugue3_core` and `fugue4_core`. */
    method Core(data: seq<Byte>)
      requires Valid()
      modifies this, S
      ensures Valid() && msg == old(msg) + data
      ensures |data| > 0 ==> partialLen > 0
    {
      hide Be, Absorbed;
      var p, plen, pos := partial, partialLen, 0;
      ghost var held := msg[|msg| - partialLen..];
      assert held + data[..0] == held;
      if plen < 4 {
        var count := 4 - plen;
        if |data| < count {
          count := |data|;
        }
        plen := plen + count;
        p := PushBytes(p, held, data, 0, count);
        pos := count;
        assert data[0..count] == data[..count];
        if pos == |data| {
          assert data[..count] == data;
          Keep(data, p, plen);
          return;
        }
      }
      Go(data, p, pos);
    }

    /** The last byte of the message and zeros, from `plen` to the end of the first word of the buffer. */
    static method FillWord(start: seq<Byte>, plen: nat, last: Byte) returns (buf: seq<Byte>)
      requires |start| == 16 && plen < 4
      ensures |buf| == 16 && buf[plen..] == [last] + Zeros(3 - plen) + start[4..]
    {
      buf := start[plen := last];
      for u := plen + 1 to 4
        invariant |buf| == 16 && buf[plen] == last && buf[4..] == start[4..]
        invariant forall i :: plen < i < u ==> buf[i] == 0
      {
        buf := buf[u := 0];
      }
      assert buf[plen..] == [last] + Zeros(3 - plen) + buf[4..];
    }

    /** `CLOSE_ENTRY` up to the call of the core: trailing bits, zeros and the bit count, into a buffer that
        starts with arbitrary bytes; `plen` is where the bytes to be hashed begin. */
    static method FillBuffer(junk: seq<Byte>, partialLen: nat, bitCount: nat, ghost len: nat, ub: Byte, n: nat)
      returns (buf: seq<Byte>, plen: nat)
      requires |junk| == 16 && n < 8 && partialLen <= 4 && partialLen <= len && (len - partialLen) % 4 == 0
      requires bitCount == 8 * len % TWO64
      ensures |buf| == 16 && plen <= 4 && buf[plen..] == Padding(len, ub, n) + junk[12..]
    {
      hide Enc64be, LastBits, Padding, BitCount, Zeros;
      plen := partialLen;
      CountAdds(len, n);
      PaddingShape(len, ub, n, Enc64be(BitCount(len, n)));
      var count := Enc64be((bitCount + n) % TWO64);
      buf := junk[..4] + count + junk[12..];
      assert buf[4..] == count + junk[12..];
      if plen == 0 && n == 0 {
        plen := 4;
      } else if plen < 4 || n != 0 {
        if plen == 4 {
          plen := 0;
        }
        buf := FillWord(buf, plen, LastBits(ub, n));
        assert [LastBits(ub, n)] + Zeros(3 - plen) + (count + junk[12..])
            == [LastBits(ub, n)] + Zeros(3 - plen) + count + junk[12..];
      }
    }

    static lemma NoBits(ub: Byte)
      ensures LastBits(ub, 0) == 0
    {
    }

    static lemma CountAdds(len: nat, n: nat)
      ensures (8 * len % TWO64 + n) % TWO64 == BitCount(len, n)
    {
    }

    /** The padding, by the number of bytes beyond the last full word. */
    static lemma PaddingShape(len: nat, ub: Byte, n: nat, count: seq<Byte>)
      requires n < 8 && count == Enc64be(BitCount(len, n))
      ensures n == 0 && len % 4 == 0 ==> Padding(len, ub, n) == count
      ensures n != 0 || len % 4 != 0 ==> Padding(len, ub, n) == [LastBits(ub, n)] + Zeros(3 - len % 4) + count
    {
      hide Enc64be, LastBits;
      NoBits(ub);
      if n == 0 {
        assert Zeros(0) == [];
        if len % 4 != 0 {
          assert Zeros(4 - len % 4) == [0] + Zeros(3 - len % 4);
        }
      } else {
        assert Missing(len + 1) == 3 - len % 4;
      }
    }

    /** The copy that undoes the renaming. */
    static lemma Unrotated(v: Variant, s: seq<Word>, c: nat)
      requires |s| == Size(v) && c < Cases(v)
      ensures c * Shift(v) <= Size(v)
      ensures s[Size(v) - c * Shift(v)..] + s[..Size(v) - c * Shift(v)] == View(v, s, Front(v, c))
    {
    }

    /** The loops of `fugue2_close`, `fugue3_close` and `fugue4_close` on the un-rotated state. */
    static method Finish(v: Variant, mix: Mixer, start: seq<Word>, outWords: nat) returns (digest: seq<Word>)
      requires |start| == Size(v)
      ensures digest == Output(v, mix, start, outWords)
    {
      var s := start;
      for i := 0 to ClosingMixes(v)
        invariant s == MixTimes(v, mix, start, i)
      {
        s := RotateAndMix(v, mix, s);
      }
      ghost var mixed := s;
      for i := 0 to 13
        invariant s == BlendedTimes(v, mix, mixed, i)
      {
        s := Blended(v, mix, s);
      }
      digest := Picked(Flip(s, LastFlips(v)), OutputWords(v), outWords);
    }

    /** `fugue2_close`, `fugue3_close` and `fugue4_close`; `junk` is what the buffer holds before it is written. */
    method Close(ub: Byte, n: nat, outWords: nat, junk: seq<Byte>) returns (digest: seq<Word>)
      requires Valid() && n < 8 && |junk| == 16
      modifies this, S
      ensures digest == Digest(v, mix, iv, old(msg), ub, n, outWords)
      ensures Valid() && msg == []
    {
      hide View, Absorb, Front, Be, InitialState, Output, Padding;
      var buf, plen := FillBuffer(junk, partialLen, bitCount, |msg|, ub, n);
      ghost var padded := msg + Padding(|msg|, ub, n);
      Core(buf[plen..]);
      HeldBack(padded);
      var s := Unrotate();
      digest := Finish(v, mix, s, outWords);
      Init();
    }

    /** After the close has hashed its buffer, exactly the buffer's last four bytes are held back. */
    lemma HeldBack(padded: seq<Byte>)
      requires Valid() && partialLen > 0 && |msg| == |padded| + 4 && msg[..|padded|] == padded && |padded| % 4 == 0
      ensures Turned() == Absorb(v, mix, InitialState(v, iv), padded)
    {
      hide View, Absorb, Front, Be, InitialState;
      FourHeld(|padded|, partialLen);
    }

    static lemma FourHeld(n: nat, held: nat)
      requires n % 4 == 0 && 0 < held <= 4 && (n + 4 - held) % 4 == 0
      ensures held == 4
    {
    }

    /** The copies at the end of `CLOSE_ENTRY`. */
    method Unrotate() returns (s: seq<Word>)
      requires S.Length == Size(v) && roundShift < Cases(v)
      ensures s == Turned()
    {
      var rms := roundShift * Shift(v);
      Unrotated(v, S[..], roundShift);
      s := S[Size(v) - rms..] + S[..Size(v) - rms];
    }
  }
}
