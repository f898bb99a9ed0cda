/** The padded texts of the block hashes byte by byte, their fields read back as numbers, and the run of chaining
    values over the blocks of a text up to the words of the digest. */
module HashTexts {
  import opened BlakePadding
  import opened Bytes
  import opened Counters
  import opened Division
  import opened Streams
  import Blake
  import Bmw
  import CountedStreams
  import CubeHash
  import Echo
  import Groestl
  import JH

  /** What the fields of the paddings hold. */
  const TWO16: nat := 0x1_0000
  const TWO32: nat := 0x1_0000_0000
  const TWO64: nat := 0x1_0000_0000_0000_0000
  const TWO73: nat := 0x200_0000_0000_0000_0000
  const TWO128: nat := 0x1_0000_0000_0000_0000_0000_0000_0000_0000

  lemma FieldSizes()
    ensures Pow256(2) == TWO16 && Pow256(4) == TWO32 && Pow256(8) == TWO64 && Pow256(16) == TWO128
  {
    EightBytes();
    JH.SixteenBytes();
    FourBytes();
    assert Pow256(2) == TWO16;
  }

  /** The message, its last `n` bits, a one bit, and as few zeros as fill whole blocks together with the fields at the
      end, which take up `fields` bytes. */
  ghost predicate Text(text: seq<Byte>, msg: seq<Byte>, ub: Byte, n: nat, size: nat, fields: nat)
    requires n < 8 && size > 0
  {
    && |text| % size == 0 && |msg| + 1 + fields <= |text| < |msg| + 1 + fields + size
    && Body(text, msg, ub, n, fields)
  }

  ghost predicate Body(text: seq<Byte>, msg: seq<Byte>, ub: Byte, n: nat, fields: nat)
    requires n < 8
  {
    && |msg| + 1 + fields <= |text| && text[..|msg|] == msg
    && BitsOf(text[|msg|]) == BitsOf(ub)[..n] + [true] + Off(7 - n)
    && forall i :: |msg| < i < |text| - fields ==> text[i] == 0
  }

  lemma BodyIs(msg: seq<Byte>, ub: Byte, n: nat, zeros: nat, field: seq<Byte>)
    requires n < 8
    ensures var text := msg + ([LastByte(ub, n)] + Zeros(zeros) + field);
      Body(text, msg, ub, n, |field|) && text[|text| - |field|..] == field
  {
    LastBits(ub, n);
    hide BitsOf, LastByte, Off;
  }

  lemma WholeBlocks(size: nat, k: nat)
    requires size > 0
    ensures k * size % size == 0 && k * size / size == k
  {
    Divided(size, k * size, k, 0);
  }

  /** Groestl: the field is the number of blocks of the text. */
  lemma GroestlText(w: Groestl.Width, msg: seq<Byte>, ub: Byte, n: nat)
    requires n < 8
    ensures var text, size := Groestl.Padded(w, msg, ub, n), match w case Small => 64 case Big => 128;
      Text(text, msg, ub, n, size, 8) && NumberBe(text[|text| - 8..]) == |text| / size % TWO64
  {
    hide Body, LastByte, EncBe, NumberBe;
    var p, k := |msg| % w.Size(), Groestl.PaddedBlocks(w, |msg|);
    FieldSizes();
    EncBeReads(k, 8);
    WholeBlocks(w.Size(), k);
    BodyIs(msg, ub, n, Groestl.LastBlocks(w, p) * w.Size() - p - 9, EncBe(k, 8));
  }

  /** JH: every message gets at least 65 bytes of padding, unless it is of whole blocks; then it gets one block. The
      field is the number of message bits, of which the code keeps the low 73. */
  lemma JHText(msg: seq<Byte>, ub: Byte, n: nat)
    requires n < 8
    ensures var padded, written := JH.Padded(msg, ub, n), JH.Written(msg, ub, n);
      && |padded| == |written| && |padded| % 64 == 0
      && (if |msg| % 64 == 0 && n == 0 then |padded| == |msg| + 64 else |msg| + 64 < |padded| <= |msg| + 128)
      && Body(padded, msg, ub, n, 16) && NumberBe(padded[|padded| - 16..]) == (8 * |msg| + n) % TWO128
      && Body(written, msg, ub, n, 16) && NumberBe(written[|written| - 16..]) == (8 * |msg| + n) % TWO73
  {
    hide Body, LastByte, EncBe, NumberBe;
    var p, bits := |msg| % 64, 8 * |msg| + n;
    FieldSizes();
    EncBeReads(bits, 16);
    EncBeReads(bits % TWO73, 16);
    BelowModulus(TWO128, bits % TWO73);
    WholeBlocks(64, JH.PaddedBlocks(|msg|, n));
    BodyIs(msg, ub, n, JH.LastBlocks(p, n) * 64 - p - 17, EncBe(bits, 16));
    BodyIs(msg, ub, n, JH.LastBlocks(p, n) * 64 - p - 17, EncBe(bits % TWO73, 16));
  }

  /** BMW: the field is the number of message bits, the lowest byte first. */
  lemma BmwText(w: Bmw.Width, msg: seq<Byte>, ub: Byte, n: nat)
    requires n < 8
    ensures var text, size := Bmw.Padded(w, msg, ub, n), match w case Small => 64 case Big => 128;
      Text(text, msg, ub, n, size, 8) && NumberLe(text[|text| - 8..]) == (8 * |msg| + n) % TWO64
  {
    hide Body, LastByte, EncLe, NumberLe;
    var p, bits := |msg| % w.Size(), 8 * |msg| + n;
    FieldSizes();
    EncLeReads(bits, 8);
    WholeBlocks(w.Size(), Bmw.PaddedBlocks(w, |msg|));
    BodyIs(msg, ub, n, Bmw.LastBlocks(w, p) * w.Size() - p - 9, EncLe(bits, 8));
  }

  /** ECHO: the digest size in bits, then the number of message bits, the lowest bytes first. */
  lemma EchoText(w: Echo.Width, msg: seq<Byte>, ub: Byte, n: nat, words: nat)
    requires n < 8
    ensures var text, size := Echo.Padded(w, msg, ub, n, words), match w case Small => 192 case Big => 128;
      && Text(text, msg, ub, n, size, 18)
      && NumberLe(text[|text| - 18..|text| - 16]) == 32 * words % TWO16
      && NumberLe(text[|text| - 16..]) == (8 * |msg| + n) % TWO128
  {
    hide Text, EncLe, NumberLe, Echo.Padded, Pow256;
    var bits := 8 * |msg| + n;
    FieldSizes();
    EncLeReads(bits, 16);
    EncLeReads(32 * words, 2);
    EchoShape(w, msg, ub, n, words);
    TwoFields(Echo.Padded(w, msg, ub, n, words), EncLe(32 * words, 2), EncLe(bits, 16));
  }

  lemma EchoShape(w: Echo.Width, msg: seq<Byte>, ub: Byte, n: nat, words: nat)
    requires n < 8
    ensures var text, size := Echo.Padded(w, msg, ub, n, words), match w case Small => 192 case Big => 128;
      && Text(text, msg, ub, n, size, 18) && |text| >= 18
      && text[|text| - 18..] == EncLe(32 * words, 2) + EncLe(8 * |msg| + n, 16)
  {
    hide Body, LastByte, EncLe;
    var p, bits := |msg| % w.Size(), 8 * |msg| + n;
    WholeBlocks(w.Size(), Echo.PaddedBlocks(w, |msg|));
    var zeros, sizes := Echo.LastBlocks(w, p) * w.Size() - p - 19, EncLe(32 * words, 2) + EncLe(bits, 16);
    BodyIs(msg, ub, n, zeros, sizes);
    assert Echo.Padded(w, msg, ub, n, words) == msg + ([LastByte(ub, n)] + Zeros(zeros) + sizes);
  }

  lemma TwoFields(text: seq<Byte>, a: seq<Byte>, b: seq<Byte>)
    requires |text| >= |a| + |b| && text[|text| - (|a| + |b|)..] == a + b
    ensures text[|text| - (|a| + |b|)..|text| - |b|] == a && text[|text| - |b|..] == b
  {
    var end := text[|text| - (|a| + |b|)..];
    assert text[|text| - (|a| + |b|)..|text| - |b|] == end[..|a|];
    assert text[|text| - |b|..] == end[|a|..];
  }

  /** CubeHash: no fields. */
  lemma CubeHashText(msg: seq<Byte>, ub: Byte, n: nat)
    requires n < 8
    ensures Text(CubeHash.Padded(msg, ub, n), msg, ub, n, 32, 0)
  {
    hide Body, LastByte;
    BodyIs(msg, ub, n, 31 - |msg| % 32, []);
    assert CubeHash.Padded(msg, ub, n) == msg + ([LastByte(ub, n)] + Zeros(31 - |msg| % 32) + []);
    WholeBlocks(32, |msg| / 32 + 1);
  }

  /** BLAKE, whose bits `BlakePadding.PaddedBits` describes: the field is the number of message bits modulo 2^64 or
      2^128, and the text is as short as one, marker and field allow. */
  lemma BlakeText(w: Blake.Width, msg: seq<Byte>, ub: Byte, n: nat, full: bool)
    requires n < 8
    ensures var text := Blake.Padded(w, msg, ub, n, full);
      match w
      case Small =>
        && |text| % 64 == 0 && 8 * |msg| + n + 66 <= 8 * |text| < 8 * |msg| + n + 66 + 512 && text[..|msg|] == msg
        && NumberBe(text[|text| - 8..]) == (8 * |msg| + n) % TWO64
      case Big =>
        && |text| % 128 == 0 && 8 * |msg| + n + 130 <= 8 * |text| < 8 * |msg| + n + 130 + 1024 && text[..|msg|] == msg
        && NumberBe(text[|text| - 16..]) == (8 * |msg| + n) % TWO128
  {
    hide LastByte, EncBe, NumberBe, Blake.Padded, Pow256;
    BlakeTextLength(w, msg, ub, n, full);
    FieldSizes();
    EncBeReads(8 * |msg| + n, 2 * w.Word());
    BlakeTextEnds(w, msg, ub, n, full);
  }

  lemma BlakeTextLength(w: Blake.Width, msg: seq<Byte>, ub: Byte, n: nat, full: bool)
    requires n < 8
    ensures var len, size, fields := |Blake.Padded(w, msg, ub, n, full)|, w.Size(), 2 * w.Word();
      && len % size == 0
      && 8 * |msg| + n + 2 + 8 * fields <= 8 * len < 8 * |msg| + n + 2 + 8 * fields + 8 * size
  {
    hide LastByte, EncBe;
    var bits, p := 8 * |msg| + n, |msg| % w.Size();
    Blake.PaddingSize(w, p, ub, n, full, bits);
    Recomposed(|msg|, w.Size());
    WholeBlocks(w.Size(), |msg| / w.Size() + if Blake.Fits(w, p, n) then 1 else 2);
  }

  lemma BlakeTextEnds(w: Blake.Width, msg: seq<Byte>, ub: Byte, n: nat, full: bool)
    requires n < 8
    ensures var text := Blake.Padded(w, msg, ub, n, full);
      && |text| >= |msg| + 2 * w.Word() && text[..|msg|] == msg
      && text[|text| - 2 * w.Word()..] == EncBe(8 * |msg| + n, 2 * w.Word())
  {
    hide LastByte, EncBe;
  }

  // ---- runs of chaining values ----

  /** Where word `i` of several words of the same size lies. */
  lemma WordPlace(size: nat, i: nat, k: nat)
    requires i < k
    ensures size * i + size <= size * k && size * (k - 1) + size == size * k
    ensures i < k - 1 ==> size * i + size <= size * (k - 1)
  {
    if i < k - 1 {
      WordPlace(size, i, k - 1);
    }
  }

  /** The message bits up to the end of block `i`, or zero for a block without message bits. */
  function BitsSeen(blockBits: nat, bits: nat, i: nat): nat {
    if bits <= blockBits * i then 0 else if bits < blockBits * i + blockBits then bits else blockBits * i + blockBits
  }

  lemma SeenIsCount(blockBits: nat, bits: nat, i: nat)
    ensures Count(blockBits, bits, i) == BitsSeen(blockBits, bits, i)
  {
    assert blockBits * (i + 1) == blockBits * i + blockBits;
  }

  // BLAKE

  function BlakeWord(w: Blake.Width): (n: nat)
    ensures n == 4 || n == 8
  {
    match w case Small => 4 case Big => 8
  }

  function BlakeLimit(w: Blake.Width): (m: nat)
    ensures m > 0
  {
    match w case Small => TWO32 case Big => TWO64
  }

  lemma {:induction false} BlakeLength(w: Blake.Width, h: Blake.Chain, k: nat)
    requires k <= 8
    ensures |Blake.Output(w, h, k)| == BlakeWord(w) * k
  {
    hide EncBe;
    if k > 0 {
      BlakeLength(w, h, k - 1);
    }
  }

  lemma {:induction false} BlakeReads(w: Blake.Width, h: Blake.Chain, k: nat, i: nat)
    requires i < k <= 8
    ensures var size, digest := BlakeWord(w), Blake.Output(w, h, k);
      && |digest| == size * k && size * i + size <= |digest|
      && NumberBe(digest[size * i..size * i + size]) == h[i] % BlakeLimit(w)
  {
    hide EncBe, NumberBe, Pow256;
    var size := BlakeWord(w);
    BlakeLength(w, h, k);
    BlakeLength(w, h, k - 1);
    WordPlace(size, i, k);
    var front, last := Blake.Output(w, h, k - 1), EncBe(h[k - 1], w.Word());
    assert Blake.Output(w, h, k) == front + last;
    if i < k - 1 {
      BlakeReads(w, h, k - 1, i);
      InFront(front, last, size * i, size * i + size);
    } else {
      FieldSizes();
      EncBeReads(h[i], size);
      Behind(front, last);
    }
  }

  /** BLAKE: block after block with the number of message bits so far in two words, and the digest words. */
  lemma BlakeRun(w: Blake.Width, f: Blake.Compress, iv: Blake.Chain, msg: seq<Byte>, ub: Byte, n: nat, words: nat)
    returns (text: seq<Byte>, run: seq<Blake.Chain>)
    requires n < 8 && words <= 8
    ensures text == Blake.Padded(w, msg, ub, n, words == 8)
    ensures var size, m, bits := if w.Small? then 64 else 128, BlakeLimit(w), 8 * |msg| + n;
      && |run| == |text| / size + 1 && run[0] == iv
      && forall i :: 0 <= i < |text| / size ==>
          var t := BitsSeen(8 * size, bits, i);
          size * i + size <= |text| && run[i + 1] == f(run[i], text[size * i..size * i + size], t % m, t / m % m)
    ensures var size, word := if w.Small? then 64 else 128, BlakeWord(w);
      var digest := Blake.Digest(w, f, iv, msg, ub, n, words);
      && |digest| == word * words
      && forall i :: 0 <= i < words ==>
          && 0 <= word * i <= word * i + word <= |digest|
          && NumberBe(digest[word * i..word * i + word]) == run[|text| / size][i] % BlakeLimit(w)
  {
    hide Blake.Hash, Blake.Padded, Blake.Output, BlakeLimit, BitsSeen, BlakeWord;
    text := Blake.Padded(w, msg, ub, n, words == 8);
    var bits := 8 * |msg| + n;
    run := BlakeChain(w, f, iv, text, bits, |text| / w.Size());
    var last := run[|text| / w.Size()];
    BlakeLength(w, last, words);
    forall i | 0 <= i < words
      ensures 0 <= BlakeWord(w) * i <= BlakeWord(w) * i + BlakeWord(w) <= BlakeWord(w) * words
      ensures NumberBe(Blake.Output(w, last, words)[BlakeWord(w) * i..BlakeWord(w) * i + BlakeWord(w)])
           == last[i] % BlakeLimit(w)
    {
      BlakeReads(w, last, words, i);
    }
  }

  lemma {:induction false} BlakeChain(w: Blake.Width, f: Blake.Compress, iv: Blake.Chain, text: seq<Byte>, bits: nat,
      k: nat) returns (run: seq<Blake.Chain>)
    requires k <= |text| / w.Size()
    ensures k * w.Size() <= |text|
    ensures |run| == k + 1 && run[0] == iv && run[k] == Blake.Hash(w, f, iv, text, bits, k)
    ensures var size, m := if w.Small? then 64 else 128, BlakeLimit(w);
      forall i :: 0 <= i < k ==>
        var t := BitsSeen(8 * size, bits, i);
        size * i + size <= |text| && run[i + 1] == f(run[i], text[size * i..size * i + size], t % m, t / m % m)
  {
    hide BitsSeen, Count;
    if k == 0 {
      run := [iv];
    } else {
      var before := BlakeChain(w, f, iv, text, bits, k - 1);
      SeenIsCount(w.BlockBits(), bits, k - 1);
      run := before + [Blake.Hash(w, f, iv, text, bits, k)];
    }
  }

  // BMW

  function BmwWord(w: Bmw.Width): (n: nat)
    ensures n == 4 || n == 8
  {
    match w case Small => 4 case Big => 8
  }

  function BmwLimit(w: Bmw.Width): (m: nat)
    ensures m > 0
  {
    match w case Small => TWO32 case Big => TWO64
  }

  lemma {:induction false} BmwReads(w: Bmw.Width, h: Bmw.Words, from: nat, to: nat, i: nat)
    requires from <= to <= 16 && i < to - from
    ensures var size, bytes := BmwWord(w), Bmw.WordBytes(w, h, from, to);
      && |bytes| == size * (to - from) && size * i + size <= |bytes|
      && NumberLe(bytes[size * i..size * i + size]) == h[from + i] % BmwLimit(w)
  {
    hide EncLe, NumberLe, Pow256;
    var size, k := BmwWord(w), to - from;
    WordPlace(size, i, k);
    var front, last := Bmw.WordBytes(w, h, from, to - 1), EncLe(h[to - 1], w.Word());
    assert Bmw.WordBytes(w, h, from, to) == front + last;
    if i < k - 1 {
      BmwReads(w, h, from, to - 1, i);
      InFront(front, last, size * i, size * i + size);
    } else {
      FieldSizes();
      EncLeReads(h[to - 1], size);
      Behind(front, last);
    }
  }

  /** BMW: block after block; then the sixteen words of the result, the lowest bytes first, are one more block, and the
      digest is the last words of what it and the closing constant give. */
  lemma BmwRun(w: Bmw.Width, f: Bmw.Compress, fin: Bmw.Words, iv: Bmw.Words, msg: seq<Byte>, ub: Byte, n: nat,
      words: nat)
    returns (text: seq<Byte>, run: seq<Bmw.Words>, block: seq<Byte>)
    requires n < 8 && words <= 16
    ensures text == Bmw.Padded(w, msg, ub, n)
    ensures var size := if w.Small? then 64 else 128;
      && |run| == |text| / size + 1 && run[0] == iv && |block| == size
      && forall i :: 0 <= i < |text| / size ==>
          0 <= i * size <= i * size + size <= |text| && run[i + 1] == f(text[i * size..i * size + size], run[i])
    ensures var size, word := if w.Small? then 64 else 128, BmwWord(w);
      forall i :: 0 <= i < 16 ==>
        && 0 <= word * i <= word * i + word <= |block|
        && NumberLe(block[word * i..word * i + word]) == run[|text| / size][i] % BmwLimit(w)
    ensures var word, digest := BmwWord(w), Bmw.Digest(w, f, fin, iv, msg, ub, n, words);
      && |digest| == word * words
      && forall i :: 0 <= i < words ==>
          && 0 <= word * i <= word * i + word <= |digest|
          && NumberLe(digest[word * i..word * i + word]) == f(block, fin)[16 - words + i] % BmwLimit(w)
  {
    hide Bmw.Padded, Bmw.WordBytes, BmwLimit, BmwWord, Bmw.PaddedBlocks, NumberLe;
    text := Bmw.Padded(w, msg, ub, n);
    var k := Bmw.PaddedBlocks(w, |msg|);
    WholeBlocks(w.Size(), k);
    run := BlocksRun(Bmw.Compressing(f), w.Size(), iv, text, k);
    BmwWordsRead(w, run[k], 0);
    block := Bmw.WordBytes(w, run[k], 0, 16);
    BmwWordsRead(w, f(block, fin), 16 - words);
  }

  lemma BmwWordsRead(w: Bmw.Width, h: Bmw.Words, from: nat)
    requires from <= 16
    ensures var word, bytes := BmwWord(w), Bmw.WordBytes(w, h, from, 16);
      && |bytes| == word * (16 - from)
      && (from == 0 ==> |bytes| == if w.Small? then 64 else 128)
      && forall i :: 0 <= i < 16 - from ==>
          && 0 <= word * i <= word * i + word <= |bytes|
          && NumberLe(bytes[word * i..word * i + word]) == h[from + i] % BmwLimit(w)
  {
    hide Bmw.WordBytes, NumberLe;
    forall i | 0 <= i < 16 - from
      ensures var word, bytes := BmwWord(w), Bmw.WordBytes(w, h, from, 16);
        && 0 <= word * i <= word * i + word <= |bytes|
        && NumberLe(bytes[word * i..word * i + word]) == h[from + i] % BmwLimit(w)
    {
      BmwReads(w, h, from, 16, i);
    }
  }

  // Groestl, JH and ECHO, whose states are not words

  /** Groestl: block after block; the digest is the end of the output transformation's result. */
  lemma GroestlRun<H>(w: Groestl.Width, f: CountedStreams.Compress<H>, fin: Groestl.Final<H>, iv: H, msg: seq<Byte>,
      ub: Byte, n: nat, len: nat)
    returns (text: seq<Byte>, run: seq<H>)
    requires n < 8
    ensures text == Groestl.Padded(w, msg, ub, n)
    ensures var size := if w.Small? then 64 else 128;
      && |run| == |text| / size + 1 && run[0] == iv
      && forall i :: 0 <= i < |text| / size ==>
          0 <= i * size <= i * size + size <= |text| && run[i + 1] == f(run[i], text[i * size..i * size + size])
    ensures var size, digest := if w.Small? then 64 else 128, Groestl.Digest(w, f, fin, iv, msg, ub, n, len);
      var out := fin(run[|text| / size]);
      len <= |out| ==> |digest| == len && forall i :: 0 <= i < len ==> digest[i] == out[|out| - len + i]
  {
    hide Groestl.Padded, Groestl.PaddedBlocks;
    text := Groestl.Padded(w, msg, ub, n);
    var k := Groestl.PaddedBlocks(w, |msg|);
    WholeBlocks(w.Size(), k);
    run := BlocksRun(f, w.Size(), iv, text, k);
  }

  /** JH: the same with its own output; `JHText` relates the text that is hashed to the one that is specified. */
  lemma JHRun<H>(f: CountedStreams.Compress<H>, out: H -> JH.Half, iv: H, msg: seq<Byte>, ub: Byte, n: nat, words: nat)
    returns (text: seq<Byte>, run: seq<H>)
    requires n < 8 && words <= 16
    ensures text == JH.Written(msg, ub, n) && |run| == |text| / 64 + 1 && run[0] == iv
    ensures forall i :: 0 <= i < |text| / 64 ==>
      0 <= i * 64 <= i * 64 + 64 <= |text| && run[i + 1] == f(run[i], text[i * 64..i * 64 + 64])
    ensures var digest := JH.WrittenDigest(f, out, iv, msg, ub, n, words);
      && |digest| == 4 * words
      && forall i :: 0 <= i < 4 * words ==> digest[i] == out(run[|text| / 64])[64 - 4 * words + i]
  {
    hide JH.Written, JH.PaddedBlocks;
    text := JH.Written(msg, ub, n);
    var k := JH.PaddedBlocks(|msg|, n);
    WholeBlocks(64, k);
    run := BlocksRun(f, 64, iv, text, k);
  }

  /** ECHO: block after block with the number of message bits so far in four words; the digest is the front of the
      last state. */
  lemma EchoRun<V>(w: Echo.Width, f: Echo.Compress<V>, out: V -> seq<Byte>, iv: V, msg: seq<Byte>, ub: Byte, n: nat,
      words: nat)
    returns (text: seq<Byte>, run: seq<V>)
    requires n < 8
    ensures text == Echo.Padded(w, msg, ub, n, words)
    ensures var size, bits := if w.Small? then 192 else 128, 8 * |msg| + n;
      && |run| == |text| / size + 1 && run[0] == iv
      && forall i :: 0 <= i < |text| / size ==>
          var t := BitsSeen(8 * size, bits, i);
          && size * i + size <= |text|
          && run[i + 1] == f(run[i], text[size * i..size * i + size],
              Echo.Counter.Counter(t % TWO32, t / TWO32 % TWO32, t / TWO64 % TWO32, t / (TWO64 * TWO32) % TWO32))
    ensures var size, digest := if w.Small? then 192 else 128, Echo.Digest(w, f, out, iv, msg, ub, n, words);
      var bytes := out(run[|text| / size]);
      4 * words <= |bytes| ==> |digest| == 4 * words && forall i :: 0 <= i < 4 * words ==> digest[i] == bytes[i]
  {
    hide Echo.Hash, Echo.Padded, Echo.PaddedBlocks, BitsSeen;
    text := Echo.Padded(w, msg, ub, n, words);
    WholeBlocks(w.Size(), Echo.PaddedBlocks(w, |msg|));
    run := EchoChain(w, f, iv, text, 8 * |msg| + n, |text| / w.Size());
  }

  lemma CounterWords(t: nat)
    ensures Echo.CounterOf(t)
         == Echo.Counter.Counter(t % TWO32, t / TWO32 % TWO32, t / TWO64 % TWO32, t / (TWO64 * TWO32) % TWO32)
  {
    var q1 := t / TWO32;
    var q2 := q1 / TWO32;
    Recomposed(t, TWO32);
    Recomposed(q1, TWO32);
    Recomposed(q2, TWO32);
    Divided(TWO64, t, q2, q1 % TWO32 * TWO32 + t % TWO32);
    Divided(TWO64 * TWO32, t, q2 / TWO32, q2 % TWO32 * TWO64 + q1 % TWO32 * TWO32 + t % TWO32);
  }

  lemma {:induction false} EchoChain<V>(w: Echo.Width, f: Echo.Compress<V>, iv: V, text: seq<Byte>, bits: nat, k: nat)
    returns (run: seq<V>)
    requires k <= |text| / w.Size()
    ensures k * w.Size() <= |text|
    ensures |run| == k + 1 && run[0] == iv && run[k] == Echo.Hash(w, f, iv, text, bits, k)
    ensures var size := if w.Small? then 192 else 128;
      forall i :: 0 <= i < k ==>
        var t := BitsSeen(8 * size, bits, i);
        && size * i + size <= |text|
        && run[i + 1] == f(run[i], text[size * i..size * i + size],
            Echo.Counter.Counter(t % TWO32, t / TWO32 % TWO32, t / TWO64 % TWO32, t / (TWO64 * TWO32) % TWO32))
  {
    hide BitsSeen, Count, Echo.CounterOf;
    if k == 0 {
      run := [iv];
    } else {
      var before := EchoChain(w, f, iv, text, bits, k - 1);
      SeenIsCount(w.BlockBits(), bits, k - 1);
      CounterWords(Count(w.BlockBits(), bits, k - 1));
      run := before + [Echo.Hash(w, f, iv, text, bits, k)];
    }
  }
}
