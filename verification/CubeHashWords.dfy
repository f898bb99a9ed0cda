/** CubeHash word by word: the rounds, the input and the output in terms of the thirty-two indexed words. */
module CubeHashWords {
  import opened Bytes
  import opened CubeHash
  import opened Division
  import opened Streams

  /** One of sixteen values. */
  function Pick<T>(x0: T, x1: T, x2: T, x3: T, x4: T, x5: T, x6: T, x7: T,
      x8: T, x9: T, xa: T, xb: T, xc: T, xd: T, xe: T, xf: T, i: nat): T
    requires i < 16
  {
    match i
    case 0 => x0 case 1 => x1 case 2 => x2 case 3 => x3 case 4 => x4 case 5 => x5 case 6 => x6 case 7 => x7
    case 8 => x8 case 9 => x9 case 10 => xa case 11 => xb case 12 => xc case 13 => xd case 14 => xe case _ => xf
  }

  /** Word `i` of half a state. */
  function Cell(r: Row, i: nat): Word
    requires i < 16
  {
    match i
    case 0 => r.w0 case 1 => r.w1 case 2 => r.w2 case 3 => r.w3
    case 4 => r.w4 case 5 => r.w5 case 6 => r.w6 case 7 => r.w7
    case 8 => r.w8 case 9 => r.w9 case 10 => r.wa case 11 => r.wb
    case 12 => r.wc case 13 => r.wd case 14 => r.we case _ => r.wf
  }

  lemma CellPicked(r: Row, i: nat)
    requires i < 16
    ensures Cell(r, i)
         == Pick(r.w0, r.w1, r.w2, r.w3, r.w4, r.w5, r.w6, r.w7, r.w8, r.w9, r.wa, r.wb, r.wc, r.wd, r.we, r.wf, i)
  {
  }

  /** Word `i` of a state: `x0` to `xv`. */
  function WordOf(s: State, i: nat): Word
    requires i < 32
  {
    if i < 16 then Cell(s.a, i) else Cell(s.b, i - 16)
  }

  /** The index that differs from `i` in the bit worth `d`. */
  function Other(i: nat, d: nat): (r: nat)
    requires i < 16 && d in {1, 2, 4, 8}
    ensures r < 16
  {
    if i / d % 2 == 0 then i + d else i - d
  }

  lemma AddedAt(r: Row, q: Row, i: nat)
    requires i < 16
    ensures Cell(Added(r, q), i) == Add(Cell(r, i), Cell(q, i))
  {
    hide Add;
  }

  lemma XoredAt(r: Row, q: Row, i: nat)
    requires i < 16
    ensures Cell(Xored(r, q), i) == Xor(Cell(r, i), Cell(q, i))
  {
    hide Xor;
  }

  lemma RotatedAt(r: Row, n: nat, i: nat)
    requires i < 16 && n < 32
    ensures Cell(Rotated(r, n), i) == Rotl(Cell(r, i), n)
  {
    hide Rotl;
  }

  lemma Picked1<T>(x0: T, x1: T, x2: T, x3: T, x4: T, x5: T, x6: T, x7: T,
      x8: T, x9: T, xa: T, xb: T, xc: T, xd: T, xe: T, xf: T, i: nat)
    requires i < 16
    ensures Pick(x8, x9, xa, xb, xc, xd, xe, xf, x0, x1, x2, x3, x4, x5, x6, x7, i)
         == Pick(x0, x1, x2, x3, x4, x5, x6, x7, x8, x9, xa, xb, xc, xd, xe, xf, Other(i, 8))
  {
  }

  lemma Swapped1At(r: Row, i: nat)
    requires i < 16
    ensures Cell(Swap1(r), i) == Cell(r, Other(i, 8))
  {
    hide Pick, Other, Cell;
    CellPicked(Swap1(r), i);
    Picked1(r.w0, r.w1, r.w2, r.w3, r.w4, r.w5, r.w6, r.w7, r.w8, r.w9, r.wa, r.wb, r.wc, r.wd, r.we, r.wf, i);
    CellPicked(r, Other(i, 8));
  }

  lemma Picked2<T>(x0: T, x1: T, x2: T, x3: T, x4: T, x5: T, x6: T, x7: T,
      x8: T, x9: T, xa: T, xb: T, xc: T, xd: T, xe: T, xf: T, i: nat)
    requires i < 16
    ensures Pick(x4, x5, x6, x7, x0, x1, x2, x3, xc, xd, xe, xf, x8, x9, xa, xb, i)
         == Pick(x0, x1, x2, x3, x4, x5, x6, x7, x8, x9, xa, xb, xc, xd, xe, xf, Other(i, 4))
  {
  }

  lemma Swapped2At(r: Row, i: nat)
    requires i < 16
    ensures Cell(Swap2(r), i) == Cell(r, Other(i, 4))
  {
    hide Pick, Other, Cell;
    CellPicked(Swap2(r), i);
    Picked2(r.w0, r.w1, r.w2, r.w3, r.w4, r.w5, r.w6, r.w7, r.w8, r.w9, r.wa, r.wb, r.wc, r.wd, r.we, r.wf, i);
    CellPicked(r, Other(i, 4));
  }

  lemma Picked3<T>(x0: T, x1: T, x2: T, x3: T, x4: T, x5: T, x6: T, x7: T,
      x8: T, x9: T, xa: T, xb: T, xc: T, xd: T, xe: T, xf: T, i: nat)
    requires i < 16
    ensures Pick(x2, x3, x0, x1, x6, x7, x4, x5, xa, xb, x8, x9, xe, xf, xc, xd, i)
         == Pick(x0, x1, x2, x3, x4, x5, x6, x7, x8, x9, xa, xb, xc, xd, xe, xf, Other(i, 2))
  {
  }

  lemma Swapped3At(r: Row, i: nat)
    requires i < 16
    ensures Cell(Swap3(r), i) == Cell(r, Other(i, 2))
  {
    hide Pick, Other, Cell;
    CellPicked(Swap3(r), i);
    Picked3(r.w0, r.w1, r.w2, r.w3, r.w4, r.w5, r.w6, r.w7, r.w8, r.w9, r.wa, r.wb, r.wc, r.wd, r.we, r.wf, i);
    CellPicked(r, Other(i, 2));
  }

  lemma Picked4<T>(x0: T, x1: T, x2: T, x3: T, x4: T, x5: T, x6: T, x7: T,
      x8: T, x9: T, xa: T, xb: T, xc: T, xd: T, xe: T, xf: T, i: nat)
    requires i < 16
    ensures Pick(x1, x0, x3, x2, x5, x4, x7, x6, x9, x8, xb, xa, xd, xc, xf, xe, i)
         == Pick(x0, x1, x2, x3, x4, x5, x6, x7, x8, x9, xa, xb, xc, xd, xe, xf, Other(i, 1))
  {
  }

  lemma Swapped4At(r: Row, i: nat)
    requires i < 16
    ensures Cell(Swap4(r), i) == Cell(r, Other(i, 1))
  {
    hide Pick, Other, Cell;
    CellPicked(Swap4(r), i);
    Picked4(r.w0, r.w1, r.w2, r.w3, r.w4, r.w5, r.w6, r.w7, r.w8, r.w9, r.wa, r.wb, r.wc, r.wd, r.we, r.wf, i);
    CellPicked(r, Other(i, 1));
  }

  // ---- one round ----

  /** The three operations: a sum modulo 2^32, the bits that exactly one of two words has, a turn to the left. */
  lemma SumOf(x: Word, y: Word)
    ensures Add(x, y) == x + y
  {
  }

  lemma Combination(x: Word, y: Word)
    ensures Xor(x, y) == (x | y) - (x & y)
  {
  }

  lemma LeftTurns(x: Word)
    ensures Rotl(x, 7) == (x << 7) | (x >> 25) && Rotl(x, 11) == (x << 11) | (x >> 21)
  {
  }

  /** Add the first half of the words to the second. */
  function FirstSum(s: State, i: nat): Word
    requires i < 16
  {
    Add(WordOf(s, i), WordOf(s, 16 + i))
  }

  /** Turn the first half by seven bits, swap words that differ in the first of their four index bits, combine with the
      second half. */
  function FirstHalf(s: State, i: nat): Word
    requires i < 16
  {
    Xor(Rotl(WordOf(s, Other(i, 8)), 7), FirstSum(s, i))
  }

  /** Swap words of the second half that differ in the third bit, add the first half again. */
  function SecondSum(s: State, i: nat): Word
    requires i < 16
  {
    Add(FirstHalf(s, i), FirstSum(s, Other(i, 2)))
  }

  /** Turn by eleven bits, swap words that differ in the second bit, combine. */
  function SecondHalf(s: State, i: nat): Word
    requires i < 16
  {
    Xor(Rotl(FirstHalf(s, Other(i, 4)), 11), SecondSum(s, i))
  }

  lemma FirstSumIs(s: State, i: nat)
    requires i < 16
    ensures Cell(Added(s.a, s.b), i) == FirstSum(s, i)
  {
    hide Add, Xor, Rotl, Cell, Added;
    AddedAt(s.a, s.b, i);
  }

  lemma FirstHalfIs(s: State, i: nat)
    requires i < 16
    ensures Cell(Xored(Swap1(Rotated(s.a, 7)), Added(s.a, s.b)), i) == FirstHalf(s, i)
  {
    hide Add, Xor, Rotl, Cell, Added, Xored, Rotated, Swap1, Other, FirstSum;
    FirstSumIs(s, i);
    XoredAt(Swap1(Rotated(s.a, 7)), Added(s.a, s.b), i);
    Swapped1At(Rotated(s.a, 7), i);
    RotatedAt(s.a, 7, Other(i, 8));
  }

  lemma SecondSumIs(s: State, i: nat)
    requires i < 16
    ensures var b1 := Added(s.a, s.b);
      Cell(Added(Xored(Swap1(Rotated(s.a, 7)), b1), Swap3(b1)), i) == SecondSum(s, i)
  {
    hide Add, Xor, Rotl, Cell, Added, Xored, Rotated, Swap1, Swap3, Other, FirstSum, FirstHalf;
    var b1 := Added(s.a, s.b);
    AddedAt(Xored(Swap1(Rotated(s.a, 7)), b1), Swap3(b1), i);
    FirstHalfIs(s, i);
    Swapped3At(b1, i);
    FirstSumIs(s, Other(i, 2));
  }

  /** A round of CubeHash, by index: four of the ten steps are swaps, two each of the others. */
  lemma RoundWords(s: State, i: nat)
    requires i < 16
    ensures WordOf(Round(s), i) == SecondHalf(s, i)
    ensures WordOf(Round(s), 16 + i) == SecondSum(s, Other(i, 1))
  {
    hide Add, Xor, Rotl, Cell, Added, Xored, Rotated, Swap1, Swap2, Swap3, Swap4, Other, FirstSum, FirstHalf, SecondSum;
    var b1 := Added(s.a, s.b);
    var a1 := Xored(Swap1(Rotated(s.a, 7)), b1);
    var b2 := Added(a1, Swap3(b1));
    SecondSumIs(s, i);
    SecondSumIs(s, Other(i, 1));
    Swapped4At(b2, i);
    XoredAt(Swap2(Rotated(a1, 11)), b2, i);
    Swapped2At(Rotated(a1, 11), i);
    RotatedAt(a1, 11, Other(i, 4));
    FirstHalfIs(s, Other(i, 4));
  }

  // ---- input and output ----

  /** Four bytes as one word, the lowest first. */
  function WordAt(block: seq<Byte>, j: nat): Word
    requires 4 * j + 4 <= |block|
  {
    block[4 * j] as Word + 0x100 * (block[4 * j + 1] as Word)
    + 0x1_0000 * (block[4 * j + 2] as Word) + 0x100_0000 * (block[4 * j + 3] as Word)
  }

  lemma WordSum(a: Word, b: Word, c: Word, d: Word)
    requires a < 0x100 && b < 0x100 && c < 0x100 && d < 0x100
    ensures a | (b << 8) | (c << 16) | (d << 24) == a + 0x100 * b + 0x1_0000 * c + 0x100_0000 * d
  {
  }

  lemma WordRead(block: seq<Byte>, j: nat)
    requires 4 * j + 4 <= |block|
    ensures Dec32le(block, 4 * j) == WordAt(block, j)
  {
    Widened(block[4 * j]);
    Widened(block[4 * j + 1]);
    Widened(block[4 * j + 2]);
    Widened(block[4 * j + 3]);
    WordSum(block[4 * j] as Word, block[4 * j + 1] as Word, block[4 * j + 2] as Word, block[4 * j + 3] as Word);
  }

  /** A block goes into the first eight words. */
  lemma InputWords(s: State, block: seq<Byte>, i: nat)
    requires |block| == 32 && i < 32
    ensures WordOf(Absorbed(s, block), i) == if i < 8 then Xor(WordOf(s, i), WordAt(block, i)) else WordOf(s, i)
  {
    hide Xor, Dec32le, WordAt;
    if i < 8 {
      WordRead(block, i);
    }
  }

  lemma Listed<T>(x0: T, x1: T, x2: T, x3: T, x4: T, x5: T, x6: T, x7: T,
      x8: T, x9: T, x10: T, x11: T, x12: T, x13: T, x14: T, x15: T,
      x16: T, x17: T, x18: T, x19: T, x20: T, x21: T, x22: T, x23: T,
      x24: T, x25: T, x26: T, x27: T, x28: T, x29: T, x30: T, x31: T, i: nat)
    requires i < 32
    ensures [x0, x1, x2, x3, x4, x5, x6, x7, x8, x9, x10, x11, x12, x13, x14, x15,
             x16, x17, x18, x19, x20, x21, x22, x23, x24, x25, x26, x27, x28, x29, x30, x31][i]
         == if i < 16 then Pick(x0, x1, x2, x3, x4, x5, x6, x7, x8, x9, x10, x11, x12, x13, x14, x15, i)
            else Pick(x16, x17, x18, x19, x20, x21, x22, x23, x24, x25, x26, x27, x28, x29, x30, x31, i - 16)
  {
  }

  /** The words of a state in order. */
  lemma WordsInOrder(s: State, i: nat)
    requires i < 32
    ensures Words(s)[i] == WordOf(s, i)
  {
    hide Cell, Pick;
    var State(a, b) := s;
    if i < 16 {
      CellPicked(a, i);
    } else {
      CellPicked(b, i - 16);
    }
    Listed(a.w0, a.w1, a.w2, a.w3, a.w4, a.w5, a.w6, a.w7, a.w8, a.w9, a.wa, a.wb, a.wc, a.wd, a.we, a.wf,
           b.w0, b.w1, b.w2, b.w3, b.w4, b.w5, b.w6, b.w7, b.w8, b.w9, b.wa, b.wb, b.wc, b.wd, b.we, b.wf, i);
  }

  lemma WordBound(w: Word)
    ensures w as nat < 0x1_0000_0000
  {
  }

  /** The digest bytes read back as the first words. */
  lemma {:induction false} OutputReads(ws: seq<Word>, k: nat, i: nat)
    requires i < k <= |ws|
    ensures |Output(ws, k)| == 4 * k && NumberLe(Output(ws, k)[4 * i..4 * i + 4]) == ws[i] as nat
  {
    hide EncLe, NumberLe, Output;
    OutputLength(ws, k);
    OutputLength(ws, k - 1);
    OutputStep(ws, k);
    var front, last := Output(ws, k - 1), EncLe(ws[k - 1] as nat, 4);
    if i < k - 1 {
      OutputReads(ws, k - 1, i);
      InFront(front, last, 4 * i, 4 * i + 4);
    } else {
      WordReads(ws[i]);
      Behind(front, last);
    }
  }

  lemma OutputStep(ws: seq<Word>, k: nat)
    requires 0 < k <= |ws|
    ensures Output(ws, k) == Output(ws, k - 1) + EncLe(ws[k - 1] as nat, 4)
  {
    hide EncLe;
  }

  lemma WordReads(w: Word)
    ensures NumberLe(EncLe(w as nat, 4)) == w as nat
  {
    hide EncLe, NumberLe;
    FourBytes();
    EncLeReads(w as nat, 4);
    WordBound(w);
    BelowModulus(0x1_0000_0000, w as nat);
  }

  lemma {:induction false} OutputLength(ws: seq<Word>, k: nat)
    requires k <= |ws|
    ensures |Output(ws, k)| == 4 * k
  {
    hide EncLe;
    if k > 0 {
      OutputLength(ws, k - 1);
    }
  }

  // ---- a whole message ----

  lemma FlippedWords(s: State, i: nat)
    requires i < 32
    ensures var t := State(s.a, s.b.(wf := Xor(s.b.wf, 1)));
      WordOf(t, i) == if i == 31 then Xor(WordOf(s, 31), 1) else WordOf(s, i)
  {
    hide Xor;
  }

  /** A whole message: sixteen rounds for each block of the padded text, then one bit of the last word is flipped and
      160 rounds follow; the digest is the first words of that, the lowest bytes first. */
  lemma DigestRun(iv: State, msg: seq<Byte>, ub: Byte, n: nat, words: nat)
    returns (text: seq<Byte>, run: seq<State>, flipped: State)
    requires n < 8 && words <= 32
    ensures text == Padded(msg, ub, n) && |run| == |text| / 32 + 1 && run[0] == iv
    ensures forall i :: 0 <= i < |text| / 32 ==>
      32 * i + 32 <= |text| && run[i + 1] == Rounds(Absorbed(run[i], text[32 * i..32 * i + 32]), 16)
    ensures forall i :: 0 <= i < 32 ==>
      WordOf(flipped, i) == if i == 31 then Xor(WordOf(run[|text| / 32], 31), 1) else WordOf(run[|text| / 32], i)
    ensures var digest := Digest(iv, msg, ub, n, words);
      && |digest| == 4 * words
      && forall i :: 0 <= i < words ==> NumberLe(digest[4 * i..4 * i + 4]) == WordOf(Rounds(flipped, 160), i) as nat
  {
    hide Absorbed, Rounds, Words, Output, Padded, Xor, WordOf;
    text := Padded(msg, ub, n);
    var k := |msg| / 32 + 1;
    Divided(32, |text|, k, 0);
    run := BlocksRun(Absorbing(), 32, iv, text, k);
    forall i | 0 <= i < k ensures 32 * i + 32 <= |text| &&
      run[i + 1] == Rounds(Absorbed(run[i], text[32 * i..32 * i + 32]), 16)
    {
      assert i * 32 == 32 * i;
    }
    var last := run[k];
    flipped := State(last.a, last.b.(wf := Xor(last.b.wf, 1)));
    forall i | 0 <= i < 32
      ensures WordOf(flipped, i) == if i == 31 then Xor(WordOf(last, 31), 1) else WordOf(last, i)
    {
      FlippedWords(last, i);
    }
    DigestReads(Rounds(flipped, 160), words);
  }

  lemma DigestReads(s: State, words: nat)
    requires words <= 32
    ensures var digest := Output(Words(s), words);
      && |digest| == 4 * words
      && forall i :: 0 <= i < words ==> NumberLe(digest[4 * i..4 * i + 4]) == WordOf(s, i) as nat
  {
    hide Words, Output, WordOf, NumberLe;
    OutputLength(Words(s), words);
    forall i | 0 <= i < words ensures NumberLe(Output(Words(s), words)[4 * i..4 * i + 4]) == WordOf(s, i) as nat {
      OutputReads(Words(s), words, i);
      WordsInOrder(s, i);
    }
  }
}
