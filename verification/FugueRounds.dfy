/** The rounds of Fugue (src/fugue.c): the state never moves, each switch case renames its words instead.
    Every case is proved to be one round of the plain algorithm, which rotates the state. */
module FugueRounds {

  type Word = bv32

  /** The super-mix of four words; its tables are not part of this model. */
  type Mixer = (Word, Word, Word, Word) -> (Word, Word, Word, Word)

  datatype Variant = Fugue2 | Fugue3 | Fugue4

  /** Number of state words. */
  function Size(v: Variant): (n: nat)
    ensures n > 0
  {
    if v.Fugue2? then 30 else 36
  }

  /** Number of switch cases, and how far the words move from one to the next. */
  function Cases(v: Variant): (c: nat)
    ensures c > 0
  {
    match v case Fugue2 => 5 case Fugue3 => 4 case Fugue4 => 3
  }

  function Shift(v: Variant): nat {
    match v case Fugue2 => 6 case Fugue3 => 9 case Fugue4 => 12
  }

  function At(s: seq<Word>, i: nat): Word { if i < |s| then s[i] else 0 }

  function Put(s: seq<Word>, i: nat, w: Word): (r: seq<Word>)
    ensures |r| == |s|
  {
    if i < |s| then s[i := w] else s
  }

  /** The sum of two words bit by bit, without carries. */
  function Sum(a: Word, b: Word): Word { a ^ b }

  /** `x_i ^= x_j`. */
  function Xor(s: seq<Word>, i: nat, j: nat): (r: seq<Word>)
    ensures |r| == |s|
  {
    Put(s, i, Sum(At(s, i), At(s, j)))
  }

  // ------------------------------------------------------------------ the macros

  function TIX2(s: seq<Word>, q: Word, x00: nat, x01: nat, x08: nat, x10: nat, x24: nat): (r: seq<Word>)
    ensures |r| == |s|
  {
    var s := Xor(s, x10, x00);
    var s := Put(s, x00, q);
    var s := Xor(s, x08, x00);
    Xor(s, x01, x24)
  }

  function TIX3(s: seq<Word>, q: Word, x00: nat, x01: nat, x04: nat, x08: nat, x16: nat, x27: nat,
      x30: nat): (r: seq<Word>)
    ensures |r| == |s|
  {
    var s := Xor(s, x16, x00);
    var s := Put(s, x00, q);
    var s := Xor(s, x08, x00);
    var s := Xor(s, x01, x27);
    Xor(s, x04, x30)
  }

  function TIX4(s: seq<Word>, q: Word, x00: nat, x01: nat, x04: nat, x07: nat, x08: nat, x22: nat, x24: nat,
      x27: nat, x30: nat): (r: seq<Word>)
    ensures |r| == |s|
  {
    var s := Xor(s, x22, x00);
    var s := Put(s, x00, q);
    var s := Xor(s, x08, x00);
    var s := Xor(s, x01, x24);
    var s := Xor(s, x04, x27);
    Xor(s, x07, x30)
  }

  /** `CMIX30` and `CMIX36`, which differ only in the names of their last three words. */
  function CMIX(s: seq<Word>, x00: nat, x01: nat, x02: nat, x04: nat, x05: nat, x06: nat, y0: nat, y1: nat,
      y2: nat): (r: seq<Word>)
    ensures |r| == |s|
  {
    var s := Xor(s, x00, x04);
    var s := Xor(s, x01, x05);
    var s := Xor(s, x02, x06);
    var s := Xor(s, y0, x04);
    var s := Xor(s, y1, x05);
    Xor(s, y2, x06)
  }

  function SMIX(mix: Mixer, s: seq<Word>, x0: nat, x1: nat, x2: nat, x3: nat): (r: seq<Word>)
    ensures |r| == |s|
  {
    var (y0, y1, y2, y3) := mix(At(s, x0), At(s, x1), At(s, x2), At(s, x3));
    Put(Put(Put(Put(s, x0, y0), x1, y1), x2, y2), x3, y3)
  }

  /** A `CMIX` and the `SMIX` that follows it: the words 0..6 and three more, the first four then mixed. */
  function MIX(mix: Mixer, s: seq<Word>, x00: nat, x01: nat, x02: nat, x03: nat, x04: nat, x05: nat, x06: nat,
               y0: nat, y1: nat, y2: nat): (r: seq<Word>)
    ensures |r| == |s|
  {
    SMIX(mix, CMIX(s, x00, x01, x02, x04, x05, x06, y0, y1, y2), x00, x01, x02, x03)
  }

  // ------------------------------------------------------------------ the switch cases, as written

  function Case2(mix: Mixer, c: nat, s: seq<Word>, q: Word): (r: seq<Word>)
    ensures |r| == |s|
  {
    match c
    case 0 =>
      var s := TIX2(s, q, 0, 1, 8, 10, 24);
      var s := CMIX(s, 27, 28, 29, 1, 2, 3, 12, 13, 14);
      var s := SMIX(mix, s, 27, 28, 29, 0);
      var s := CMIX(s, 24, 25, 26, 28, 29, 0, 9, 10, 11);
      SMIX(mix, s, 24, 25, 26, 27)
    case 1 =>
      var s := TIX2(s, q, 24, 25, 2, 4, 18);
      var s := CMIX(s, 21, 22, 23, 25, 26, 27, 6, 7, 8);
      var s := SMIX(mix, s, 21, 22, 23, 24);
      var s := CMIX(s, 18, 19, 20, 22, 23, 24, 3, 4, 5);
      SMIX(mix, s, 18, 19, 20, 21)
    case 2 =>
      var s := TIX2(s, q, 18, 19, 26, 28, 12);
      var s := CMIX(s, 15, 16, 17, 19, 20, 21, 0, 1, 2);
      var s := SMIX(mix, s, 15, 16, 17, 18);
      var s := CMIX(s, 12, 13, 14, 16, 17, 18, 27, 28, 29);
      SMIX(mix, s, 12, 13, 14, 15)
    case 3 =>
      var s := TIX2(s, q, 12, 13, 20, 22, 6);
      var s := CMIX(s, 9, 10, 11, 13, 14, 15, 24, 25, 26);
      var s := SMIX(mix, s, 9, 10, 11, 12);
      var s := CMIX(s, 6, 7, 8, 10, 11, 12, 21, 22, 23);
      SMIX(mix, s, 6, 7, 8, 9)
    case _ =>
      var s := TIX2(s, q, 6, 7, 14, 16, 0);
      var s := CMIX(s, 3, 4, 5, 7, 8, 9, 18, 19, 20);
      var s := SMIX(mix, s, 3, 4, 5, 6);
      var s := CMIX(s, 0, 1, 2, 4, 5, 6, 15, 16, 17);
      SMIX(mix, s, 0, 1, 2, 3)
  }

  function Case3(mix: Mixer, c: nat, s: seq<Word>, q: Word): (r: seq<Word>)
    ensures |r| == |s|
  {
    match c
    case 0 =>
      var s := TIX3(s, q, 0, 1, 4, 8, 16, 27, 30);
      var s := CMIX(s, 33, 34, 35, 1, 2, 3, 15, 16, 17);
      var s := SMIX(mix, s, 33, 34, 35, 0);
      var s := CMIX(s, 30, 31, 32, 34, 35, 0, 12, 13, 14);
      var s := SMIX(mix, s, 30, 31, 32, 33);
      var s := CMIX(s, 27, 28, 29, 31, 32, 33, 9, 10, 11);
      SMIX(mix, s, 27, 28, 29, 30)
    case 1 =>
      var s := TIX3(s, q, 27, 28, 31, 35, 7, 18, 21);
      var s := CMIX(s, 24, 25, 26, 28, 29, 30, 6, 7, 8);
      var s := SMIX(mix, s, 24, 25, 26, 27);
      var s := CMIX(s, 21, 22, 23, 25, 26, 27, 3, 4, 5);
      var s := SMIX(mix, s, 21, 22, 23, 24);
      var s := CMIX(s, 18, 19, 20, 22, 23, 24, 0, 1, 2);
      SMIX(mix, s, 18, 19, 20, 21)
    case 2 =>
      var s := TIX3(s, q, 18, 19, 22, 26, 34, 9, 12);
      var s := CMIX(s, 15, 16, 17, 19, 20, 21, 33, 34, 35);
      var s := SMIX(mix, s, 15, 16, 17, 18);
      var s := CMIX(s, 12, 13, 14, 16, 17, 18, 30, 31, 32);
      var s := SMIX(mix, s, 12, 13, 14, 15);
      var s := CMIX(s, 9, 10, 11, 13, 14, 15, 27, 28, 29);
      SMIX(mix, s, 9, 10, 11, 12)
    case _ =>
      var s := TIX3(s, q, 9, 10, 13, 17, 25, 0, 3);
      var s := CMIX(s, 6, 7, 8, 10, 11, 12, 24, 25, 26);
      var s := SMIX(mix, s, 6, 7, 8, 9);
      var s := CMIX(s, 3, 4, 5, 7, 8, 9, 21, 22, 23);
      var s := SMIX(mix, s, 3, 4, 5, 6);
      var s := CMIX(s, 0, 1, 2, 4, 5, 6, 18, 19, 20);
      SMIX(mix, s, 0, 1, 2, 3)
  }

  function Case4(mix: Mixer, c: nat, s: seq<Word>, q: Word): (r: seq<Word>)
    ensures |r| == |s|
  {
    match c
    case 0 =>
      var s := TIX4(s, q, 0, 1, 4, 7, 8, 22, 24, 27, 30);
      var s := CMIX(s, 33, 34, 35, 1, 2, 3, 15, 16, 17);
      var s := SMIX(mix, s, 33, 34, 35, 0);
      var s := CMIX(s, 30, 31, 32, 34, 35, 0, 12, 13, 14);
      var s := SMIX(mix, s, 30, 31, 32, 33);
      var s := CMIX(s, 27, 28, 29, 31, 32, 33, 9, 10, 11);
      var s := SMIX(mix, s, 27, 28, 29, 30);
      var s := CMIX(s, 24, 25, 26, 28, 29, 30, 6, 7, 8);
      SMIX(mix, s, 24, 25, 26, 27)
    case 1 =>
      var s := TIX4(s, q, 24, 25, 28, 31, 32, 10, 12, 15, 18);
      var s := CMIX(s, 21, 22, 23, 25, 26, 27, 3, 4, 5);
      var s := SMIX(mix, s, 21, 22, 23, 24);
      var s := CMIX(s, 18, 19, 20, 22, 23, 24, 0, 1, 2);
      var s := SMIX(mix, s, 18, 19, 20, 21);
      var s := CMIX(s, 15, 16, 17, 19, 20, 21, 33, 34, 35);
      var s := SMIX(mix, s, 15, 16, 17, 18);
      var s := CMIX(s, 12, 13, 14, 16, 17, 18, 30, 31, 32);
      SMIX(mix, s, 12, 13, 14, 15)
    case _ =>
      var s := TIX4(s, q, 12, 13, 16, 19, 20, 34, 0, 3, 6);
      var s := CMIX(s, 9, 10, 11, 13, 14, 15, 27, 28, 29);
      var s := SMIX(mix, s, 9, 10, 11, 12);
      var s := CMIX(s, 6, 7, 8, 10, 11, 12, 24, 25, 26);
      var s := SMIX(mix, s, 6, 7, 8, 9);
      var s := CMIX(s, 3, 4, 5, 7, 8, 9, 21, 22, 23);
      var s := SMIX(mix, s, 3, 4, 5, 6);
      var s := CMIX(s, 0, 1, 2, 4, 5, 6, 18, 19, 20);
      SMIX(mix, s, 0, 1, 2, 3)
  }

  function CaseOf(v: Variant, mix: Mixer, c: nat, s: seq<Word>, q: Word): (r: seq<Word>)
    ensures |r| == |s|
  {
    match v
    case Fugue2 => Case2(mix, c, s, q)
    case Fugue3 => Case3(mix, c, s, q)
    case Fugue4 => Case4(mix, c, s, q)
  }

  // ------------------------------------------------------------------ the plain algorithm

  /** Rotate the state by `k` words to the right: `ROR(k, n)`. */
  function ROR(k: nat, s: seq<Word>): (r: seq<Word>)
    requires k <= |s|
    ensures |r| == |s|
  {
    s[|s| - k..] + s[..|s| - k]
  }

  /** Take a message word in at the front of the state. */
  function TakeIn(v: Variant, s: seq<Word>, q: Word): (r: seq<Word>)
    ensures |r| == |s|
  {
    match v
    case Fugue2 => TIX2(s, q, 0, 1, 8, 10, 24)
    case Fugue3 => TIX3(s, q, 0, 1, 4, 8, 16, 27, 30)
    case Fugue4 => TIX4(s, q, 0, 1, 4, 7, 8, 22, 24, 27, 30)
  }

  /** Rotate by three words, then mix the front of the state. */
  function RotateAndMix(v: Variant, mix: Mixer, s: seq<Word>): (r: seq<Word>)
    requires |s| >= 3
    ensures |r| == |s|
  {
    var y := if v.Fugue2? then 15 else 18;
    MIX(mix, ROR(3, s), 0, 1, 2, 3, 4, 5, 6, y, y + 1, y + 2)
  }

  function MixTimes(v: Variant, mix: Mixer, s: seq<Word>, k: nat): (r: seq<Word>)
    requires |s| >= 3
    ensures |r| == |s|
  {
    if k == 0 then s else RotateAndMix(v, mix, MixTimes(v, mix, s, k - 1))
  }

  /** One round: a message word comes in, and the state turns by six, nine or twelve words while it is mixed. */
  function Round(v: Variant, mix: Mixer, s: seq<Word>, q: Word): (r: seq<Word>)
    requires |s| >= 3
    ensures |r| == |s|
  {
    MixTimes(v, mix, TakeIn(v, s, q), Shift(v) / 3)
  }

  // ------------------------------------------------------------------ renaming instead of rotating

  /** Where word `i` of the state lies when the front is at `off`. */
  function Pos(v: Variant, off: nat, i: nat): (p: nat)
    requires off < Size(v) && i < Size(v)
    ensures p < Size(v)
  {
    if i + off < Size(v) then i + off else i + off - Size(v)
  }

  /** The state read from `off` on. */
  function View(v: Variant, s: seq<Word>, off: nat): (r: seq<Word>)
    requires |s| == Size(v) && off < Size(v)
    ensures |r| == Size(v)
    ensures forall i :: 0 <= i < Size(v) ==> r[i] == s[Pos(v, off, i)]
  {
    seq(Size(v), i requires 0 <= i < Size(v) => s[Pos(v, off, i)])
  }

  lemma PosInjective(v: Variant, off: nat, i: nat, j: nat)
    requires off < Size(v) && i < Size(v) && j < Size(v)
    ensures Pos(v, off, i) == Pos(v, off, j) <==> i == j
  {
  }

  lemma PutView(v: Variant, s: seq<Word>, off: nat, i: nat, w: Word)
    requires |s| == Size(v) && off < Size(v) && i < Size(v)
    ensures View(v, Put(s, Pos(v, off, i), w), off) == Put(View(v, s, off), i, w)
  {
    forall j | 0 <= j < Size(v) ensures Pos(v, off, j) == Pos(v, off, i) <==> j == i {
      PosInjective(v, off, i, j);
    }
  }

  lemma XorView(v: Variant, s: seq<Word>, off: nat, i: nat, j: nat)
    requires |s| == Size(v) && off < Size(v) && i < Size(v) && j < Size(v)
    ensures View(v, Xor(s, Pos(v, off, i), Pos(v, off, j)), off) == Xor(View(v, s, off), i, j)
  {
    hide Sum;
    PutView(v, s, off, i, Sum(At(s, Pos(v, off, i)), At(s, Pos(v, off, j))));
  }

  /** The names that `TakeIn` gives its words when the front is at `off`. */
  function TakeInAt(v: Variant, s: seq<Word>, q: Word, off: nat): (r: seq<Word>)
    requires off < Size(v)
    ensures |r| == |s|
  {
    match v
    case Fugue2 =>
      TIX2(s, q, Pos(v, off, 0), Pos(v, off, 1), Pos(v, off, 8), Pos(v, off, 10), Pos(v, off, 24))
    case Fugue3 =>
      TIX3(s, q, Pos(v, off, 0), Pos(v, off, 1), Pos(v, off, 4), Pos(v, off, 8), Pos(v, off, 16),
           Pos(v, off, 27), Pos(v, off, 30))
    case Fugue4 =>
      TIX4(s, q, Pos(v, off, 0), Pos(v, off, 1), Pos(v, off, 4), Pos(v, off, 7), Pos(v, off, 8), Pos(v, off, 22),
           Pos(v, off, 24), Pos(v, off, 27), Pos(v, off, 30))
  }

  /** The same for one mixing of the front. */
  function MixAt(v: Variant, mix: Mixer, s: seq<Word>, off: nat): (r: seq<Word>)
    requires off < Size(v)
    ensures |r| == |s|
  {
    var y := if v.Fugue2? then 15 else 18;
    MIX(mix, s, Pos(v, off, 0), Pos(v, off, 1), Pos(v, off, 2), Pos(v, off, 3), Pos(v, off, 4), Pos(v, off, 5),
        Pos(v, off, 6), Pos(v, off, y), Pos(v, off, y + 1), Pos(v, off, y + 2))
  }

  lemma TIX2View(s: seq<Word>, q: Word, off: nat)
    requires |s| == 30 && off < 30
    ensures View(Fugue2, TakeInAt(Fugue2, s, q, off), off) == TakeIn(Fugue2, View(Fugue2, s, off), q)
  {
    var v := Fugue2;
    hide Pos, View, Xor, Put;
    XorView(v, s, off, 10, 0);
    var s1 := Xor(s, Pos(v, off, 10), Pos(v, off, 0));
    PutView(v, s1, off, 0, q);
    var s2 := Put(s1, Pos(v, off, 0), q);
    XorView(v, s2, off, 8, 0);
    var s3 := Xor(s2, Pos(v, off, 8), Pos(v, off, 0));
    XorView(v, s3, off, 1, 24);
  }

  lemma TIX3View(s: seq<Word>, q: Word, off: nat)
    requires |s| == 36 && off < 36
    ensures View(Fugue3, TakeInAt(Fugue3, s, q, off), off) == TakeIn(Fugue3, View(Fugue3, s, off), q)
  {
    var v := Fugue3;
    hide Pos, View, Xor, Put;
    XorView(v, s, off, 16, 0);
    var s1 := Xor(s, Pos(v, off, 16), Pos(v, off, 0));
    PutView(v, s1, off, 0, q);
    var s2 := Put(s1, Pos(v, off, 0), q);
    XorView(v, s2, off, 8, 0);
    var s3 := Xor(s2, Pos(v, off, 8), Pos(v, off, 0));
    XorView(v, s3, off, 1, 27);
    var s4 := Xor(s3, Pos(v, off, 1), Pos(v, off, 27));
    XorView(v, s4, off, 4, 30);
  }

  lemma TIX4View(s: seq<Word>, q: Word, off: nat)
    requires |s| == 36 && off < 36
    ensures View(Fugue4, TakeInAt(Fugue4, s, q, off), off) == TakeIn(Fugue4, View(Fugue4, s, off), q)
  {
    var v := Fugue4;
    hide Pos, View, Xor, Put;
    XorView(v, s, off, 22, 0);
    var s1 := Xor(s, Pos(v, off, 22), Pos(v, off, 0));
    PutView(v, s1, off, 0, q);
    var s2 := Put(s1, Pos(v, off, 0), q);
    XorView(v, s2, off, 8, 0);
    var s3 := Xor(s2, Pos(v, off, 8), Pos(v, off, 0));
    XorView(v, s3, off, 1, 24);
    var s4 := Xor(s3, Pos(v, off, 1), Pos(v, off, 24));
    XorView(v, s4, off, 4, 27);
    var s5 := Xor(s4, Pos(v, off, 4), Pos(v, off, 27));
    XorView(v, s5, off, 7, 30);
  }

  function CMIXAt(v: Variant, s: seq<Word>, off: nat, y: nat): (r: seq<Word>)
    requires off < Size(v) && y + 2 < Size(v)
    ensures |r| == |s|
  {
    CMIX(s, Pos(v, off, 0), Pos(v, off, 1), Pos(v, off, 2), Pos(v, off, 4), Pos(v, off, 5), Pos(v, off, 6),
         Pos(v, off, y), Pos(v, off, y + 1), Pos(v, off, y + 2))
  }

  lemma CMIXView(v: Variant, s: seq<Word>, off: nat, y: nat)
    requires |s| == Size(v) && off < Size(v) && y + 2 < Size(v)
    ensures View(v, CMIXAt(v, s, off, y), off) == CMIX(View(v, s, off), 0, 1, 2, 4, 5, 6, y, y + 1, y + 2)
  {
    hide Pos, View, Xor, Put;
    XorView(v, s, off, 0, 4);
    var s1 := Xor(s, Pos(v, off, 0), Pos(v, off, 4));
    XorView(v, s1, off, 1, 5);
    var s2 := Xor(s1, Pos(v, off, 1), Pos(v, off, 5));
    XorView(v, s2, off, 2, 6);
    var s3 := Xor(s2, Pos(v, off, 2), Pos(v, off, 6));
    XorView(v, s3, off, y, 4);
    var s4 := Xor(s3, Pos(v, off, y), Pos(v, off, 4));
    XorView(v, s4, off, y + 1, 5);
    var s5 := Xor(s4, Pos(v, off, y + 1), Pos(v, off, 5));
    XorView(v, s5, off, y + 2, 6);
  }

  lemma AtView(v: Variant, s: seq<Word>, off: nat, i: nat)
    requires |s| == Size(v) && off < Size(v) && i < Size(v)
    ensures At(View(v, s, off), i) == At(s, Pos(v, off, i))
  {
  }

  lemma SMIXView(v: Variant, mix: Mixer, s: seq<Word>, off: nat)
    requires |s| == Size(v) && off < Size(v)
    ensures View(v, SMIX(mix, s, Pos(v, off, 0), Pos(v, off, 1), Pos(v, off, 2), Pos(v, off, 3)), off)
            == SMIX(mix, View(v, s, off), 0, 1, 2, 3)
  {
    hide Put, View, Pos, At;
    var x0, x1 := At(s, Pos(v, off, 0)), At(s, Pos(v, off, 1));
    var x2, x3 := At(s, Pos(v, off, 2)), At(s, Pos(v, off, 3));
    AtView(v, s, off, 0);
    AtView(v, s, off, 1);
    AtView(v, s, off, 2);
    AtView(v, s, off, 3);
    var (y0, y1, y2, y3) := mix(x0, x1, x2, x3);
    PutView(v, s, off, 0, y0);
    var s1 := Put(s, Pos(v, off, 0), y0);
    PutView(v, s1, off, 1, y1);
    var s2 := Put(s1, Pos(v, off, 1), y1);
    PutView(v, s2, off, 2, y2);
    var s3 := Put(s2, Pos(v, off, 2), y2);
    PutView(v, s3, off, 3, y3);
  }

  lemma MixView(v: Variant, mix: Mixer, s: seq<Word>, off: nat)
    requires |s| == Size(v) && off < Size(v)
    ensures var y := if v.Fugue2? then 15 else 18;
      View(v, MixAt(v, mix, s, off), off) == MIX(mix, View(v, s, off), 0, 1, 2, 3, 4, 5, 6, y, y + 1, y + 2)
  {
    var y := if v.Fugue2? then 15 else 18;
    CMIXView(v, s, off, y);
    hide Pos, View, CMIX, SMIX;
    SMIXView(v, mix, CMIXAt(v, s, off, y), off);
  }

  function Back3(v: Variant, off: nat): (r: nat)
    ensures off < Size(v) ==> r < Size(v)
  {
    if off < 3 then off + Size(v) - 3 else off - 3
  }

  /** Moving the front back by three words is rotating the state. */
  lemma RotateView(v: Variant, s: seq<Word>, off: nat, off': nat)
    requires |s| == Size(v) && off < Size(v) && off' == Back3(v, off)
    ensures View(v, s, off') == ROR(3, View(v, s, off))
  {
  }

  /** The front after `k` mixings. */
  function Back(v: Variant, off: nat, k: nat): (r: nat)
    ensures off < Size(v) ==> r < Size(v)
  {
    if k == 0 then off else Back3(v, Back(v, off, k - 1))
  }

  /** `k` mixings under changing names. */
  function MixTimesAt(v: Variant, mix: Mixer, s: seq<Word>, off: nat, k: nat): (r: seq<Word>)
    requires off < Size(v)
    ensures |r| == |s|
  {
    if k == 0 then s else MixAt(v, mix, MixTimesAt(v, mix, s, off, k - 1), Back(v, off, k))
  }

  lemma {:induction false} MixTimesView(v: Variant, mix: Mixer, s: seq<Word>, off: nat, k: nat)
    requires |s| == Size(v) && off < Size(v)
    ensures View(v, MixTimesAt(v, mix, s, off, k), Back(v, off, k)) == MixTimes(v, mix, View(v, s, off), k)
  {
    hide View, MIX, ROR, Pos, MixAt, Back3;
    if k > 0 {
      MixTimesView(v, mix, s, off, k - 1);
      var u := MixTimesAt(v, mix, s, off, k - 1);
      RotateView(v, u, Back(v, off, k - 1), Back(v, off, k));
      MixView(v, mix, u, Back(v, off, k));
    }
  }

  /** A whole round under the names that start at `off`. */
  function RoundAt(v: Variant, mix: Mixer, s: seq<Word>, q: Word, off: nat): (r: seq<Word>)
    requires off < Size(v)
    ensures |r| == |s|
  {
    MixTimesAt(v, mix, TakeInAt(v, s, q, off), off, Shift(v) / 3)
  }

  lemma RoundView(v: Variant, mix: Mixer, s: seq<Word>, q: Word, off: nat)
    requires |s| == Size(v) && off < Size(v)
    ensures View(v, RoundAt(v, mix, s, q, off), Back(v, off, Shift(v) / 3)) == Round(v, mix, View(v, s, off), q)
  {
    match v {
      case Fugue2 => TIX2View(s, q, off);
      case Fugue3 => TIX3View(s, q, off);
      case Fugue4 => TIX4View(s, q, off);
    }
    hide View, MixTimes, MixTimesAt, TakeIn, TakeInAt;
    MixTimesView(v, mix, TakeInAt(v, s, q, off), off, Shift(v) / 3);
  }

  /** The front of the state in switch case `c`. */
  function Front(v: Variant, c: nat): (off: nat)
    requires c < Cases(v)
    ensures off < Size(v)
  {
    if c == 0 then 0 else Size(v) - c * Shift(v)
  }

  function NextCase(v: Variant, c: nat): (r: nat)
    ensures r < Cases(v)
  {
    if c + 1 < Cases(v) then c + 1 else 0
  }

  lemma FrontMoves(v: Variant, c: nat)
    requires c < Cases(v)
    ensures Back(v, Front(v, c), Shift(v) / 3) == Front(v, NextCase(v, c))
  {
    var off := Front(v, c);
    assert Back(v, off, 1) == Back3(v, off);
    assert Back(v, off, 2) == Back3(v, Back(v, off, 1));
    assert Back(v, off, 3) == Back3(v, Back(v, off, 2));
    assert Back(v, off, 4) == Back3(v, Back(v, off, 3));
  }

  lemma Case2Names(mix: Mixer, c: nat, s: seq<Word>, q: Word)
    requires c < 5
    ensures Case2(mix, c, s, q) == RoundAt(Fugue2, mix, s, q, Front(Fugue2, c))
  {
    hide CMIX, SMIX, TIX2;
    var v, off := Fugue2, Front(Fugue2, c);
    var s0 := TakeInAt(v, s, q, off);
    assert MixTimesAt(v, mix, s0, off, 1) == MixAt(v, mix, s0, Back(v, off, 1));
    assert MixTimesAt(v, mix, s0, off, 2) == MixAt(v, mix, MixTimesAt(v, mix, s0, off, 1), Back(v, off, 2));
    assert Back(v, off, 1) == Back3(v, off) && Back(v, off, 2) == Back3(v, Back(v, off, 1));
  }

  lemma Case3Names(mix: Mixer, c: nat, s: seq<Word>, q: Word)
    requires c < 4
    ensures Case3(mix, c, s, q) == RoundAt(Fugue3, mix, s, q, Front(Fugue3, c))
  {
    hide CMIX, SMIX, TIX3;
    var v, off := Fugue3, Front(Fugue3, c);
    var s0 := TakeInAt(v, s, q, off);
    assert MixTimesAt(v, mix, s0, off, 1) == MixAt(v, mix, s0, Back(v, off, 1));
    assert MixTimesAt(v, mix, s0, off, 2) == MixAt(v, mix, MixTimesAt(v, mix, s0, off, 1), Back(v, off, 2));
    assert MixTimesAt(v, mix, s0, off, 3) == MixAt(v, mix, MixTimesAt(v, mix, s0, off, 2), Back(v, off, 3));
    assert Back(v, off, 1) == Back3(v, off) && Back(v, off, 2) == Back3(v, Back(v, off, 1));
    assert Back(v, off, 3) == Back3(v, Back(v, off, 2));
  }

  lemma Case4Names(mix: Mixer, c: nat, s: seq<Word>, q: Word)
    requires c < 3
    ensures Case4(mix, c, s, q) == RoundAt(Fugue4, mix, s, q, Front(Fugue4, c))
  {
    hide CMIX, SMIX, TIX4;
    var v, off := Fugue4, Front(Fugue4, c);
    var s0 := TakeInAt(v, s, q, off);
    assert MixTimesAt(v, mix, s0, off, 1) == MixAt(v, mix, s0, Back(v, off, 1));
    assert MixTimesAt(v, mix, s0, off, 2) == MixAt(v, mix, MixTimesAt(v, mix, s0, off, 1), Back(v, off, 2));
    assert MixTimesAt(v, mix, s0, off, 3) == MixAt(v, mix, MixTimesAt(v, mix, s0, off, 2), Back(v, off, 3));
    assert MixTimesAt(v, mix, s0, off, 4) == MixAt(v, mix, MixTimesAt(v, mix, s0, off, 3), Back(v, off, 4));
    assert Back(v, off, 1) == Back3(v, off) && Back(v, off, 2) == Back3(v, Back(v, off, 1));
    assert Back(v, off, 3) == Back3(v, Back(v, off, 2)) && Back(v, off, 4) == Back3(v, Back(v, off, 3));
  }

  /** Every switch case is one plain round, on the state read from that case's front. */
  lemma CaseIsRound(v: Variant, mix: Mixer, c: nat, s: seq<Word>, q: Word)
    requires |s| == Size(v) && c < Cases(v)
    ensures View(v, CaseOf(v, mix, c, s, q), Front(v, NextCase(v, c))) == Round(v, mix, View(v, s, Front(v, c)), q)
  {
    match v {
      case Fugue2 => Case2Names(mix, c, s, q);
      case Fugue3 => Case3Names(mix, c, s, q);
      case Fugue4 => Case4Names(mix, c, s, q);
    }
    hide Case2, Case3, Case4, RoundAt, Round, View, Front, Back;
    FrontMoves(v, c);
    RoundView(v, mix, s, q, Front(v, c));
  }
}
