/** Fugue word by word: what each step of a round and of the close does to every word of the state, in numbers, for
    any super-mix, and the run of states that a message goes through. */
module FugueLaws {
  import opened BlakePadding
  import opened Bytes
  import opened Division
  import opened Fugue
  import opened FugueRounds

  // ---- the steps, word by word ----

  /** A message word goes in: eight to eleven words of the state are read, four to six change. */
  predicate TakenIn(v: Variant, s: seq<Word>, q: Word, t: seq<Word>) {
    match v
    case Fugue2 =>
      && |s| == |t| == 30 && t[0] == q && t[1] == Sum(s[1], s[24]) && t[8] == Sum(s[8], q) && t[10] == Sum(s[10], s[0])
      && forall i :: 0 <= i < 30 && i !in {0, 1, 8, 10} ==> t[i] == s[i]
    case Fugue3 =>
      && |s| == |t| == 36 && t[0] == q && t[1] == Sum(s[1], s[27]) && t[4] == Sum(s[4], s[30]) && t[8] == Sum(s[8], q)
      && t[16] == Sum(s[16], s[0])
      && forall i :: 0 <= i < 36 && i !in {0, 1, 4, 8, 16} ==> t[i] == s[i]
    case Fugue4 =>
      && |s| == |t| == 36 && t[0] == q && t[1] == Sum(s[1], s[24]) && t[4] == Sum(s[4], s[27])
      && t[7] == Sum(s[7], s[30]) && t[8] == Sum(s[8], q) && t[22] == Sum(s[22], s[0])
      && forall i :: 0 <= i < 36 && i !in {0, 1, 4, 7, 8, 22} ==> t[i] == s[i]
  }

  /** The state turns by three words; three words are combined with the three behind the front, and so are three in
      the middle, which lie at `y`; then the first four are mixed. */
  predicate FrontMixed(v: Variant, mix: Mixer, s: seq<Word>, t: seq<Word>) {
    var n, y := if v == Fugue2 then 30 else 36, if v == Fugue2 then 15 else 18;
    && |s| == |t| == n
    && (t[0], t[1], t[2], t[3]) == mix(Sum(s[n - 3], s[1]), Sum(s[n - 2], s[2]), Sum(s[n - 1], s[3]), s[0])
    && (forall i :: 4 <= i < n && !(y <= i < y + 3) ==> t[i] == s[i - 3])
    && t[y] == Sum(s[y - 3], s[1]) && t[y + 1] == Sum(s[y - 2], s[2]) && t[y + 2] == Sum(s[y - 1], s[3])
  }

  /** How many mixings a round has, the first closing loop, and one pass of the second. */
  function RoundMixings(v: Variant): nat { match v case Fugue2 => 2 case Fugue3 => 3 case Fugue4 => 4 }

  function FirstMixings(v: Variant): nat { match v case Fugue2 => 10 case Fugue3 => 18 case Fugue4 => 32 }

  function PassMixings(v: Variant): nat { match v case Fugue2 => 2 case Fugue3 => 3 case Fugue4 => 4 }

  /** A closing pass sees the state as two columns of 15 words, three of 12 or four of 9. */
  function Column(v: Variant): nat { match v case Fugue2 => 15 case Fugue3 => 12 case Fugue4 => 9 }

  /** The words that step `j` of a pass combines with the first: the fifth, and the first of each further column, or
      the one behind it in the columns that earlier steps of the pass have been through. */
  predicate IsMark(v: Variant, j: nat, i: nat) {
    var m := i / Column(v);
    i == 4 || (1 <= m < PassMixings(v) && i % Column(v) == if m <= j then 1 else 0)
  }

  /** A step turns the state by a column, the last one of a pass by one word less. */
  function Turn(v: Variant, j: nat): nat { if j + 1 == PassMixings(v) then Column(v) - 1 else Column(v) }

  /** Word `i` after step `j` has combined some words with the first. */
  function Combined(v: Variant, j: nat, s: seq<Word>, i: nat): Word
    requires i < |s|
  {
    if IsMark(v, j, i) then Sum(s[i], s[0]) else s[i]
  }

  /** Step `j` of a pass: some words are combined with the first, the state turns, the first four are mixed. */
  predicate Struck(v: Variant, j: nat, mix: Mixer, s: seq<Word>, t: seq<Word>) {
    var n, k := |s|, Turn(v, j);
    && |t| == n == Size(v)
    && (t[0], t[1], t[2], t[3]) == mix(Combined(v, j, s, n - k), Combined(v, j, s, n - k + 1),
                                       Combined(v, j, s, n - k + 2), Combined(v, j, s, n - k + 3))
    && forall i :: 4 <= i < n ==> t[i] == Combined(v, j, s, if i < k then n - k + i else i - k)
  }

  // ---- the functions of the algorithm, word by word ----

  /** Each bit of a sum is set in exactly one of the two words. */
  lemma SumOf(a: Word, b: Word)
    ensures Sum(a, b) == (a | b) - (a & b)
  {
  }

  lemma XorAt(s: seq<Word>, i: nat, j: nat, k: nat)
    requires i < |s| && j < |s| && k < |s|
    ensures Xor(s, i, j)[k] == if k == i then Sum(s[i], s[j]) else s[k]
  {
    hide Sum;
  }

  lemma XorIs(s: seq<Word>, i: nat, j: nat)
    requires i < |s| && j < |s|
    ensures Xor(s, i, j) == s[i := Sum(s[i], s[j])]
  {
    hide Sum;
  }

  lemma TakeInWords2(s: seq<Word>, q: Word)
    requires |s| == 30
    ensures TakenIn(Fugue2, s, q, TIX2(s, q, 0, 1, 8, 10, 24))
  {
    hide Sum, Xor;
    XorIs(s, 10, 0);
    var s1 := FugueRounds.Put(Xor(s, 10, 0), 0, q);
    XorIs(s1, 8, 0);
    XorIs(Xor(s1, 8, 0), 1, 24);
  }

  lemma TakeInWords3(s: seq<Word>, q: Word)
    requires |s| == 36
    ensures TakenIn(Fugue3, s, q, TIX3(s, q, 0, 1, 4, 8, 16, 27, 30))
  {
    hide Sum, Xor;
    XorIs(s, 16, 0);
    var s1 := FugueRounds.Put(Xor(s, 16, 0), 0, q);
    XorIs(s1, 8, 0);
    var s2 := Xor(s1, 8, 0);
    XorIs(s2, 1, 27);
    XorIs(Xor(s2, 1, 27), 4, 30);
  }

  lemma TakeInWords4(s: seq<Word>, q: Word)
    requires |s| == 36
    ensures TakenIn(Fugue4, s, q, TIX4(s, q, 0, 1, 4, 7, 8, 22, 24, 27, 30))
  {
    hide Sum, Xor;
    XorIs(s, 22, 0);
    var s1 := FugueRounds.Put(Xor(s, 22, 0), 0, q);
    XorIs(s1, 8, 0);
    var s2 := Xor(s1, 8, 0);
    XorIs(s2, 1, 24);
    var s3 := Xor(s2, 1, 24);
    XorIs(s3, 4, 27);
    XorIs(Xor(s3, 4, 27), 7, 30);
  }

  lemma TakeInWords(v: Variant, s: seq<Word>, q: Word)
    requires |s| == Size(v)
    ensures TakenIn(v, s, q, TakeIn(v, s, q))
  {
    hide TIX2, TIX3, TIX4, TakenIn;
    match v
    case Fugue2 => TakeInWords2(s, q);
    case Fugue3 => TakeInWords3(s, q);
    case Fugue4 => TakeInWords4(s, q);
  }

  lemma TurnedAt(s: seq<Word>, k: nat, i: nat)
    requires k < |s| && i < |s|
    ensures ROR(k, s)[i] == s[if i < k then |s| - k + i else i - k]
  {
  }

  lemma MixedAt(mix: Mixer, s: seq<Word>)
    requires |s| >= 4
    ensures var t := SMIX(mix, s, 0, 1, 2, 3);
      (t[0], t[1], t[2], t[3]) == mix(s[0], s[1], s[2], s[3]) && t[4..] == s[4..]
  {
  }

  lemma {:induction false} FlippedAt(s: seq<Word>, names: seq<nat>, i: nat)
    requires i < |s| && 0 !in names && forall a, b :: 0 <= a < b < |names| ==> names[a] != names[b]
    ensures Flip(s, names)[i] == if i in names then Sum(s[i], s[0]) else s[i]
  {
    hide Sum, Xor;
    if names != [] {
      var rest, last := names[..|names| - 1], names[|names| - 1];
      assert names == rest + [last];
      FlippedAt(s, rest, i);
      FlippedAt(s, rest, 0);
      if last < |s| {
        XorAt(Flip(s, rest), last, 0, i);
      } else {
        NoSuchWord(Flip(s, rest), last, 0);
      }
    }
  }

  lemma NoSuchWord(s: seq<Word>, i: nat, j: nat)
    requires i >= |s|
    ensures Xor(s, i, j) == s
  {
    hide Sum;
  }

  /** One step of a closing pass. */
  lemma BlendWords(v: Variant, j: nat, mix: Mixer, s: seq<Word>, names: seq<nat>)
    requires |s| == Size(v) && 0 !in names && forall a, b :: 0 <= a < b < |names| ==> names[a] != names[b]
    requires forall x: nat :: x < |s| ==> (x in names <==> IsMark(v, j, x))
    ensures Struck(v, j, mix, s, Blend(mix, s, names, Turn(v, j)))
  {
    hide Sum, Flip, ROR, SMIX, IsMark;
    var n, k, f := |s|, Turn(v, j), Flip(s, names);
    forall i | 0 <= i < n ensures f[i] == Combined(v, j, s, i) {
      FlippedAt(s, names, i);
    }
    var u := ROR(k, f);
    forall i | 0 <= i < n ensures u[i] == f[if i < k then n - k + i else i - k] {
      TurnedAt(f, k, i);
    }
    MixedAt(mix, u);
    var t := SMIX(mix, u, 0, 1, 2, 3);
    forall i | 4 <= i < n ensures t[i] == u[i] {
      assert t[4..][i - 4] == u[4..][i - 4];
    }
  }

  lemma ThreeSums(s: seq<Word>, x: nat, i: nat)
    requires |s| >= 7 && (x + 2 < 4 || 6 < x) && x + 2 < |s| && i < |s|
    ensures var t := Xor(Xor(Xor(s, x, 4), x + 1, 5), x + 2, 6);
      t[i] == if x <= i < x + 3 then Sum(s[i], s[4 + i - x]) else s[i]
  {
    hide Sum, Xor;
    XorIs(s, x, 4);
    var s1 := Xor(s, x, 4);
    XorIs(s1, x + 1, 5);
    var s2 := Xor(s1, x + 1, 5);
    XorIs(s2, x + 2, 6);
  }

  lemma CombinedAt(s: seq<Word>, y: nat, i: nat)
    requires |s| >= 21 && 7 <= y && y + 2 < |s| && i < |s|
    ensures var t := CMIX(s, 0, 1, 2, 4, 5, 6, y, y + 1, y + 2);
      t[i] == if i < 3 then Sum(s[i], s[i + 4]) else if y <= i < y + 3 then Sum(s[i], s[4 + i - y]) else s[i]
  {
    hide Sum, Xor;
    var t := Xor(Xor(Xor(s, 0, 4), 1, 5), 2, 6);
    ThreeSums(s, 0, 4);
    ThreeSums(s, 0, 5);
    ThreeSums(s, 0, 6);
    ThreeSums(s, 0, i);
    ThreeSums(t, y, i);
  }

  lemma BeforeMixing(s: seq<Word>, y: nat, i: nat)
    requires |s| >= 21 && 7 <= y && y + 2 < |s| && i < |s|
    ensures var w := CMIX(ROR(3, s), 0, 1, 2, 4, 5, 6, y, y + 1, y + 2);
      w[i] == if i < 3 then Sum(s[|s| - 3 + i], s[1 + i])
              else if y <= i < y + 3 then Sum(s[i - 3], s[1 + i - y])
              else s[i - 3]
  {
    hide Sum, ROR, CMIX;
    CombinedAt(ROR(3, s), y, i);
    TurnedAt(s, 3, i);
    if i < 3 {
      TurnedAt(s, 3, i + 4);
    } else if y <= i < y + 3 {
      TurnedAt(s, 3, 4 + i - y);
    }
  }

  lemma RotateAndMixWords(v: Variant, mix: Mixer, s: seq<Word>)
    requires |s| == Size(v)
    ensures FrontMixed(v, mix, s, RotateAndMix(v, mix, s))
  {
    hide Sum, ROR, CMIX, SMIX;
    var n, y := Size(v), if v.Fugue2? then 15 else 18;
    var w := CMIX(ROR(3, s), 0, 1, 2, 4, 5, 6, y, y + 1, y + 2);
    MixedAt(mix, w);
    BeforeMixing(s, y, 0);
    BeforeMixing(s, y, 1);
    BeforeMixing(s, y, 2);
    BeforeMixing(s, y, 3);
    var t := SMIX(mix, w, 0, 1, 2, 3);
    forall i | 4 <= i < n ensures t[i] == if y <= i < y + 3 then Sum(s[i - 3], s[1 + i - y]) else s[i - 3] {
      BeforeMixing(s, y, i);
      assert t[4..][i - 4] == w[4..][i - 4];
    }
  }

  // ---- runs of states ----

  /** One round is a run: the message word goes in, then two, three or four mixings. */
  lemma RoundRun(v: Variant, mix: Mixer, s: seq<Word>, q: Word) returns (states: seq<seq<Word>>)
    requires |s| == Size(v)
    ensures |states| == 1 + RoundMixings(v) && TakenIn(v, s, q, states[0])
    ensures forall j :: 0 <= j < RoundMixings(v) ==> FrontMixed(v, mix, states[j], states[j + 1])
    ensures Round(v, mix, s, q) == states[RoundMixings(v)]
  {
    hide TakenIn, TakeIn, FrontMixed, RotateAndMix;
    TakeInWords(v, s, q);
    states := MixingRun(v, mix, TakeIn(v, s, q), RoundMixings(v));
  }

  lemma {:induction false} MixingRun(v: Variant, mix: Mixer, s: seq<Word>, k: nat) returns (states: seq<seq<Word>>)
    requires |s| == Size(v)
    ensures |states| == 1 + k && states[0] == s && states[k] == MixTimes(v, mix, s, k)
    ensures forall j :: 0 <= j < k ==> FrontMixed(v, mix, states[j], states[j + 1])
  {
    hide FrontMixed, RotateAndMix;
    if k == 0 {
      states := [s];
    } else {
      var before := MixingRun(v, mix, s, k - 1);
      RotateAndMixWords(v, mix, before[k - 1]);
      states := before + [RotateAndMix(v, mix, before[k - 1])];
    }
  }

  /** The states of one closing pass. */
  predicate PassRun(v: Variant, mix: Mixer, run: seq<seq<Word>>) {
    && |run| == PassMixings(v) + 1
    && forall j :: 0 <= j < PassMixings(v) ==> Struck(v, j, mix, run[j], run[j + 1])
  }

  lemma PassRun2(mix: Mixer, s: seq<Word>) returns (run: seq<seq<Word>>)
    requires |s| == 30
    ensures PassRun(Fugue2, mix, run) && run[0] == s && run[2] == Blended(Fugue2, mix, s)
  {
    hide Struck, Blend;
    var t := Blend(mix, s, [4, 15], 15);
    BlendWords(Fugue2, 0, mix, s, [4, 15]);
    BlendWords(Fugue2, 1, mix, t, [4, 16]);
    run := [s, t, Blend(mix, t, [4, 16], 14)];
  }

  lemma PassRun3(mix: Mixer, s: seq<Word>) returns (run: seq<seq<Word>>)
    requires |s| == 36
    ensures PassRun(Fugue3, mix, run) && run[0] == s && run[3] == Blended(Fugue3, mix, s)
  {
    hide Struck, Blend;
    var t := Blend(mix, s, [4, 12, 24], 12);
    var u := Blend(mix, t, [4, 13, 24], 12);
    BlendWords(Fugue3, 0, mix, s, [4, 12, 24]);
    BlendWords(Fugue3, 1, mix, t, [4, 13, 24]);
    BlendWords(Fugue3, 2, mix, u, [4, 13, 25]);
    run := [s, t, u, Blend(mix, u, [4, 13, 25], 11)];
  }

  lemma PassRun4(mix: Mixer, s: seq<Word>) returns (run: seq<seq<Word>>)
    requires |s| == 36
    ensures PassRun(Fugue4, mix, run) && run[0] == s && run[4] == Blended(Fugue4, mix, s)
  {
    hide Struck, Blend;
    var t := Blend(mix, s, [4, 9, 18, 27], 9);
    var u := Blend(mix, t, [4, 10, 18, 27], 9);
    var w := Blend(mix, u, [4, 10, 19, 27], 9);
    BlendWords(Fugue4, 0, mix, s, [4, 9, 18, 27]);
    BlendWords(Fugue4, 1, mix, t, [4, 10, 18, 27]);
    BlendWords(Fugue4, 2, mix, u, [4, 10, 19, 27]);
    BlendWords(Fugue4, 3, mix, w, [4, 10, 19, 28]);
    run := [s, t, u, w, Blend(mix, w, [4, 10, 19, 28], 8)];
  }

  lemma OnePass(v: Variant, mix: Mixer, s: seq<Word>) returns (run: seq<seq<Word>>)
    requires |s| == Size(v)
    ensures PassRun(v, mix, run) && run[0] == s && run[PassMixings(v)] == Blended(v, mix, s)
  {
    hide PassRun, Blended;
    match v {
      case Fugue2 => run := PassRun2(mix, s);
      case Fugue3 => run := PassRun3(mix, s);
      case Fugue4 => run := PassRun4(mix, s);
    }
    PassRunLength(v, mix, run);
  }

  lemma PassRunLength(v: Variant, mix: Mixer, run: seq<seq<Word>>)
    requires PassRun(v, mix, run)
    ensures |run| == PassMixings(v) + 1
  {
    hide Struck;
  }

  /** The states of a close with `passes` passes: every step of every loop. */
  predicate ClosingRun(v: Variant, mix: Mixer, run: seq<seq<Word>>, passes: nat) {
    var first, k := FirstMixings(v), PassMixings(v);
    && |run| == first + k * passes + 1
    && (forall j :: 0 <= j < first ==> FrontMixed(v, mix, run[j], run[j + 1]))
    && (forall j :: first <= j < first + k * passes ==> Struck(v, (j - first) % k, mix, run[j], run[j + 1]))
  }

  lemma {:induction false} PassesRun(v: Variant, mix: Mixer, s: seq<Word>, passes: nat) returns (run: seq<seq<Word>>)
    requires |s| == Size(v)
    ensures ClosingRun(v, mix, run, passes) && run[0] == s
    ensures run[|run| - 1] == BlendedTimes(v, mix, MixTimes(v, mix, s, FirstMixings(v)), passes)
  {
    hide FrontMixed, Struck, Blended, MixTimes;
    var first, k := FirstMixings(v), PassMixings(v);
    if passes == 0 {
      run := MixingRun(v, mix, s, first);
    } else {
      var before := PassesRun(v, mix, s, passes - 1);
      var pass := OnePass(v, mix, before[|before| - 1]);
      run := Extended(v, mix, before, pass, passes - 1);
    }
  }

  /** One pass more. */
  lemma Extended(v: Variant, mix: Mixer, run: seq<seq<Word>>, pass: seq<seq<Word>>, passes: nat)
    returns (r: seq<seq<Word>>)
    requires ClosingRun(v, mix, run, passes) && PassRun(v, mix, pass) && pass[0] == run[|run| - 1]
    ensures ClosingRun(v, mix, r, passes + 1) && r[0] == run[0] && r[|r| - 1] == pass[PassMixings(v)]
  {
    hide FrontMixed, Struck;
    var first, k := FirstMixings(v), PassMixings(v);
    r := run + pass[1..];
    assert k * (passes + 1) == k * passes + k;
    forall j | first <= j < first + k * (passes + 1) ensures Struck(v, (j - first) % k, mix, r[j], r[j + 1]) {
      if j >= first + k * passes {
        var i := j - (first + k * passes);
        assert r[j] == pass[i] && r[j + 1] == pass[i + 1];
        assert j - first == passes * k + i;
        Divided(k, j - first, passes, i);
      }
    }
  }

  /** Word `w` of the digest, from the last state: columns of four words each, the first column from its second word
      on; the fifth word and the first of each further column are combined with the first word. */
  function DigestWord(v: Variant, last: seq<Word>, w: nat): Word
    requires |last| == Size(v) && w < 4 * PassMixings(v)
  {
    var m, e := w / 4, w % 4;
    var i := if m == 0 then e + 1 else m * Column(v) + e;
    if i == 4 || (m > 0 && e == 0) then Sum(last[i], last[0]) else last[i]
  }

  /** The close is a run of 36, 57 or 84 mixings, and the digest comes from its last state. */
  lemma CloseRun(v: Variant, mix: Mixer, s: seq<Word>, outWords: nat) returns (run: seq<seq<Word>>)
    requires |s| == Size(v)
    ensures ClosingRun(v, mix, run, 13) && run[0] == s
    ensures |run| == 1 + match v case Fugue2 => 36 case Fugue3 => 57 case Fugue4 => 84
    ensures var digest, last := Output(v, mix, s, outWords), run[|run| - 1];
      && |last| == Size(v)
      && |digest| == (if outWords <= 4 * PassMixings(v) then outWords else 4 * PassMixings(v))
      && forall w :: 0 <= w < |digest| ==> digest[w] == DigestWord(v, last, w)
  {
    hide ClosingRun, BlendedTimes, MixTimes, Flip, OutputWords, LastFlips;
    assert ClosingMixes(v) == FirstMixings(v);
    run := PassesRun(v, mix, s, 13);
    RunLength(v, mix, run, 13);
    var last := run[|run| - 1];
    var all := Picked(Flip(last, LastFlips(v)), OutputWords(v), outWords);
    OutputLength(v);
    forall w | 0 <= w < |all| ensures all[w] == DigestWord(v, last, w) {
      OutputWordAt(v, last, w);
    }
  }

  lemma RunLength(v: Variant, mix: Mixer, run: seq<seq<Word>>, passes: nat)
    requires ClosingRun(v, mix, run, passes)
    ensures |run| == FirstMixings(v) + PassMixings(v) * passes + 1
  {
    hide FrontMixed, Struck;
  }

  lemma OutputLength(v: Variant)
    ensures |OutputWords(v)| == 4 * PassMixings(v)
  {
  }

  lemma OutputName(v: Variant, w: nat)
    requires w < 4 * PassMixings(v)
    ensures w < |OutputWords(v)|
    ensures OutputWords(v)[w] == if w / 4 == 0 then w % 4 + 1 else w / 4 * Column(v) + w % 4
  {
    match v case Fugue2 => case Fugue3 => case Fugue4 =>
  }

  lemma LastFlipNames(v: Variant, i: nat)
    ensures i in LastFlips(v) <==> i in match v
      case Fugue2 => {4, 15}
      case Fugue3 => {4, 12, 24}
      case Fugue4 => {4, 9, 18, 27}
    ensures 0 !in LastFlips(v) && forall a, b :: 0 <= a < b < |LastFlips(v)| ==> LastFlips(v)[a] != LastFlips(v)[b]
  {
  }

  lemma OutputWordAt(v: Variant, last: seq<Word>, w: nat)
    requires |last| == Size(v) && w < |OutputWords(v)|
    ensures w < 4 * PassMixings(v)
    ensures At(Flip(last, LastFlips(v)), OutputWords(v)[w]) == DigestWord(v, last, w)
  {
    hide Flip, Sum, OutputWords, LastFlips;
    OutputLength(v);
    OutputName(v, w);
    var i := OutputWords(v)[w];
    LastFlipNames(v, i);
    FlippedAt(last, LastFlips(v), i);
  }

  // ---- a pass without the super-mix ----

  /** The mixer that leaves its words alone. */
  function Unmixed(): Mixer { (a, b, c, d) => (a, b, c, d) }

  /** Where step `j` of a pass takes word `i`. */
  function Onward(v: Variant, j: nat, i: nat): nat {
    if i + Turn(v, j) < Size(v) then i + Turn(v, j) else i + Turn(v, j) - Size(v)
  }

  lemma UnmixedStep(v: Variant, j: nat, s: seq<Word>, t: seq<Word>, i: nat)
    requires |s| == Size(v) && i < |s| && j < PassMixings(v) && Struck(v, j, Unmixed(), s, t)
    ensures |t| == |s| && Onward(v, j, i) < |t| && t[Onward(v, j, i)] == Combined(v, j, s, i)
  {
    hide Combined;
    var n, k := |s|, Turn(v, j);
    assert (t[0], t[1], t[2], t[3]) == (Combined(v, j, s, n - k), Combined(v, j, s, n - k + 1),
                                        Combined(v, j, s, n - k + 2), Combined(v, j, s, n - k + 3));
  }

  /** Where a pass without the mixing takes word `i`: a turn by all words but one. */
  function Before(i: nat, n: nat): int { if i == 0 then n - 1 else i - 1 }

  /** Fugue-224 and Fugue-256: `f0` and `f1` are the first words that the two steps find. */
  lemma UnmixedPass2(s: seq<Word>, i: nat)
    requires |s| == 30 && i < 30
    ensures var f0 := s[0];
      var f1 := Sum(s[15], f0);
      var w0 := if i in {4, 15} then Sum(s[i], f0) else s[i];
      Blended(Fugue2, Unmixed(), s)[Before(i, 30)] == if i in {1, 19} then Sum(w0, f1) else w0
  {
    hide Sum, Struck, Blended;
    var v := Fugue2;
    var run := PassRun2(Unmixed(), s);
    UnmixedStep(v, 0, s, run[1], i);
    UnmixedStep(v, 0, s, run[1], 15);
    UnmixedStep(v, 1, run[1], run[2], Onward(v, 0, i));
  }

  /** Word `i` of 36 after a turn by `k` words. */
  function Turned(i: nat, k: nat): nat { if i + k < 36 then i + k else i + k - 36 }

  /** The same for Fugue-384. */
  lemma UnmixedPass3(s: seq<Word>, i: nat)
    requires |s| == 36 && i < 36
    ensures var f0 := s[0];
      var f1 := Sum(s[24], f0);
      var f2 := Sum(Sum(s[12], f0), f1);
      var w0 := if i in {4, 12, 24} then Sum(s[i], f0) else s[i];
      var w1 := if i in {1, 12, 28} then Sum(w0, f1) else w0;
      Blended(Fugue3, Unmixed(), s)[Before(i, 36)] == if i in {1, 16, 25} then Sum(w1, f2) else w1
  {
    hide Sum, Struck, Blended, IsMark, Onward, Turned;
    var v := Fugue3;
    var run := PassRun3(Unmixed(), s);
    FirstWords3(s, run);
    Marks3(i);
    UnmixedStep(v, 0, s, run[1], i);
    UnmixedStep(v, 1, run[1], run[2], Turned(i, 12));
    UnmixedStep(v, 2, run[2], run[3], Turned(i, 24));
  }

  lemma FirstWords3(s: seq<Word>, run: seq<seq<Word>>)
    requires |s| == 36 && PassRun(Fugue3, Unmixed(), run) && |run| == 4 && run[0] == s
    ensures |run[1]| == |run[2]| == 36
    ensures run[1][0] == Sum(s[24], s[0]) && run[2][0] == Sum(Sum(s[12], s[0]), run[1][0])
  {
    hide Sum, Struck;
    var v := Fugue3;
    UnmixedStep(v, 0, s, run[1], 24);
    UnmixedStep(v, 0, s, run[1], 12);
    UnmixedStep(v, 1, run[1], run[2], 24);
  }

  /** The words of the starting state that each step of a pass of Fugue-384 combines. */
  lemma Marks3(i: nat)
    requires i < 36
    ensures IsMark(Fugue3, 0, i) <==> i in {4, 12, 24}
    ensures IsMark(Fugue3, 1, Turned(i, 12)) <==> i in {1, 12, 28}
    ensures IsMark(Fugue3, 2, Turned(i, 24)) <==> i in {1, 16, 25}
    ensures Onward(Fugue3, 0, i) == Turned(i, 12) < 36 && Onward(Fugue3, 1, Turned(i, 12)) == Turned(i, 24) < 36
    ensures Onward(Fugue3, 2, Turned(i, 24)) == Before(i, 36)
  {
  }

  lemma FirstWords4(s: seq<Word>, run: seq<seq<Word>>)
    requires |s| == 36 && PassRun(Fugue4, Unmixed(), run) && |run| == 5 && run[0] == s
    ensures |run[1]| == |run[2]| == |run[3]| == 36
    ensures run[1][0] == Sum(s[27], s[0]) && run[2][0] == Sum(Sum(s[18], s[0]), run[1][0])
    ensures run[3][0] == Sum(Sum(Sum(s[9], s[0]), run[1][0]), run[2][0])
  {
    hide Sum, Struck;
    var v := Fugue4;
    UnmixedStep(v, 0, s, run[1], 27);
    UnmixedStep(v, 0, s, run[1], 18);
    UnmixedStep(v, 0, s, run[1], 9);
    UnmixedStep(v, 1, run[1], run[2], 27);
    UnmixedStep(v, 1, run[1], run[2], 18);
    UnmixedStep(v, 2, run[2], run[3], 27);
  }

  /** The same for Fugue-512. */
  lemma UnmixedPass4(s: seq<Word>, i: nat)
    requires |s| == 36 && i < 36
    ensures var f0 := s[0];
      var f1 := Sum(s[27], f0);
      var f2 := Sum(Sum(s[18], f0), f1);
      var f3 := Sum(Sum(Sum(s[9], f0), f1), f2);
      var w0 := if i in {4, 9, 18, 27} then Sum(s[i], f0) else s[i];
      var w1 := if i in {1, 9, 18, 31} then Sum(w0, f1) else w0;
      var w2 := if i in {1, 9, 22, 28} then Sum(w1, f2) else w1;
      Blended(Fugue4, Unmixed(), s)[Before(i, 36)] == if i in {1, 13, 19, 28} then Sum(w2, f3) else w2
  {
    hide Sum, Struck, Blended, IsMark, Onward, Turned;
    var v := Fugue4;
    var run := PassRun4(Unmixed(), s);
    FirstWords4(s, run);
    Marks4(i);
    UnmixedStep(v, 0, s, run[1], i);
    UnmixedStep(v, 1, run[1], run[2], Turned(i, 9));
    UnmixedStep(v, 2, run[2], run[3], Turned(i, 18));
    UnmixedStep(v, 3, run[3], run[4], Turned(i, 27));
  }

  /** The words of the starting state that each step of a pass of Fugue-512 combines. */
  lemma Marks4(i: nat)
    requires i < 36
    ensures IsMark(Fugue4, 0, i) <==> i in {4, 9, 18, 27}
    ensures IsMark(Fugue4, 1, Turned(i, 9)) <==> i in {1, 9, 18, 31}
    ensures IsMark(Fugue4, 2, Turned(i, 18)) <==> i in {1, 9, 22, 28}
    ensures IsMark(Fugue4, 3, Turned(i, 27)) <==> i in {1, 13, 19, 28}
    ensures Onward(Fugue4, 0, i) == Turned(i, 9) < 36 && Onward(Fugue4, 1, Turned(i, 9)) == Turned(i, 18) < 36
    ensures Onward(Fugue4, 2, Turned(i, 18)) == Turned(i, 27) < 36
    ensures Onward(Fugue4, 3, Turned(i, 27)) == Before(i, 36)
  {
  }

  // ---- a whole message ----

  lemma LastBit(ub: Byte, n: nat, i: nat)
    requires n < 8 && i < 8
    ensures Bit(Fugue.LastBits(ub, n), i) == (i < n && Bit(ub, i))
  {
    TopBit(n, i);
    hide TopBits;
    match i case 0 => case 1 => case 2 => case 3 => case 4 => case 5 => case 6 => case _ =>
  }

  lemma TopBit(n: nat, i: nat)
    requires n < 8 && i < 8
    ensures Bit(TopBits(n), i) == (i < n)
  {
  }

  /** The padded text: the message with its last bits, zeros to a full word, and the number of message bits. */
  lemma PaddedText(msg: seq<Byte>, ub: Byte, n: nat) returns (text: seq<Byte>)
    requires n < 8
    ensures text == msg + Padding(|msg|, ub, n)
    ensures var bytes := |msg| + if n > 0 then 1 else 0;
      && |text| % 4 == 0 && bytes + 8 <= |text| < bytes + 12 && text[..|msg|] == msg
      && (n > 0 ==> BitsOf(text[|msg|]) == BitsOf(ub)[..n] + Off(8 - n))
      && forall i :: bytes <= i < |text| - 8 ==> text[i] == 0
    ensures |text| >= 8 && NumberBe(text[|text| - 8..]) == (8 * |msg| + n) % 0x1_0000_0000_0000_0000
  {
    hide EncBe, BitsOf, Off, Filler, NumberBe;
    var filler, field := Filler(|msg|, ub, n), EncBe(BitCount(|msg|, n), 8);
    FillerBytes(|msg|, ub, n);
    text := msg + Padding(|msg|, ub, n);
    assert text[..|msg|] == msg;
    assert text == msg + filler + field && text[|text| - 8..] == field;
    EightBytes();
    EncBeReads(BitCount(|msg|, n), 8);
  }

  lemma FillerBytes(len: nat, ub: Byte, n: nat)
    requires n < 8
    ensures var filler, more := Filler(len, ub, n), if n > 0 then 1 else 0;
      && more <= |filler| < more + 4 && (len + |filler|) % 4 == 0
      && (n > 0 ==> BitsOf(filler[0]) == BitsOf(ub)[..n] + Off(8 - n))
      && forall i :: more <= i < |filler| ==> filler[i] == 0
  {
    hide BitsOf, Fugue.LastBits;
    LastBitsAre(ub, n);
  }

  lemma LastBitsAre(ub: Byte, n: nat)
    requires n < 8
    ensures BitsOf(Fugue.LastBits(ub, n)) == BitsOf(ub)[..n] + Off(8 - n)
  {
    hide Bit, Fugue.LastBits;
    forall i | 0 <= i < 8 ensures BitsOf(Fugue.LastBits(ub, n))[i] == (i < n && BitsOf(ub)[i]) {
      LastBit(ub, n, i);
    }
  }

  /** Four bytes as one word, the highest first. */
  function WordAt(text: seq<Byte>, j: nat): Word
    requires 4 * j + 4 <= |text|
  {
    0x100_0000 * (text[4 * j] as Word) + 0x1_0000 * (text[4 * j + 1] as Word)
    + 0x100 * (text[4 * j + 2] as Word) + text[4 * j + 3] as Word
  }

  lemma WordSum(a: Word, b: Word, c: Word, d: Word)
    requires a < 0x100 && b < 0x100 && c < 0x100 && d < 0x100
    ensures (a << 24) | (b << 16) | (c << 8) | d == 0x100_0000 * a + 0x1_0000 * b + 0x100 * c + d
  {
  }

  lemma WordRead(text: seq<Byte>, j: nat)
    requires 4 * j + 4 <= |text|
    ensures Be(text[4 * j..4 * j + 4]) == WordAt(text, j)
  {
    hide Be;
    var b0, b1, b2, b3 := text[4 * j], text[4 * j + 1], text[4 * j + 2], text[4 * j + 3];
    assert text[4 * j..4 * j + 4] == [b0, b1, b2, b3];
    BeFour(b0, b1, b2, b3);
    Widened(b0);
    Widened(b1);
    Widened(b2);
    Widened(b3);
    WordSum(b0 as Word, b1 as Word, b2 as Word, b3 as Word);
  }

  /** The states between the words of a text. */
  lemma {:induction false} AbsorbRun(v: Variant, mix: Mixer, s: seq<Word>, text: seq<Byte>, k: nat)
    returns (run: seq<seq<Word>>)
    requires |s| == Size(v) && |text| % 4 == 0 && 4 * k <= |text|
    ensures |run| == k + 1 && run[0] == s && run[k] == Absorb(v, mix, s, text[..4 * k])
    ensures forall j :: 0 <= j <= k ==> |run[j]| == Size(v)
    ensures forall j :: 0 <= j < k ==> run[j + 1] == Round(v, mix, run[j], WordAt(text, j))
  {
    hide Round, WordAt, Absorb;
    if k == 0 {
      AbsorbNothing(v, mix, s);
      run := [s];
    } else {
      var before := AbsorbRun(v, mix, s, text, k - 1);
      AbsorbStep(v, mix, s, text, k - 1);
      run := before + [Absorb(v, mix, s, text[..4 * k])];
    }
  }

  lemma AbsorbNothing(v: Variant, mix: Mixer, s: seq<Word>)
    requires |s| == Size(v)
    ensures Absorb(v, mix, s, []) == s
  {
  }

  lemma AbsorbStep(v: Variant, mix: Mixer, s: seq<Word>, text: seq<Byte>, j: nat)
    requires |s| == Size(v) && 4 * j + 4 <= |text|
    ensures Absorb(v, mix, s, text[..4 * (j + 1)])
         == Round(v, mix, Absorb(v, mix, s, text[..4 * j]), WordAt(text, j))
  {
    hide Round, Absorb, WordAt, Be;
    AbsorbNext(v, mix, s, text, 4 * j);
    WordRead(text, j);
  }

  /** A whole message: zeros and the initial value at first, one round for each word of the padded text, and the close
      after the last. */
  lemma DigestRun(v: Variant, mix: Mixer, iv: seq<Word>, msg: seq<Byte>, ub: Byte, n: nat, outWords: nat)
    returns (text: seq<Byte>, run: seq<seq<Word>>)
    requires |iv| <= Size(v) && n < 8
    ensures text == msg + Padding(|msg|, ub, n) && |text| % 4 == 0 && |run| == |text| / 4 + 1
    ensures |run[0]| == Size(v)
    ensures forall i :: 0 <= i < Size(v) ==> run[0][i] == if i < Size(v) - |iv| then 0 else iv[i - (Size(v) - |iv|)]
    ensures forall j :: 0 <= j < |text| / 4 ==> |run[j]| >= 3 && run[j + 1] == Round(v, mix, run[j], WordAt(text, j))
    ensures |run[|text| / 4]| == Size(v)
    ensures Digest(v, mix, iv, msg, ub, n, outWords) == Output(v, mix, run[|text| / 4], outWords)
  {
    hide Padding, Round, WordAt, Absorb, Output;
    text := PaddedText(msg, ub, n);
    run := AbsorbRun(v, mix, InitialState(v, iv), text, |text| / 4);
    assert text[..4 * (|text| / 4)] == text;
  }
}