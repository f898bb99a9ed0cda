/** Base58 text: bytes as a number in base 58, leading zero bytes as leading ones. */
module Base58 {
  import opened BigNum
  import opened Compact
  import opened Division
  import opened Mpi
  import opened Numerals
  import opened Reversal

  const ALPHABET: string :=
    "123456789" + "ABCDEFGH" + "JKLMN" + "PQRSTUVWXYZ" + "abcdefghijk" + "mnopqrstuvwxyz"

  /** The characters before the terminating zero of a `const char*`. */
  type CString = s: string | '\0' !in s

  // ---- the specification ----

  /** `strchr`, as an index from `i` on; the length when there is none. */
  function IndexIn(c: char, s: string, i: nat): (d: nat)
    requires i <= |s|
    ensures i <= d <= |s|
    ensures d < |s| ==> s[d] == c
    ensures forall k :: i <= k < d ==> s[k] != c
    decreases |s| - i
  {
    if i == |s| || s[i] == c then i else IndexIn(c, s, i + 1)
  }

  /** The position of a character in the alphabet, 58 for the others. */
  function Find(c: char): (d: nat)
    ensures d < 58 ==> ALPHABET[d] == c
    ensures d == 58 ==> c !in ALPHABET
    ensures d <= 58
  {
    var d := IndexIn(c, ALPHABET, 0);
    assert d == 58 ==> forall k :: 0 <= k < 58 ==> ALPHABET[k] != c;
    d
  }

  function Letters(ds: seq<nat>): (r: string)
    requires DigitsOf(58, ds)
    ensures |r| == |ds|
  {
    seq(|ds|, i requires 0 <= i < |ds| => ALPHABET[ds[i]])
  }

  function Encoded(bs: seq<Octet>): string {
    Letters(Nothing(Zeros(bs)) + Digits(58, Number(0x100, bs)))
  }

  /** The alphabet characters that a text starts with. */
  function Run(s: string): (r: string)
    ensures |r| <= |s|
  {
    if s != "" && Find(s[0]) < 58 then [s[0]] + Run(s[1..]) else ""
  }

  function Positions(s: string): (ds: seq<nat>)
    requires forall c :: c in s ==> Find(c) < 58
    ensures |ds| == |s| && DigitsOf(58, ds)
  {
    seq(|s|, i requires 0 <= i < |s| => Find(s[i]))
  }

  datatype Decoding = Some(bytes: seq<Octet>) | None

  /** Space may stand before and after the text. */
  function Decoded(s: string): Decoding {
    var t := AfterSpaces(s);
    var run := Run(t);
    if AfterSpaces(t[|run|..]) != "" then None
    else
      RunFound(t);
      var ds := Positions(run);
      Some(Nothing(Zeros(ds)) + Octets(Number(58, ds)))
  }

  // ---- the alphabet ----

  lemma {:induction false} RunFound(s: string)
    ensures forall c :: c in Run(s) ==> Find(c) < 58
  {
    hide Find;
    if s != "" && Find(s[0]) < 58 {
      RunFound(s[1..]);
    }
  }

  /** The alphabet in character codes: digits, capitals and small letters without 0, I, O and l. */
  function Code(d: nat): nat {
    if d < 9 then d + 49 else if d < 17 then d + 56 else if d < 22 then d + 57
    else if d < 33 then d + 58 else if d < 44 then d + 64 else d + 65
  }

  lemma LetterCode(d: nat)
    requires d < 58
    ensures ALPHABET[d] as int == Code(d)
  {
    if d < 29 {
      LowLetterCode(d);
    } else {
      HighLetterCode(d);
    }
  }

  lemma LowLetterCode(d: nat)
    requires d < 29
    ensures ALPHABET[d] as int == Code(d)
  {
    match d
    case 0 => case 1 => case 2 => case 3 => case 4 => case 5 => case 6 => case 7 => case 8 => case 9 =>
    case 10 => case 11 => case 12 => case 13 => case 14 => case 15 => case 16 => case 17 => case 18 => case 19 =>
    case 20 => case 21 => case 22 => case 23 => case 24 => case 25 => case 26 => case 27 => case _ =>
  }

  lemma HighLetterCode(d: nat)
    requires 29 <= d < 58
    ensures ALPHABET[d] as int == Code(d)
  {
    match d
    case 29 => case 30 => case 31 => case 32 => case 33 => case 34 => case 35 => case 36 => case 37 => case 38 =>
    case 39 => case 40 => case 41 => case 42 => case 43 => case 44 => case 45 => case 46 => case 47 => case 48 =>
    case 49 => case 50 => case 51 => case 52 => case 53 => case 54 => case 55 => case 56 => case _ =>
  }

  /** No letter occurs twice. */
  lemma LettersDiffer(d: nat, e: nat)
    requires d < 58 && e < 58 && ALPHABET[d] == ALPHABET[e]
    ensures d == e
  {
    LetterCode(d);
    LetterCode(e);
  }

  lemma FindLetter(d: nat)
    requires d < 58
    ensures Find(ALPHABET[d]) == d
  {
    var e := Find(ALPHABET[d]);
    assert ALPHABET[d] in ALPHABET;
    LettersDiffer(d, e);
  }

  lemma LetterNoSpace(d: nat)
    requires d < 58
    ensures !IsSpace(ALPHABET[d]) && ALPHABET[d] != '\0'
  {
    LetterCode(d);
  }

  lemma SpaceNoLetter(c: char)
    requires Find(c) < 58
    ensures !IsSpace(c) && c != '\0'
  {
    LetterNoSpace(Find(c));
  }

  lemma {:induction false} RunOfLetters(ds: seq<nat>)
    requires DigitsOf(58, ds)
    ensures Run(Letters(ds)) == Letters(ds)
  {
    hide Find;
    if ds != [] {
      FindLetter(ds[0]);
      RunOfLetters(ds[1..]);
      assert Letters(ds)[1..] == Letters(ds[1..]);
    }
  }

  lemma PositionsOfLetters(ds: seq<nat>)
    requires DigitsOf(58, ds)
    ensures forall c :: c in Letters(ds) ==> Find(c) < 58
    ensures Positions(Letters(ds)) == ds
  {
    hide Find;
    forall i | 0 <= i < |ds| ensures Find(Letters(ds)[i]) == ds[i] {
      FindLetter(ds[i]);
    }
  }

  lemma LettersOfPositions(s: string)
    requires forall c :: c in s ==> Find(c) < 58
    ensures Letters(Positions(s)) == s
  {
    hide Find;
    forall i | 0 <= i < |s| ensures Letters(Positions(s))[i] == s[i] {
      assert ALPHABET[Find(s[i])] == s[i];
    }
  }

  // ---- the two directions ----

  lemma {:induction false} ZerosOf(z: nat, ds: seq<nat>)
    requires ds != [] ==> ds[0] > 0
    ensures Zeros(Nothing(z) + ds) == z
  {
    if z > 0 {
      ZerosOf(z - 1, ds);
      assert (Nothing(z) + ds)[1..] == Nothing(z - 1) + ds;
    }
  }

  /** Leading zeros and the number determine a list of digits, in any two bases. */
  lemma ZerosThenDigits(b: nat, z: nat, v: nat)
    requires b > 1
    ensures var ds := Nothing(z) + Digits(b, v); Zeros(ds) == z && Number(b, ds) == v
  {
    var ds := Nothing(z) + Digits(b, v);
    LeadingZeros(b, z, Digits(b, v));
    NumberOfDigits(b, v);
    ZerosOf(z, Digits(b, v));
  }

  lemma NoSpaces(ds: seq<nat>)
    requires DigitsOf(58, ds)
    ensures AfterSpaces(Letters(ds)) == Letters(ds)
  {
    if ds != [] {
      LetterNoSpace(ds[0]);
    }
  }

  /** The letters of the text, by their codes, are digits of the number that the bytes stand for, and it starts with as
      many ones as there are leading zero bytes. */
  lemma EncodedReads(bs: seq<Octet>) returns (ds: seq<nat>)
    ensures DigitsOf(58, ds) && |ds| == |Encoded(bs)|
    ensures forall i :: 0 <= i < |ds| ==> Encoded(bs)[i] as int == Code(ds[i])
    ensures Number(58, ds) == Number(0x100, bs) && Zeros(ds) == Zeros(bs)
  {
    hide Number, Digits, Zeros, Code;
    var v := Number(0x100, bs);
    ds := Nothing(Zeros(bs)) + Digits(58, v);
    ZerosThenDigits(58, Zeros(bs), v);
    forall i | 0 <= i < |ds| ensures Encoded(bs)[i] as int == Code(ds[i]) {
      LetterCode(ds[i]);
    }
  }

  /** Decoding the text of any bytes gives the bytes. */
  lemma DecodeEncode(bs: seq<Octet>)
    ensures Decoded(Encoded(bs)) == Some(bs)
  {
    hide Find, Number, Digits, Zeros;
    var v := Number(0x100, bs);
    var ds := Nothing(Zeros(bs)) + Digits(58, v);
    ZerosThenDigits(58, Zeros(bs), v);
    NoSpaces(ds);
    RunOfLetters(ds);
    PositionsOfLetters(ds);
    var s := Letters(ds);
    assert s[|s|..] == "" && AfterSpaces("") == "";
    OctetsAreDigits(bs);
    DigitsStrip(0x100, bs);
  }

  /** Encoding what a text decodes to gives the text without the space around it. */
  lemma EncodeDecode(s: string)
    ensures Decoded(s).Some? ==> Encoded(Decoded(s).bytes) == Run(AfterSpaces(s))
  {
    hide Find, Number, Digits, Zeros;
    var t := AfterSpaces(s);
    if Decoded(s).Some? {
      RunFound(t);
      var ds := Positions(Run(t));
      ZerosThenDigits(0x100, Zeros(ds), Number(58, ds));
      DigitsStrip(58, ds);
      LettersOfPositions(Run(t));
    }
  }

  predicate InAlphabet(s: string) {
    forall i :: 0 <= i < |s| ==> s[i] in ALPHABET
  }

  lemma {:induction false} RunOfAll(s: string)
    requires InAlphabet(s)
    ensures Run(s) == s && AfterSpaces(s) == s
  {
    if s != "" {
      assert s[0] in ALPHABET;
      SpaceNoLetter(s[0]);
      RunOfAll(s[1..]);
    }
  }

  /** Every text of alphabet characters decodes, and encoding gives it back. */
  lemma TextRoundTrip(s: string)
    requires InAlphabet(s)
    ensures Decoded(s).Some? && Encoded(Decoded(s).bytes) == s
  {
    hide Find;
    RunOfAll(s);
    EncodeDecode(s);
    assert s[|s|..] == "";
  }

  // ---- the length ----

  /** 58 to the power 11 exceeds 256 to the power 8. */
  lemma {:induction false} EnoughDigits(m: nat, e: nat)
    requires 8 * e >= 11 * m
    ensures Pow(58, e) >= Pow(0x100, m)
  {
    hide Pow;
    if m >= 8 {
      EnoughDigits(m - 8, e - 11);
      PowSum(58, 11, e - 11);
      PowSum(0x100, 8, m - 8);
      Pow11();
      Product2(Pow(58, 11), Pow(0x100, 8), Pow(58, e - 11), Pow(0x100, m - 8));
    } else {
      SmallPowers(m);
      PowGrows(58, (11 * m + 7) / 8, e);
    }
  }

  lemma Product2(a: nat, b: nat, c: nat, d: nat)
    requires a >= b && c >= d
    ensures a * c >= b * d
  {
    assert a * c == b * d + b * (c - d) + (a - b) * c;
  }

  lemma Pow11()
    ensures Pow(58, 11) >= Pow(0x100, 8)
  {
    assert Pow(58, 4) == 11316496 by { assert Pow(58, 2) == 3364; }
    assert Pow(58, 8) == 128063081718016 by { assert Pow(58, 6) == 38068692544; }
    assert Pow(58, 11) == 24986644000165537792 by { assert Pow(58, 10) == 430804206899405824; }
    Pow7And8();
  }

  lemma SmallPowers(m: nat)
    requires m < 8
    ensures Pow(58, (11 * m + 7) / 8) >= Pow(0x100, m)
  {
    assert Pow(58, 2) == 3364 && Pow(58, 3) == 195112;
    assert Pow(58, 5) == 656356768 && Pow(58, 6) == 38068692544 && Pow(58, 7) == 2207984167552;
    assert Pow(58, 9) == 7427658739644928 && Pow(58, 10) == 430804206899405824;
    assert Pow(0x100, 2) == 0x1_0000 && Pow(0x100, 3) == 0x100_0000 && Pow(0x100, 4) == 0x1_0000_0000;
    assert Pow(0x100, 5) == 0x100_0000_0000 && Pow(0x100, 6) == 0x1_0000_0000_0000;
    Pow7And8();
  }

  /** A list of digits without leading zeros bounds its number from below. */
  lemma NumberLower(b: nat, ds: seq<nat>)
    requires b > 0 && ds != [] && ds[0] > 0
    ensures Number(b, ds) >= Pow(b, |ds| - 1)
  {
    assert ds == [ds[0]] + ds[1..];
    NumberJoin(b, [ds[0]], ds[1..]);
    NumberPush(b, [], ds[0]);
    assert [] + [ds[0]] == [ds[0]];
    Product2(Number(b, [ds[0]]), 1, Pow(b, |ds| - 1), Pow(b, |ds| - 1));
  }

  /** The text of `n` bytes has at most `n * 138 / 100 + 1` characters, which is what the encoder reserves. */
  lemma EncodedLength(bs: seq<Octet>)
    ensures |Encoded(bs)| <= |bs| * 138 / 100 + 1
  {
    hide Number, Digits, Zeros, Pow;
    var z := Zeros(bs);
    var m := |bs| - z;
    var v := Number(0x100, bs);
    var ds := Digits(58, v);
    OctetsAreDigits(bs);
    DigitsStrip(0x100, bs);
    assert bs[z..] == Digits(0x100, v);
    OctetsAreDigits(bs[z..]);
    NumberBound(0x100, bs[z..]);
    NumberOfDigits(0x100, v);
    NumberOfDigits(58, v);
    if ds != [] {
      NumberLower(58, ds);
      if 8 * (|ds| - 1) >= 11 * m {
        EnoughDigits(m, |ds| - 1);
        assert false;
      }
    }
    Reserve(z, m, |ds|);
  }

  lemma Reserve(z: nat, m: nat, d: nat)
    requires d == 0 || 8 * (d - 1) < 11 * m
    ensures z + d <= (z + m) * 138 / 100 + 1
  {
  }

  // ---- the code ----

  lemma LettersStep(digits: seq<nat>, front: seq<nat>, c: nat)
    requires DigitsOf(58, digits) && c < 58 && front + [c] <= digits
    ensures front <= digits && Letters(digits[|front|..]) == [ALPHABET[c]] + Letters(digits[|front| + 1..])
  {
    assert digits[|front|] == (front + [c])[|front|];
    assert digits[|front|..] == [c] + digits[|front| + 1..];
  }

  lemma LettersOfNothing(n: nat)
    ensures Letters(Nothing(n + 1)) == [ALPHABET[0]] + Letters(Nothing(n))
  {
  }

  lemma LettersJoin(a: seq<nat>, b: seq<nat>)
    requires DigitsOf(58, a) && DigitsOf(58, b)
    ensures Letters(a + b) == Letters(a) + Letters(b)
  {
  }

  /** The little-endian bytes, with a zero behind them, are a positive number. */
  lemma PositiveVch(bs: seq<Octet>)
    ensures Value(Nothing(1) + bs) == Number(0x100, bs)
  {
    hide Number, Value;
    LeadingZeros(0x100, 1, bs);
    assert Nothing(1) == [0];
    PositiveValue([0] + bs);
  }

  /** The number that `setvch` keeps of the bytes with a zero behind them: all of them up to the limit of an `int`;
      from there on it refuses them, or reads their highest bytes only. */
  function HeldNumber(vch: seq<Octet>): (v: nat)
    ensures ReadVch(Reversed(vch) + [0], 0) == v
  {
    var body := Nothing(1) + vch;
    var len := |body| % LENGTH_LIMIT;
    assert Reversed(Reversed(vch) + [0]) == body;
    if len + 4 < INT_LIMIT && len > 0 then
      assert body[..len] == Nothing(1) + vch[..len - 1];
      PositiveVch(vch[..len - 1]);
      Number(0x100, vch[..len - 1])
    else 0
  }

  /** What the encoder writes for bytes of any number. */
  function Written(vch: seq<Octet>): string {
    Letters(Nothing(Zeros(vch)) + Digits(58, HeldNumber(vch)))
  }

  /** Nothing is lost in the encoder: an `int` can measure the bytes, or they are all zero. */
  predicate Intact(vch: seq<Octet>) {
    |vch| + 5 < INT_LIMIT || Zeros(vch) == |vch|
  }

  lemma NumberOfZeros(vch: seq<Octet>)
    ensures Number(0x100, vch) == 0 <==> Zeros(vch) == |vch|
  {
    hide Number, Zeros;
    OctetsAreDigits(vch);
    DigitsStrip(0x100, vch);
  }

  /** A number without its last digits is smaller, unless it is zero. */
  lemma CutNumber(vch: seq<Octet>, k: nat)
    requires k < |vch|
    ensures Number(0x100, vch[..k]) == Number(0x100, vch) <==> Number(0x100, vch) == 0
  {
    hide Number, Pow;
    assert vch == vch[..k] + vch[k..];
    NumberJoin(0x100, vch[..k], vch[k..]);
    PowGrows(0x100, 1, |vch| - k);
    assert Pow(0x100, 1) == 0x100 by { OnePower(); }
    Product2(Pow(0x100, |vch| - k), 0x100, Number(0x100, vch[..k]), Number(0x100, vch[..k]));
  }

  lemma OnePower()
    ensures Pow(0x100, 1) == 0x100
  {
  }

  lemma HeldNumberIff(vch: seq<Octet>)
    ensures HeldNumber(vch) == Number(0x100, vch) <==> Intact(vch)
  {
    hide Number, Zeros, ReadVch;
    NumberOfZeros(vch);
    var len := (|vch| + 1) % LENGTH_LIMIT;
    assert |Nothing(1) + vch| == |vch| + 1;
    Recomposed(|vch| + 1, LENGTH_LIMIT);
    if |vch| + 5 < INT_LIMIT {
      BelowModulus(LENGTH_LIMIT, |vch| + 1);
      assert vch[..|vch|] == vch;
    } else if len + 4 < INT_LIMIT && len > 0 {
      CutNumber(vch, len - 1);
    }
  }

  /** Texts of digits differ if the digits do. */
  lemma LettersInjective(ds: seq<nat>, es: seq<nat>)
    requires DigitsOf(58, ds) && DigitsOf(58, es) && Letters(ds) == Letters(es)
    ensures ds == es
  {
    hide Letters;
    PositionsOfLetters(ds);
    PositionsOfLetters(es);
  }

  lemma WrittenIsEncoded(vch: seq<Octet>)
    ensures Written(vch) == Encoded(vch) <==> Intact(vch)
  {
    hide Number, Digits, Letters, Zeros, HeldNumber, Intact;
    HeldNumberIff(vch);
    if Written(vch) == Encoded(vch) {
      var a, b := Digits(58, HeldNumber(vch)), Digits(58, Number(0x100, vch));
      var z := Nothing(Zeros(vch));
      LettersInjective(z + a, z + b);
      assert (z + a)[|z|..] == a && (z + b)[|z|..] == b;
      NumberOfDigits(58, HeldNumber(vch));
      NumberOfDigits(58, Number(0x100, vch));
    }
  }

  /** The division loop: the letters of a number, the last one first. */
  method DivideOut(bn: nat) returns (str: string)
    ensures Reversed(str) == Letters(Digits(58, bn))
  {
    hide Digits, Letters;
    var n := bn;
    str := "";
    ghost var digits := Digits(58, n);
    assert |Letters(digits[|digits|..])| == 0;
    while n > 0
      invariant n >= 0 && Digits(58, n) <= digits
      invariant Reversed(str) == Letters(digits[|Digits(58, n)|..])
      decreases n
    {
      LastDigit(58, n);
      var dv, c := n / 58, n % 58;
      LettersStep(digits, Digits(58, dv), c);
      ReversedPush(str, ALPHABET[c]);
      str := str + [ALPHABET[c]];
      n := dv;
    }
    assert Digits(58, 0) == [] && digits[0..] == digits;
  }

  /** A one for each leading zero byte, behind the reversed letters. */
  method AppendOnes(vch: seq<Octet>, digits: string) returns (str: string)
    ensures Reversed(str) == Letters(Nothing(Zeros(vch))) + Reversed(digits)
  {
    hide Letters, Zeros;
    str := digits;
    ghost var z := Zeros(vch);
    forall i | 0 <= i < z ensures vch[i] == 0 {
      assert vch[..z][i] == Nothing(z)[i];
    }
    var p := 0;
    assert Letters(Nothing(0)) + Reversed(digits) == Reversed(digits);
    while p < |vch| && vch[p] == 0
      invariant p <= z <= |vch|
      invariant Reversed(str) == Letters(Nothing(p)) + Reversed(digits)
    {
      LettersOfNothing(p);
      ReversedPush(str, ALPHABET[0]);
      str := str + [ALPHABET[0]];
      p := p + 1;
    }
  }

  /** Bytes as Base58 text. */
  method EncodeBase58(vch: seq<Octet>) returns (str: string)
    ensures str == Written(vch)
    ensures str == Encoded(vch) <==> Intact(vch)
  {
    WrittenIsEncoded(vch);
    hide Digits, Letters, Zeros, ReadVch, Number, HeldNumber, Intact;
    var vchTmp := Reversed(vch) + [0];
    var bn := new CBigNum(0);
    bn.setvch(vchTmp);
    assert bn.bn == HeldNumber(vch);
    str := DivideOut(bn.bn);
    str := AppendOnes(vch, str);
    LettersJoin(Nothing(Zeros(vch)), Digits(58, bn.bn));
    str := Reversed(str);
  }

  /** Trimming the sign byte of a positive number leaves its bytes. */
  lemma TrimmedVch(v: nat)
    ensures var b := Reversed(Body(v));
      Reversed(Octets(v)) == if |b| >= 2 && b[|b| - 1] == 0 && b[|b| - 2] >= 0x80 then b[..|b| - 1] else b
  {
  }

  lemma OneIsZero(c: char)
    ensures Find(c) == 0 <==> c == '1'
  {
    hide Find;
    FindLetter(0);
    assert ALPHABET[0] == '1';
  }

  /** The run ends at the end of the text or at a character that is no letter. */
  lemma {:induction false} RunEnds(t: string)
    ensures t[..|Run(t)|] == Run(t) && (|Run(t)| < |t| ==> Find(t[|Run(t)|]) == 58)
  {
    hide Find;
    if t != "" && Find(t[0]) < 58 {
      RunEnds(t[1..]);
      assert t[..|Run(t)|] == [t[0]] + t[1..][..|Run(t[1..])|];
    }
  }

  /** One more character of a run, or its end. */
  lemma RunStep(front: string, c: char, rest: string)
    ensures front + Run([c] + rest) == if Find(c) < 58 then (front + [c]) + Run(rest) else front
  {
    hide Find, Run;
    RunFirst(c, rest);
    var tail := Run(rest);
    assert front + ([c] + tail) == (front + [c]) + tail;
    assert front + "" == front;
  }

  lemma CutAt(t: string, k: nat)
    requires k < |t|
    ensures t[..k + 1] == t[..k] + [t[k]] && t[k..] == [t[k]] + t[k + 1..]
  {
  }

  lemma RunFirst(c: char, rest: string)
    ensures Run([c] + rest) == if Find(c) < 58 then [c] + Run(rest) else ""
  {
    hide Find;
    assert ([c] + rest)[1..] == rest;
  }

  lemma PositionsStep(t: string, k: nat)
    requires k < |t| && Find(t[k]) < 58 && forall c :: c in t[..k] ==> Find(c) < 58
    ensures forall c :: c in t[..k + 1] ==> Find(c) < 58
    ensures Number(58, Positions(t[..k + 1])) == Number(58, Positions(t[..k])) * 58 + Find(t[k])
  {
    hide Find, Number;
    CutAt(t, k);
    assert Positions(t[..k + 1]) == Positions(t[..k]) + [Find(t[k])];
    NumberPush(58, Positions(t[..k]), Find(t[k]));
  }

  /** The number that the letters of a text stand for; it fails when something other than space follows them. */
  method ReadLetters(psz: CString, start: nat, bn: CBigNum) returns (ok: bool)
    requires start <= |psz| && bn.bn == 0
    modifies bn
    ensures var t := psz[start..];
      && ok == (AfterSpaces(t[|Run(t)|..]) == "")
      && (forall c :: c in Run(t) ==> Find(c) < 58)
      && (ok ==> bn.bn == Number(58, Positions(Run(t))))
  {
    hide Find, Number, IsSpace, Run, Positions, AfterSpaces;
    ghost var t := psz[start..];
    RunFound(t);
    var p := start;
    NoPositions();
    assert t[..0] == "" && "" + Run(t) == Run(t) && t[0..] == t;
    while p < |psz|
      invariant start <= p <= |psz|
      invariant Run(t) == t[..p - start] + Run(t[p - start..])
      invariant forall c :: c in t[..p - start] ==> Find(c) < 58
      invariant bn.bn == Number(58, Positions(t[..p - start]))
    {
      ghost var k := p - start;
      CutAt(t, k);
      RunStep(t[..k], t[k], t[k + 1..]);
      var p1 := Find(psz[p]);
      if p1 == 58 {
        assert Run(t) == t[..k] && t[k..] == psz[p..];
        var q := CBigNum.SkipSpaces(psz, p);
        assert psz[q..] == "" <==> q == |psz|;
        return q == |psz|;
      }
      PositionsStep(t, k);
      bn.bn := bn.bn * 58;
      bn.bn := bn.bn + p1;
      p := p + 1;
    }
    EmptyRun();
    assert t[..|t|] == t && t[|t|..] == "" && t + "" == t;
    return true;
  }

  lemma EmptyRun()
    ensures Run("") == "" && AfterSpaces("") == ""
  {
  }

  lemma NoPositions()
    ensures Number(58, Positions("")) == 0
  {
    assert Positions("") == [];
  }

  /** Count the ones that a text starts with. */
  method LeadingOnes(psz: CString, start: nat) returns (n: nat)
    requires start <= |psz|
    requires forall c :: c in Run(psz[start..]) ==> Find(c) < 58
    ensures n == Zeros(Positions(Run(psz[start..])))
  {
    hide Find;
    ghost var t := psz[start..];
    ghost var ds := Positions(Run(t));
    RunEnds(t);
    forall i | 0 <= i < |t| && i <= |ds| ensures t[i] == '1' <==> i < |ds| && ds[i] == 0 {
      OneIsZero(t[i]);
      if i < |ds| {
        assert t[i] == t[..|ds|][i];
      }
    }
    forall i | 0 <= i < Zeros(ds) ensures ds[i] == 0 {
      assert ds[..Zeros(ds)][i] == 0;
    }
    n := 0;
    while At(psz, start + n) == '1'
      invariant n <= Zeros(ds)
      decreases |psz| - start - n
    {
      assert t[n] == '1';
      n := n + 1;
    }
    assert n < |t| ==> t[n] != '1';
  }

  /** The little-endian bytes of a positive number, without the sign byte. */
  method PositiveBytes(bn: CBigNum) returns (vchTmp: seq<Octet>)
    requires bn.bn >= 0
    ensures Reversed(vchTmp) == Octets(bn.bn)
  {
    hide Body, Octets;
    vchTmp := bn.getvch();
    TrimmedVch(bn.bn);
    if |vchTmp| >= 2 && vchTmp[|vchTmp| - 1] == 0 && vchTmp[|vchTmp| - 2] >= 0x80 {
      vchTmp := vchTmp[..|vchTmp| - 1];
    }
    ReversedTwice(Octets(bn.bn));
  }

  /** Base58 text as bytes; on failure the result is empty. */
  method DecodeBase58(psz: CString) returns (ok: bool, vchRet: seq<Octet>)
    ensures ok == Decoded(psz).Some?
    ensures vchRet == if ok then Decoded(psz).bytes else []
  {
    hide Find, Number, IsSpace, AfterSpaces, Run, Zeros, Octets, Positions;
    vchRet := [];
    var start := CBigNum.SkipSpaces(psz, 0);
    assert psz[0..] == psz;
    var bn := new CBigNum(0);
    ok := ReadLetters(psz, start, bn);
    if !ok {
      return;
    }
    var vchTmp := PositiveBytes(bn);
    var nLeadingZeros := LeadingOnes(psz, start);
    vchRet := Nothing(nLeadingZeros) + Reversed(vchTmp);
  }

  // ---- checksums ----

  /** The first four bytes of the double hash; the hash itself is not part of this model. */
  type Checksum = c: seq<Octet> | |c| == 4 witness [0, 0, 0, 0]
  type Hasher = seq<Octet> -> Checksum

  function EncodedCheck(hash: Hasher, vch: seq<Octet>): string { Encoded(vch + hash(vch)) }

  function DecodedCheck(hash: Hasher, s: string): Decoding {
    match Decoded(s)
    case None => None
    case Some(b) =>
      if |b| < 4 || hash(b[..|b| - 4]) != b[|b| - 4..] then None else Some(b[..|b| - 4])
  }

  lemma CheckRoundTrip(hash: Hasher, vch: seq<Octet>)
    ensures DecodedCheck(hash, EncodedCheck(hash, vch)) == Some(vch)
  {
    hide Encoded, Decoded;
    DecodeEncode(vch + hash(vch));
    assert (vch + hash(vch))[..|vch|] == vch && (vch + hash(vch))[|vch|..] == hash(vch);
  }

  /** Only texts that the encoder writes are accepted, space around them apart. */
  lemma CheckAcceptsOwn(hash: Hasher, s: string)
    ensures var d := DecodedCheck(hash, s);
      d.Some? ==> EncodedCheck(hash, d.bytes) == Run(AfterSpaces(s))
  {
    hide Encoded, Decoded, Run, AfterSpaces;
    EncodeDecode(s);
    match Decoded(s)
    case None =>
    case Some(b) =>
      if |b| >= 4 {
        assert b[..|b| - 4] + b[|b| - 4..] == b;
      }
  }

  method EncodeBase58Check(hash: Hasher, vchIn: seq<Octet>) returns (str: string)
    ensures str == Written(vchIn + hash(vchIn))
    ensures str == EncodedCheck(hash, vchIn) <==> Intact(vchIn + hash(vchIn))
  {
    hide Written, Encoded, Intact;
    var vch := vchIn;
    vch := vch + hash(vch);
    str := EncodeBase58(vch);
  }

  method DecodeBase58Check(hash: Hasher, psz: CString) returns (ok: bool, vchRet: seq<Octet>)
    ensures ok == DecodedCheck(hash, psz).Some?
    ensures vchRet == if ok then DecodedCheck(hash, psz).bytes else []
  {
    hide Decoded;
    ok, vchRet := DecodeBase58(psz);
    if !ok {
      return false, vchRet;
    }
    if |vchRet| < 4 {
      return false, [];
    }
    if hash(vchRet[..|vchRet| - 4]) != vchRet[|vchRet| - 4..] {
      return false, [];
    }
    return true, vchRet[..|vchRet| - 4];
  }

  /** `CBase58Data`: a version byte and the data. */
  class CBase58Data {
    const hash: Hasher
    var nVersion: Octet
    var vchData: seq<Octet>

    constructor (hash: Hasher)
      ensures nVersion == 0 && vchData == [] && this.hash == hash
    {
      this.hash := hash;
      nVersion, vchData := 0, [];
    }

    method SetData(nVersionIn: Octet, data: seq<Octet>)
      modifies this
      ensures nVersion == nVersionIn && vchData == data
    {
      nVersion, vchData := nVersionIn, data;
    }

    /** Version and data of a text with a good checksum and at least a version byte; otherwise the data is cleared. */
    method SetString(psz: CString) returns (ok: bool)
      modifies this
      ensures var d := DecodedCheck(hash, psz);
        && ok == (d.Some? && d.bytes != [])
        && nVersion == (if ok then d.bytes[0] else 0) && vchData == (if ok then d.bytes[1..] else [])
    {
      hide DecodedCheck;
      var _, vchTemp := DecodeBase58Check(hash, psz);
      if vchTemp == [] {
        vchData := [];
        nVersion := 0;
        return false;
      }
      nVersion := vchTemp[0];
      vchData := vchTemp[1..];
      return true;
    }

    method ToString() returns (str: string)
      ensures str == Written([nVersion] + vchData + hash([nVersion] + vchData))
      ensures str == EncodedCheck(hash, [nVersion] + vchData)
              <==> Intact([nVersion] + vchData + hash([nVersion] + vchData))
    {
      hide Written, Intact;
      hide EncodedCheck;
      str := EncodeBase58Check(hash, [nVersion] + vchData);
    }
  }

  lemma EncodedHasNoEnd(vch: seq<Octet>)
    ensures '\0' !in Encoded(vch)
  {
    hide Number, Digits, Zeros;
    var ds := Nothing(Zeros(vch)) + Digits(58, Number(0x100, vch));
    forall i | 0 <= i < |ds| ensures Letters(ds)[i] != '\0' {
      LetterNoSpace(ds[i]);
    }
  }

  /** What is left of the bytes in the encoder. */
  function Left(vch: seq<Octet>): seq<Octet> {
    Nothing(Zeros(vch)) + Octets(HeldNumber(vch))
  }

  /** The text that is written is that of the bytes that are left. */
  lemma WrittenDecodes(vch: seq<Octet>)
    ensures '\0' !in Written(vch) && Decoded(Written(vch)) == Some(Left(vch))
    ensures Left(vch) == vch <==> Intact(vch)
  {
    hide Number, Digits, Zeros, Letters, HeldNumber, Intact;
    ZerosThenDigits(0x100, Zeros(vch), HeldNumber(vch));
    assert Written(vch) == Encoded(Left(vch));
    EncodedHasNoEnd(Left(vch));
    DecodeEncode(Left(vch));
    HeldNumberIff(vch);
    OctetsAreDigits(vch);
    DigitsStrip(0x100, vch);
  }

  /** Bytes that are not intact come back as other bytes, or not at all. */
  lemma WrittenChecks(hash: Hasher, vch: seq<Octet>)
    ensures '\0' !in Written(vch + hash(vch))
    ensures DecodedCheck(hash, Written(vch + hash(vch))) == Some(vch) <==> Intact(vch + hash(vch))
  {
    var all := vch + hash(vch);
    WrittenDecodes(all);
    hide Written, Decoded, Intact, Left;
    var bs := Left(all);
    assert all[..|vch|] == vch && all[|vch|..] == hash(vch);
    if |bs| >= 4 {
      assert bs == bs[..|bs| - 4] + bs[|bs| - 4..];
    }
  }

  /** `SetString` of `ToString` restores version and data exactly when the encoder loses nothing. */
  method StringRoundTrip(x: CBase58Data, y: CBase58Data) returns (ok: bool)
    requires x.hash == y.hash && x != y
    modifies y
    ensures var all := [x.nVersion] + x.vchData + x.hash([x.nVersion] + x.vchData);
      ok && y.nVersion == x.nVersion && y.vchData == x.vchData <==> Intact(all)
  {
    hide EncodedCheck, DecodedCheck, Written, Intact;
    var str := x.ToString();
    WrittenChecks(x.hash, [x.nVersion] + x.vchData);
    ok := y.SetString(str);
    ghost var d := DecodedCheck(x.hash, str);
    assert ok ==> d.bytes == [d.bytes[0]] + d.bytes[1..];
  }
}
