/** The compact form as a formula, and hexadecimal texts in all the spellings that are read. */
module NumberForms {
  import opened BigNum
  import opened Compact
  import opened Division
  import opened Mpi
  import opened Numerals

  // ---- the compact form ----

  /** The number of a compact word without its sign: 23 bits, scaled by 256 to the size less three. */
  function CompactMagnitude(c: Word): nat {
    var size, word := c / 0x100_0000, c % 0x80_0000;
    if size == 0 then 0
    else if size == 1 then word / 0x1_0000
    else if size == 2 then word / 0x100
    else word * Pow(0x100, size - 3)
  }

  lemma Bytes3(c: Word)
    ensures var b0, b1, b2 := c / 0x1_0000 % 0x100, c / 0x100 % 0x100, c % 0x100;
      && c % 0x80_0000 == b0 % 0x80 * 0x1_0000 + b1 * 0x100 + b2
      && (c / 0x80_0000 % 2 == 1 <==> b0 >= 0x80)
      && c % 0x80_0000 / 0x1_0000 == b0 % 0x80 && c % 0x80_0000 / 0x100 == b0 % 0x80 * 0x100 + b1
  {
    var s, b0, b1, b2 := c / 0x100_0000, c / 0x1_0000 % 0x100, c / 0x100 % 0x100, c % 0x100;
    Repacked(c);
    var low := b0 % 0x80 * 0x1_0000 + b1 * 0x100 + b2;
    Divided(0x80_0000, c, 2 * s + b0 / 0x80, low);
    Divided(0x1_0000, low, b0 % 0x80, b1 * 0x100 + b2);
    Divided(0x100, low, b0 % 0x80 * 0x100 + b1, b2);
    Divided(2, 2 * s + b0 / 0x80, s, b0 / 0x80);
  }

  lemma {:induction false} Stretched(m: seq<Octet>, k: nat)
    ensures Number(0x100, m + Nothing(k)) == Number(0x100, m) * Pow(0x100, k)
  {
    NumberJoin(0x100, m, Nothing(k));
    NumberOfNothing(0x100, k);
  }

  lemma SmallNumbers(a: nat, b: nat, d: nat)
    ensures Number(0x100, []) == 0 && Number(0x100, [a]) == a && Number(0x100, [a, b]) == a * 0x100 + b
    ensures Number(0x100, [a, b, d]) == a * 0x1_0000 + b * 0x100 + d
  {
    NumberPush(0x100, [], a);
    NumberPush(0x100, [a], b);
    NumberPush(0x100, [a, b], d);
    assert [] + [a] == [a] && [a] + [b] == [a, b] && [a, b] + [d] == [a, b, d];
  }

  lemma MagnitudeOfBody(c: Word)
    requires c / 0x100_0000 > 0
    ensures var body := CompactBody(c);
      body != [] && Number(0x100, [body[0] % 0x80] + body[1..]) == CompactMagnitude(c)
  {
    hide Number, Pow;
    var size, body := c / 0x100_0000, CompactBody(c);
    var b0, b1, b2 := c / 0x1_0000 % 0x100, c / 0x100 % 0x100, c % 0x100;
    CompactBodyAt(c);
    hide CompactBody;
    Bytes3(c);
    SmallNumbers(b0 % 0x80, b1, b2);
    var m := [body[0] % 0x80] + body[1..];
    if size == 1 {
      assert m == [b0 % 0x80];
    } else if size == 2 {
      assert m == [b0 % 0x80, b1];
    } else {
      var head: seq<Octet> := [b0 % 0x80, b1, b2];
      assert m == head + Nothing(size - 3);
      Stretched(head, size - 3);
    }
  }

  /** What a compact word stands for: bit 23 is the sign. */
  lemma CompactFormula(c: Word)
    ensures CompactValue(c) == if c / 0x80_0000 % 2 == 1 then 0 - CompactMagnitude(c) else CompactMagnitude(c)
  {
    hide Number, Pow;
    Bytes3(c);
    CompactBodyAt(c);
    if c / 0x100_0000 > 0 {
      MagnitudeOfBody(c);
    }
    hide CompactBody;
  }

  /** The target of the first block: 0xFFFF behind 208 more bits. */
  lemma FirstTarget()
    ensures CompactValue(0x1D00_FFFF) == 0xFFFF * Pow(0x100, 26)
  {
    hide Pow, CompactValue;
    CompactFormula(0x1D00_FFFF);
  }

  // ---- hexadecimal text ----

  /** Characters by their codes: tab to carriage return, and the blank. */
  lemma SpaceCodes(c: char)
    ensures IsSpace(c) <==> c as int == 32 || 9 <= c as int <= 13
  {
  }

  /** Small and capital letters stand for the same digits. */
  lemma HexCodes(c: char)
    ensures IsHexDigit(c) <==> 48 <= c as int <= 57 || 65 <= c as int <= 70 || 97 <= c as int <= 102
    ensures IsHexDigit(c) ==>
      HexDigit(c) == if c as int <= 57 then c as int - 48 else if c as int <= 70 then c as int - 55 else c as int - 87
  {
  }

  predicate Spaces(s: string) { forall i :: 0 <= i < |s| ==> IsSpace(s[i]) }

  predicate HexText(s: string) { forall i :: 0 <= i < |s| ==> IsHexDigit(s[i]) }

  lemma {:induction false} SpacesSkipped(a: string, s: string)
    requires Spaces(a) && (s == "" || !IsSpace(s[0]))
    ensures AfterSpaces(a + s) == s
  {
    hide IsSpace;
    if a != "" {
      SpacesSkipped(a[1..], s);
      assert (a + s)[1..] == a[1..] + s;
    } else {
      assert a + s == s;
    }
  }

  lemma {:induction false} RunIs(r: string, rest: string)
    requires HexText(r) && (rest == "" || !IsHexDigit(rest[0]))
    ensures HexRun(r + rest) == r
  {
    hide IsHexDigit;
    if r != "" {
      RunIs(r[1..], rest);
      assert (r + rest)[1..] == r[1..] + rest;
    } else {
      assert r + rest == rest;
    }
  }

  lemma NoHexSpace(c: char)
    requires IsHexDigit(c)
    ensures !IsSpace(c) && c != '-' && c != 'x' && c != 'X'
  {
  }

  /** What follows sign and space: an optional prefix, space, the digits, and something that is no digit. Digits
      without a prefix must not look like one. */
  lemma Unprefixed(prefix: string, b: string, r: string, rest: string)
    requires prefix in ["", "0x", "0X"] && Spaces(b) && HexText(r) && r != ""
    requires rest == "" || !IsHexDigit(rest[0])
    requires prefix == "" ==> b == "" && !(r == "0" && rest != "" && rest[0] in "xX")
    ensures var u := prefix + b + r + rest;
      var prefixed := At(u, 0) == '0' && (At(u, 1) == 'x' || At(u, 1) == 'X');
      HexRun(AfterSpaces(if prefixed then u[2..] else u)) == r
  {
    hide IsSpace, IsHexDigit, HexRun, AfterSpaces;
    var u := prefix + b + r + rest;
    NoHexSpace(r[0]);
    RunIs(r, rest);
    SpacesSkipped(b, r + rest);
    assert b + (r + rest) == b + r + rest;
    if prefix == "" {
      assert u == r + rest;
      if |r| > 1 {
        NoHexSpace(r[1]);
      }
    } else {
      assert u[2..] == b + r + rest;
    }
  }

  /** The texts that `SetHex` is made for: space, a minus sign, `0x` or `0X`, space, digits in small or capital letters,
      and whatever follows them. */
  lemma HexForms(a: string, negative: bool, prefix: string, b: string, r: string, rest: string)
    requires Spaces(a) && prefix in ["", "0x", "0X"] && Spaces(b) && HexText(r) && r != ""
    requires rest == "" || !IsHexDigit(rest[0])
    requires prefix == "" ==> b == "" && !(r == "0" && rest != "" && rest[0] in "xX")
    ensures var m: int := Number(16, Values(r));
      HexValue(a + ((if negative then "-" else "") + (prefix + b + r + rest))) == if negative then -m else m
  {
    hide IsSpace, IsHexDigit, HexRun, AfterSpaces, Number, Values, HexValue;
    var u := prefix + b + r + rest;
    Unprefixed(prefix, b, r, rest);
    FirstOf(prefix, b, r, rest);
    SignedHex(a, negative, u);
  }

  /** Space and sign. */
  lemma SignedHex(a: string, negative: bool, u: string)
    requires Spaces(a) && u != "" && !IsSpace(u[0]) && u[0] != '-'
    ensures var prefixed := At(u, 0) == '0' && (At(u, 1) == 'x' || At(u, 1) == 'X');
      var m: int := Number(16, Values(HexRun(AfterSpaces(if prefixed then u[2..] else u))));
      HexValue(a + ((if negative then "-" else "") + u)) == if negative then -m else m
  {
    hide IsSpace, HexRun, AfterSpaces, Number, Values;
    var t := (if negative then "-" else "") + u;
    MinusNoSpace();
    SpacesSkipped(a, t);
    if negative {
      assert t[1..] == u;
    } else {
      assert t == u;
    }
  }

  lemma FirstOf(prefix: string, b: string, r: string, rest: string)
    requires prefix in ["", "0x", "0X"] && HexText(r) && r != "" && (prefix == "" ==> b == "")
    ensures var u := prefix + b + r + rest; u != "" && !IsSpace(u[0]) && u[0] != '-'
  {
    NoHexSpace(r[0]);
  }

  /** A text without digits reads as zero. */
  lemma NoHexDigits(s: string)
    requires s == "" || (!IsHexDigit(s[0]) && !IsSpace(s[0]) && s[0] != '-')
    ensures HexValue(s) == 0
  {
    hide IsHexDigit, IsSpace, Number;
    ZeroIsDigit();
    NoDigits();
    assert AfterSpaces(s) == s;
  }

  lemma ZeroIsDigit()
    ensures IsHexDigit('0')
  {
  }
}
