/** The compact form of a target: size, sign and three bytes of a number (`SetCompact`, `GetCompact`). */
module Compact {
  import opened Division
  import opened Numerals
  import opened Mpi

  type Word = c: nat | c < 0x1_0000_0000

  function ByteAt(body: seq<Octet>, i: nat): Octet { if i < |body| then body[i] else 0 }

  /** `GetCompact`: a size in the top byte, which wraps, and the first three bytes. */
  function CompactOf(v: int): Word {
    Packed(|Body(v)| % 0x100, ByteAt(Body(v), 0), ByteAt(Body(v), 1), ByteAt(Body(v), 2))
  }

  function Packed(size: Octet, b0: Octet, b1: Octet, b2: Octet): Word {
    (size as int) * 0x100_0000 + (b0 as int) * 0x1_0000 + (b1 as int) * 0x100 + b2
  }

  function Size(c: Word): Octet { c / 0x100_0000 }

  function Mantissa(c: Word): (m: seq<Octet>)
    ensures |m| == 3
  {
    [c / 0x1_0000 % 0x100, c / 0x100 % 0x100, c % 0x100]
  }

  lemma PackedSum(size: Octet, b0: Octet, b1: Octet, b2: Octet)
    ensures Packed(size, b0, b1, b2)
         == (size as int) * 0x100_0000 + (b0 as int) * 0x1_0000 + (b1 as int) * 0x100 + b2
  {
  }

  lemma Unpacked(size: Octet, b0: Octet, b1: Octet, b2: Octet)
    ensures Size(Packed(size, b0, b1, b2)) == size
    ensures Mantissa(Packed(size, b0, b1, b2)) == [b0, b1, b2]
  {
    hide Packed;
    PackedSum(size, b0, b1, b2);
    Quotients(Packed(size, b0, b1, b2), size, b0, b1, b2);
  }

  lemma Quotients(c: nat, s: nat, a: nat, b: nat, d: nat)
    requires a < 0x100 && b < 0x100 && d < 0x100
    requires c == s * 0x100_0000 + a * 0x1_0000 + b * 0x100 + d
    ensures c / 0x100_0000 == s && c / 0x1_0000 == s * 0x100 + a && c / 0x1_0000 % 0x100 == a
    ensures c / 0x100 % 0x100 == b && c % 0x100 == d && c % 0x1_0000 == b * 0x100 + d
  {
    var x := s * 0x100 + a;
    Divided(0x100, c, x * 0x100 + b, d);
    Divided(0x100, x * 0x100 + b, x, b);
    Divided(0x100, x, s, a);
    Divided(0x1_0000, c, x, b * 0x100 + d);
    Divided(0x100_0000, c, s, a * 0x1_0000 + b * 0x100 + d);
  }

  lemma Repacked(c: Word)
    ensures Packed(Size(c), Mantissa(c)[0], Mantissa(c)[1], Mantissa(c)[2]) == c
  {
    var y := c / 0x100;
    var x := y / 0x100;
    Recomposed(c, 0x100);
    Recomposed(y, 0x100);
    Recomposed(x, 0x100);
    Quotients(c, x / 0x100, x % 0x100, y % 0x100, c % 0x100);
  }

  /** The first three bytes, and zeros in place of the others. */
  function Kept(body: seq<Octet>): (r: seq<Octet>)
    ensures |r| == |body|
  {
    seq(|body|, i requires 0 <= i < |body| => if i < 3 then body[i] else 0)
  }

  /** The bytes that `SetCompact` hands to OpenSSL: the mantissa cut or stretched to the size. */
  function CompactBody(c: Word): (r: seq<Octet>)
    ensures |r| == Size(c)
  {
    seq(Size(c), i requires i >= 0 => if i < 3 then Mantissa(c)[i] else 0)
  }

  /** `SetCompact`. */
  function CompactValue(c: Word): int { Value(CompactBody(c)) }

  /** What is left of a number that goes through the compact form. */
  function Rounded(v: int): int { CompactValue(CompactOf(v)) }

  lemma CompactKeeps(v: int)
    requires |Body(v)| < 0x100
    ensures CompactBody(CompactOf(v)) == Kept(Body(v))
    ensures Rounded(v) == Value(Kept(Body(v)))
  {
    hide Body, Value, Packed, Size, Mantissa;
    var b := Body(v);
    Unpacked(|b|, ByteAt(b, 0), ByteAt(b, 1), ByteAt(b, 2));
  }

  lemma KeptShortest(body: seq<Octet>)
    ensures Shortest(Kept(body)) <==> Shortest(body)
    ensures Kept(Kept(body)) == Kept(body)
  {
  }

  /** The compact form of the rounded number is the same one, so rounding twice changes nothing more. */
  lemma RoundedOnce(v: int)
    requires |Body(v)| < 0x100
    ensures Body(Rounded(v)) == Kept(Body(v))
    ensures CompactOf(Rounded(v)) == CompactOf(v) && Rounded(Rounded(v)) == Rounded(v)
  {
    CompactKeeps(v);
    BodyShortest(v);
    KeptShortest(Body(v));
    BodyOfValue(Kept(Body(v)));
  }

  lemma EmptyValue()
    ensures Value([]) == 0 && Number(0x100, []) == 0
  {
  }

  lemma PositiveValue(body: seq<Octet>)
    requires body != [] ==> body[0] < 0x80
    ensures Value(body) == Number(0x100, body)
  {
    hide Number, Value;
    if body != [] {
      assert body == [body[0] % 0x80] + body[1..];
      ValueOfBytes(body, body);
    } else {
      EmptyValue();
    }
  }

  lemma PositiveBody(v: nat)
    ensures Body(v) != [] ==> Body(v)[0] < 0x80
    ensures Number(0x100, Body(v)) == v
  {
    hide Number, Digits, Value;
    ValueOfBody(v);
    PositiveValue(Body(v));
  }

  lemma TwoBytes(a: nat, b: nat)
    ensures Number(0x100, [a, b]) == a * 0x100 + b
  {
    NumberPush(0x100, [a], b);
    NumberPush(0x100, [], a);
    assert [] + [a] == [a] && [a] + [b] == [a, b];
  }

  /** The size of a number bounds it from both sides. */
  lemma SizeBounds(v: nat)
    ensures var n := |Body(v)|;
      && (n == 0 <==> v == 0)
      && (n >= 1 ==> v < 0x80 * Pow(0x100, n - 1))
      && (n >= 2 ==> v >= 0x80 * Pow(0x100, n - 2))
  {
    hide Number, Digits;
    var body := Body(v);
    var n := |body|;
    PositiveBody(v);
    BodyShortest(v);
    if n >= 1 {
      OctetsAreDigits(body);
      assert body == [body[0]] + body[1..];
      NumberJoin(0x100, [body[0]], body[1..]);
      NumberBound(0x100, body[1..]);
      TopDigit(body[0]);
      Scale(body[0], 0x7F, Pow(0x100, n - 1));
    }
    if n >= 2 {
      var top := body[..2];
      assert body == top + body[2..] && top == [body[0], body[1]];
      TwoBytes(body[0], body[1]);
      NumberJoin(0x100, top, body[2..]);
      Scale(0x80, Number(0x100, top), Pow(0x100, n - 2));
    }
  }

  lemma TopDigit(a: nat)
    ensures Number(0x100, [a]) == a
  {
    NumberPush(0x100, [], a);
    assert [] + [a] == [a];
  }

  lemma Scale(a: nat, b: nat, p: nat)
    requires a <= b
    ensures a * p <= b * p
  {
  }

  /** The two parts of a number of more than three bytes: what the compact form keeps, and what it loses. */
  lemma Parts(v: nat) returns (high: nat, low: nat)
    requires 3 < |Body(v)| < 0x100
    ensures var p := Pow(0x100, |Body(v)| - 3);
      && v == high * p + low && low < p && Rounded(v) == high * p && high >= 0x8000
  {
    hide Digits;
    var body := Body(v);
    var rest := body[3..];
    high, low := Number(0x100, body[..3]), Number(0x100, rest);
    PositiveBody(v);
    BodyShortest(v);
    assert body == body[..3] + rest;
    NumberJoin(0x100, body[..3], rest);
    OctetsAreDigits(rest);
    NumberBound(0x100, rest);
    CompactKeeps(v);
    assert Kept(body) == body[..3] + Nothing(|rest|);
    PositiveValue(Kept(body));
    NumberJoin(0x100, body[..3], Nothing(|rest|));
    NumberOfNothing(0x100, |rest|);
    assert body[..3] == [body[0], body[1]] + [body[2]];
    NumberPush(0x100, [body[0], body[1]], body[2]);
    TwoBytes(body[0], body[1]);
  }

  /** The compact form never rounds up, and loses less than one part in 2^15. */
  lemma RoundedLoss(v: nat)
    requires |Body(v)| < 0x100
    ensures 0 <= Rounded(v) <= v
    ensures v > 0 ==> (v - Rounded(v)) * 0x8000 < v
    ensures |Body(v)| <= 3 ==> Rounded(v) == v
  {
    hide Number, Digits, Value, Body, CompactValue, CompactOf;
    if |Body(v)| <= 3 {
      CompactKeeps(v);
      assert Kept(Body(v)) == Body(v);
      ValueOfBody(v);
    } else {
      var high, low := Parts(v);
      var p := Pow(0x100, |Body(v)| - 3);
      Scale(0x8000, high, p);
    }
  }

  lemma HigherPart(a: nat, x: nat, b: nat, y: nat, p: nat)
    requires a * p + x <= b * p + y && y < p
    ensures a <= b
  {
    assert (a - b) * p == a * p - b * p;
    Product(a - b, p);
  }

  /** A larger number has a compact form at least as large. */
  lemma RoundedMonotone(u: nat, v: nat)
    requires u <= v && |Body(v)| < 0x100
    ensures |Body(u)| <= |Body(v)| && Rounded(u) <= Rounded(v)
  {
    hide Number, Digits, Value, Body, CompactValue, CompactOf;
    var m, n := |Body(u)|, |Body(v)|;
    SizeBounds(u);
    SizeBounds(v);
    if m > n {
      if n >= 1 { PowGrows(0x100, n - 1, m - 2); }
    } else if m < n {
      RoundedLoss(u);
      RoundedLoss(v);
      RoundedOnce(v);
      SizeBounds(Rounded(v));
      if m >= 1 { PowGrows(0x100, m - 1, n - 2); }
    } else if n <= 3 {
      RoundedLoss(u);
      RoundedLoss(v);
    } else {
      var high, low := Parts(u);
      var high', low' := Parts(v);
      var p := Pow(0x100, n - 3);
      HigherPart(high, low, high', low', p);
      Scale(high, high', p);
    }
  }

  /** A compact form that names a number as `GetCompact` would: no unused mantissa byte is set, and the bytes
      are the shortest ones. */
  predicate CanonicalCompact(c: Word) {
    && (Size(c) == 0 ==> c == 0)
    && (Size(c) == 1 ==> c % 0x1_0000 == 0 && c / 0x1_0000 % 0x80 > 0)
    && (Size(c) == 2 ==> c % 0x100 == 0)
    && (Size(c) >= 2 ==> c / 0x1_0000 % 0x80 > 0 || c / 0x100 % 0x100 >= 0x80)
  }

  lemma CanonicalBytes(c: Word)
    ensures CanonicalCompact(c) <==>
      && Shortest(CompactBody(c))
      && (forall i :: Size(c) <= i < 3 ==> Mantissa(c)[i] == 0)
  {
    hide Packed, Size, Mantissa;
    var m, size := Mantissa(c), Size(c);
    Repacked(c);
    PackedSum(size, m[0], m[1], m[2]);
    Quotients(c, size, m[0], m[1], m[2]);
    SignBit(c, size, m[0]);
  }

  lemma SignBit(c: nat, size: Octet, b0: Octet)
    requires c / 0x1_0000 == size as int * 0x100 + b0
    ensures c / 0x1_0000 % 0x80 == b0 % 0x80
  {
    Divided(0x80, c / 0x1_0000, size as int * 2 + b0 as int / 0x80, b0 % 0x80);
  }

  /** Reading bytes never makes them longer. */
  lemma NotLonger(body: seq<Octet>)
    ensures |Body(Value(body))| <= |body|
  {
    hide Number, Digits;
    if body != [] {
      var m := [body[0] % 0x80] + body[1..];
      ValueOfBytes(body, m);
      var v := Number(0x100, m);
      assert m == [body[0] % 0x80] + body[1..];
      NumberJoin(0x100, [body[0] % 0x80], body[1..]);
      OctetsAreDigits(body[1..]);
      NumberBound(0x100, body[1..]);
      TopDigit(body[0] % 0x80);
      var p := Pow(0x100, |body| - 1);
      Scale(body[0] % 0x80, 0x7F, p);
      SizeBounds(v);
      if |Body(v)| > |body| {
        PowGrows(0x100, |body| - 1, |Body(v)| - 2);
      }
      if v > 0 { BodyOfOpposite(v); }
    }
  }

  /** The compact forms that survive being read and written again. */
  lemma CompactRoundTrip(c: Word)
    ensures CompactOf(CompactValue(c)) == c <==> CanonicalCompact(c)
  {
    hide Number, Digits, Value, Body, Packed, Size, Mantissa, CanonicalCompact;
    var b := CompactBody(c);
    var b' := Body(CompactValue(c));
    CanonicalBytes(c);
    Repacked(c);
    NotLonger(b);
    BodyShortest(CompactValue(c));
    BodyOfValue(b);
    Unpacked(|b'|, ByteAt(b', 0), ByteAt(b', 1), ByteAt(b', 2));
  }
}
