/** `CBigNum`: an integer, and the ways it is read from and written to bytes and text. */
module BigNum {
  import opened Compact
  import opened Division
  import opened Mpi
  import opened Numerals
  import opened Reversal

  // ---- bytes of fixed number ----

  /** The `k` low bytes of a number, the highest first. */
  function Fixed(v: nat, k: nat): (r: seq<Octet>)
    ensures |r| == k
  {
    if k == 0 then [] else Fixed(v / 0x100, k - 1) + [v % 0x100]
  }

  lemma {:induction false} NumberOfFixed(v: nat, k: nat)
    requires v < Pow(0x100, k)
    ensures Number(0x100, Fixed(v, k)) == v
  {
    if k > 0 {
      Recomposed(v, 0x100);
      NumberOfFixed(v / 0x100, k - 1);
      NumberPush(0x100, Fixed(v / 0x100, k - 1), v % 0x100);
    } else {
      assert Fixed(v, 0) == [];
    }
  }

  const WORD64: nat := 0x1_0000_0000_0000_0000
  const TOP64: nat := 0x100_0000_0000_0000

  lemma Pow7And8()
    ensures Pow(0x100, 7) == TOP64 && Pow(0x100, 8) == WORD64
  {
    assert Pow(0x100, 4) == 0x1_0000_0000 by { assert Pow(0x100, 2) == 0x1_0000; }
    assert Pow(0x100, 6) == 0x1_0000_0000_0000;
  }

  /** The highest byte of eight, and a shift by one byte. */
  lemma TopByte(w: seq<Octet>)
    requires |w| == 8
    ensures Number(0x100, w) / TOP64 % 0x100 == w[0]
    ensures Number(0x100, w) * 0x100 % WORD64 == Number(0x100, w[1..] + [0])
  {
    hide Number;
    var low: seq<Octet> := w[1..];
    Pow7And8();
    assert w == [w[0]] + low;
    NumberJoin(0x100, [w[0]], low);
    TopDigit(w[0]);
    OctetsAreDigits(low);
    NumberBound(0x100, low);
    NumberPush(0x100, low, 0);
    Divided(TOP64, Number(0x100, w), w[0], Number(0x100, low));
    Divided(WORD64, Number(0x100, w) * 0x100, w[0], Number(0x100, low) * 0x100);
  }

  // ---- bytes without leading zeros ----

  function Stripped(ds: seq<Octet>): seq<Octet> { ds[Zeros(ds)..] }

  lemma {:induction false} ZerosPush(ds: seq<Octet>, c: Octet)
    ensures Zeros(ds + [c]) == if Zeros(ds) < |ds| then Zeros(ds) else if c == 0 then |ds| + 1 else |ds|
  {
    if ds == [] {
      assert (ds + [c])[1..] == [];
    } else if ds[0] == 0 {
      ZerosPush(ds[1..], c);
      assert (ds + [c])[1..] == ds[1..] + [c];
    }
  }

  lemma StrippedPush(ds: seq<Octet>, c: Octet)
    ensures Stripped(ds + [c]) == if Stripped(ds) == [] && c == 0 then [] else Stripped(ds) + [c]
  {
    ZerosPush(ds, c);
  }

  lemma SignedPush(negative: bool, m: seq<Octet>, c: Octet)
    requires m != []
    ensures Signed(negative, m + [c]) == Signed(negative, m) + [c]
  {
  }

  /** What little-endian bytes are read as; bytes that are refused leave the number as it was. */
  function ReadVch(vch: seq<Octet>, was: int): int {
    match Held(Reversed(vch))
    case Good(value) => value
    case Bad => was
  }

  // ---- the class ----

  class CBigNum {
    var bn: int

    constructor (n: int)
      ensures bn == n
    {
      bn := n;
    }

    /** The part that `setint64`, `setuint64` and `setuint256` repeat for each byte, from the highest: skip leading
        zeros, and put the sign into the first byte or into an extra one. */
    static method PutByte(pch: array<Octet>, p: nat, leading: bool, negative: bool, c: Octet, ghost ds: seq<Octet>)
      returns (q: nat, still: bool)
      requires 4 <= p && p + 2 <= pch.Length
      requires leading <==> Stripped(ds) == []
      requires pch[4..p] == Signed(negative, Stripped(ds))
      modifies pch
      ensures p <= q <= p + 2 && q <= pch.Length
      ensures still <==> Stripped(ds + [c]) == []
      ensures pch[4..q] == Signed(negative, Stripped(ds + [c]))
    {
      hide Stripped;
      StrippedPush(ds, c);
      q, still := p, leading;
      var b := c;
      if leading {
        if c == 0 {
          return;
        }
        if c >= 0x80 {
          pch[q] := if negative then 0x80 else 0;
          q := q + 1;
        } else if negative {
          b := c + 0x80;
        }
        still := false;
      } else {
        SignedPush(negative, Stripped(ds), c);
      }
      pch[q] := b;
      q := q + 1;
      assert pch[4..q] == pch[4..p] + pch[p..q];
    }

    /** `pch[0..4]` gets the size, and `BN_mpi2bn` reads the whole. */
    method ReadMpi(pch: array<Octet>, p: nat, ghost v: int)
      requires 4 <= p <= pch.Length && p < INT_LIMIT && pch[4..p] == Body(v)
      modifies this, pch
      ensures bn == v
    {
      hide Body, Value;
      var header := Header(p - 4);
      pch[0], pch[1], pch[2], pch[3] := header[0], header[1], header[2], header[3];
      assert pch[..p] == header + pch[4..p];
      Framed(Body(v));
      HeldWhole(Body(v));
      ValueOfBody(v);
      match Mpi2bn(pch[..p], p)
      case Good(value) => bn := value;
      case Bad => assert false;
    }

    /** Every 64-bit integer, the most negative one included. */
    method setint64(sn: int)
      requires -0x8000_0000_0000_0000 <= sn < 0x8000_0000_0000_0000
      modifies this
      ensures bn == sn
    {
      hide Signed, Stripped, Digits, Number, Fixed, Zeros;
      var pch := new Octet[14];
      var p := 4;
      var n: nat;
      var fNegative := sn < 0;
      if fNegative {
        n := -(sn + 1);
        n := n + 1;
      } else {
        n := sn;
      }
      ghost var ds := Fixed(n, 8);
      Pow7And8();
      NumberOfFixed(n, 8);
      DigitsOfFixed(n, 8);
      var fLeadingZeroes := true;
      NothingStripped(fNegative);
      assert ds[..0] == [] && ds[0..] + Nothing(0) == ds;
      for i := 0 to 8
        invariant 4 <= p <= 5 + i
        invariant n == Number(0x100, ds[i..] + Nothing(i))
        invariant fLeadingZeroes <==> Stripped(ds[..i]) == []
        invariant pch[4..p] == Signed(fNegative, Stripped(ds[..i]))
      {
        ghost var w := ds[i..] + Nothing(i);
        TopByte(w);
        assert w[1..] + [0] == ds[i + 1..] + Nothing(i + 1);
        assert ds[..i + 1] == ds[..i] + [ds[i]];
        var c: Octet := n / TOP64 % 0x100;
        n := n * 0x100 % WORD64;
        p, fLeadingZeroes := PutByte(pch, p, fLeadingZeroes, fNegative, c, ds[..i]);
        SignedSize(fNegative, ds[..i + 1]);
      }
      assert ds[..8] == ds;
      ReadMpi(pch, p, sn);
    }

    /** A 256-bit number, read from the highest of its 32 little-endian bytes. */
    method setuint256(n: nat)
      requires n < Pow(0x100, 32)
      modifies this
      ensures bn == n
    {
      hide Signed, Stripped, Digits, Number, Fixed, Zeros, Pow;
      var pch := new Octet[38];
      var p := 4;
      var ds := Fixed(n, 32);
      var bytes := Reversed(ds);
      DigitsOfFixed(n, 32);
      var fLeadingZeroes := true;
      NothingStripped(false);
      assert ds[..0] == [];
      var psrc := 32;
      while psrc != 0
        invariant psrc <= 32 && 4 <= p <= 37 - psrc
        invariant fLeadingZeroes <==> Stripped(ds[..32 - psrc]) == []
        invariant pch[4..p] == Signed(false, Stripped(ds[..32 - psrc]))
      {
        psrc := psrc - 1;
        var c := bytes[psrc];
        assert ds[..32 - psrc] == ds[..31 - psrc] + [c];
        p, fLeadingZeroes := PutByte(pch, p, fLeadingZeroes, false, c, ds[..31 - psrc]);
        SignedSize(false, ds[..32 - psrc]);
      }
      assert ds[..32] == ds;
      ReadMpi(pch, p, n);
    }

    /** The bytes of `BN_bn2mpi` without the sign bit. */
    method UnsignedBytes() returns (vch: array<Octet>)
      ensures fresh(vch) && vch.Length >= 4 && vch[4..] == Unsigned(Body(bn))
    {
      hide Body, Header;
      var mpi := Bn2mpi(bn);
      vch := new Octet[|mpi|](i requires 0 <= i < |mpi| => mpi[i]);
      if vch.Length > 4 {
        vch[4] := vch[4] % 0x80;
      }
      assert vch[4..] == Unsigned(Body(bn));
    }

    /** The magnitude, cut to 256 bits. */
    method getuint256() returns (r: nat)
      ensures r == Magnitude(bn) % Pow(0x100, 32)
    {
      hide Body, Number, Pow, Unsigned, Header;
      var vch := UnsignedBytes();
      ghost var m := Unsigned(Body(bn));
      var n := new Octet[32](_ => 0);
      var i, j := 0, vch.Length - 1;
      while i < 32 && j >= 4
        invariant i <= 32 && i <= |m| && j == vch.Length - 1 - i
        invariant vch[4..] == m
        invariant forall k :: 0 <= k < i ==> n[k] == m[|m| - 1 - k]
        invariant forall k :: i <= k < 32 ==> n[k] == 0
      {
        n[i] := vch[j];
        i, j := i + 1, j - 1;
      }
      UnsignedNumber(bn);
      LowBytes(m, Reversed(n[..]), i);
      r := Number(0x100, Reversed(n[..]));
    }

    /** Little-endian bytes with a sign bit. */
    method setvch(vch: seq<Octet>)
      modifies this
      ensures bn == ReadVch(vch, old(bn))
    {
      var vch2 := Header(|vch|) + Reversed(vch);
      Framed(Reversed(vch));
      match Mpi2bn(vch2, AsInt(|vch2|))
      case Good(value) => bn := value;
      case Bad =>
    }

    method getvch() returns (vch: seq<Octet>)
      ensures vch == Reversed(Body(bn))
    {
      var mpi := Bn2mpi(bn);
      if |mpi| <= 4 {
        return [];
      }
      vch := Reversed(mpi[4..]);
    }

    /** The bytes that `SetCompact` lays out: the size, and up to three bytes of the word behind it. */
    static method CompactBytes(nCompact: Word) returns (vch: array<Octet>)
      ensures fresh(vch) && vch[..] == Header(|CompactBody(nCompact)|) + CompactBody(nCompact)
      ensures |CompactBody(nCompact)| < 0x100
    {
      hide Header;
      var nSize: Octet := nCompact / 0x100_0000;
      vch := new Octet[4 + nSize](_ => 0);
      vch[3] := nSize;
      if nSize >= 1 { vch[4] := nCompact / 0x1_0000 % 0x100; }
      if nSize >= 2 { vch[5] := nCompact / 0x100 % 0x100; }
      if nSize >= 3 { vch[6] := nCompact % 0x100; }
      SmallHeader(nSize);
      assert vch[..4] == [0, 0, 0, nSize];
      CompactBodyAt(nCompact);
      hide CompactBody;
      assert vch[4..] == CompactBody(nCompact);
      assert vch[..] == vch[..4] + vch[4..];
    }

    /** The value of a compact target. */
    method SetCompact(nCompact: Word)
      modifies this
      ensures bn == CompactValue(nCompact)
    {
      hide Value, Header, CompactBody;
      var vch := CompactBytes(nCompact);
      Framed(CompactBody(nCompact));
      HeldWhole(CompactBody(nCompact));
      match Mpi2bn(vch[..], vch.Length)
      case Good(value) => bn := value;
      case Bad => assert false;
    }

    /** The compact form of the number. */
    method GetCompact() returns (nCompact: Word)
      ensures nCompact == CompactOf(bn)
    {
      hide Body;
      var vch := Bn2mpi(bn);
      var nSize := |vch| - 4;
      ShiftedSize(nSize);
      nCompact := nSize * 0x100_0000 % 0x1_0000_0000;
      PackedSum(nSize % 0x100, ByteAt(Body(bn), 0), ByteAt(Body(bn), 1), ByteAt(Body(bn), 2));
      if nSize >= 1 { nCompact := nCompact + vch[4] as int * 0x1_0000; }
      if nSize >= 2 { nCompact := nCompact + vch[5] as int * 0x100; }
      if nSize >= 3 { nCompact := nCompact + vch[6]; }
    }

    /** Text in hexadecimal: spaces, sign, `0x` and spaces again may come first, anything may follow the digits. */
    method SetHex(str: string)
      modifies this
      ensures bn == HexValue(str)
    {
      hide IsSpace, AfterSpaces, HexRun, Number, Values;
      var psz := SkipSpaces(str, 0);
      ghost var t := str[psz..];
      assert str[0..] == str && AfterSpaces(str) == t;
      var fNegative := false;
      if At(str, psz) == '-' {
        fNegative := true;
        psz := psz + 1;
      }
      ghost var u := if fNegative then t[1..] else t;
      assert u == str[psz..] && At(u, 0) == At(str, psz) && At(u, 1) == At(str, psz + 1);
      if At(str, psz) == '0' && (At(str, psz + 1) == 'x' || At(str, psz + 1) == 'X') {
        psz := psz + 2;
        assert str[psz..] == u[2..];
      }
      psz := SkipSpaces(str, psz);
      ReadDigits(str, psz);
      if fNegative {
        bn := 0 - bn;
      }
    }

    /** The digits, up to the first character that is none. */
    method ReadDigits(str: string, from: nat)
      requires from <= |str|
      modifies this
      ensures bn == Number(16, Values(HexRun(str[from..])))
    {
      hide IsHexDigit, HexDigit, Number, Values, HexRun;
      var psz := from;
      ghost var text := str[from..];
      bn := 0;
      NoDigits();
      assert text[..0] == "" && "" + HexRun(text) == HexRun(text);
      while psz < |str| && IsHexDigit(str[psz])
        invariant from <= psz <= |str|
        invariant HexRun(text) == text[..psz - from] + HexRun(str[psz..])
        invariant bn == Number(16, Values(text[..psz - from]))
      {
        ghost var k := psz - from;
        HexRunStep(text, k);
        assert str[psz..] == text[k..] && str[psz + 1..] == text[k + 1..];
        ValuesPush(text[..k], str[psz]);
        NumberPush(16, Values(text[..k]), HexDigit(str[psz]));
        bn := bn * 16;
        bn := bn + HexDigit(str[psz]);
        psz := psz + 1;
      }
      HexRunEnds(str[psz..]);
      assert text[..psz - from] + "" == text[..psz - from];
    }

    /** `while (isspace(*psz)) psz++;` */
    static method SkipSpaces(str: string, from: nat) returns (psz: nat)
      requires from <= |str|
      ensures from <= psz <= |str| && AfterSpaces(str[from..]) == str[psz..]
      ensures psz < |str| ==> !IsSpace(str[psz])
    {
      psz := from;
      while psz < |str| && IsSpace(str[psz])
        invariant from <= psz <= |str|
        invariant AfterSpaces(str[psz..]) == AfterSpaces(str[from..])
      {
        assert str[psz..][1..] == str[psz + 1..];
        psz := psz + 1;
      }
    }

    /** The number in a base, a minus sign in front of a negative one. */
    method ToString(nBase: nat) returns (str: string)
      requires 2 <= nBase <= 16
      ensures str == Text(bn, nBase)
    {
      hide Number, Digits, Glyphs;
      str := "";
      var n: nat := Magnitude(bn);
      if n == 0 {
        return "0";
      }
      ghost var digits := Digits(nBase, n);
      assert |Glyphs(digits[|digits|..])| == 0;
      while n > 0
        invariant Digits(nBase, n) <= digits
        invariant Reversed(str) == Glyphs(digits[|Digits(nBase, n)|..])
        decreases n
      {
        LastDigit(nBase, n);
        var dv, c := n / nBase, n % nBase;
        GlyphsStep(digits, Digits(nBase, dv), c);
        str := str + [GLYPHS[c]];
        n := dv;
      }
      ghost var unsigned := str;
      if bn < 0 {
        str := str + "-";
      }
      assert Reversed(str) == (if bn < 0 then "-" else "") + Reversed(unsigned);
      str := Reversed(str);
    }
  }

  // ---- text ----

  const GLYPHS: string := "0123456789abcdef"

  function Glyphs(ds: seq<nat>): (r: string)
    requires DigitsOf(16, ds)
    ensures |r| == |ds|
  {
    seq(|ds|, i requires 0 <= i < |ds| => GLYPHS[ds[i]])
  }

  lemma LastDigit(b: nat, n: nat)
    requires b > 1 && n > 0
    ensures Digits(b, n) == Digits(b, n / b) + [n % b] && n / b < n && n % b < b
  {
    Shrinks(b, n);
  }

  lemma GlyphsStep(digits: seq<nat>, front: seq<nat>, c: nat)
    requires DigitsOf(16, digits) && c < 16 && front + [c] <= digits
    ensures front <= digits && Glyphs(digits[|front|..]) == [GLYPHS[c]] + Glyphs(digits[|front| + 1..])
  {
    assert digits[|front|] == (front + [c])[|front|];
    assert digits[|front|..] == [c] + digits[|front| + 1..];
  }

  function Text(v: int, base: nat): string
    requires 2 <= base <= 16
  {
    if v == 0 then "0" else (if v < 0 then "-" else "") + Glyphs(Digits(base, Magnitude(v)))
  }

  /** The character a pointer into a C string sees; the end reads as a zero. */
  function At(s: string, i: nat): char { if i < |s| then s[i] else '\0' }

  predicate IsSpace(c: char) { c == ' ' || '\t' <= c <= '\r' }

  predicate IsHexDigit(c: char) { '0' <= c <= '9' || 'a' <= c <= 'f' || 'A' <= c <= 'F' }

  /** `phexdigit`. */
  function HexDigit(c: char): (d: nat)
    ensures d < 16
  {
    if '0' <= c <= '9' then c as int - '0' as int
    else if 'a' <= c <= 'f' then c as int - 'a' as int + 10
    else if 'A' <= c <= 'F' then c as int - 'A' as int + 10
    else 0
  }

  function AfterSpaces(s: string): string {
    if s != "" && IsSpace(s[0]) then AfterSpaces(s[1..]) else s
  }

  function HexRun(s: string): string {
    if s != "" && IsHexDigit(s[0]) then [s[0]] + HexRun(s[1..]) else ""
  }

  function Values(s: string): (ds: seq<nat>)
    ensures |ds| == |s| && DigitsOf(16, ds)
  {
    seq(|s|, i requires 0 <= i < |s| => HexDigit(s[i]))
  }

  lemma NoDigits()
    ensures Number(16, Values("")) == 0
  {
    assert Values("") == [];
  }

  lemma HexRunEnds(text: string)
    requires text == "" || !IsHexDigit(text[0])
    ensures HexRun(text) == ""
  {
  }

  /** One more digit of a run. */
  lemma HexRunStep(text: string, k: nat)
    requires k < |text| && IsHexDigit(text[k])
    ensures text[..k] + HexRun(text[k..]) == text[..k + 1] + HexRun(text[k + 1..])
    ensures text[..k + 1] == text[..k] + [text[k]]
  {
    assert text[k..][1..] == text[k + 1..];
    assert HexRun(text[k..]) == [text[k]] + HexRun(text[k + 1..]);
  }

  lemma ValuesPush(s: string, c: char)
    ensures Values(s + [c]) == Values(s) + [HexDigit(c)]
  {
  }

  /** What a hexadecimal text stands for. */
  function HexValue(s: string): int {
    var t := AfterSpaces(s);
    var negative := At(t, 0) == '-';
    var u := if negative then t[1..] else t;
    var prefixed := At(u, 0) == '0' && (At(u, 1) == 'x' || At(u, 1) == 'X');
    var m: int := Number(16, Values(HexRun(AfterSpaces(if prefixed then u[2..] else u))));
    if negative then -m else m
  }

  lemma ShiftedSize(n: nat)
    ensures n * 0x100_0000 % 0x1_0000_0000 == n % 0x100 * 0x100_0000
  {
    Recomposed(n, 0x100);
    Divided(0x1_0000_0000, n * 0x100_0000, n / 0x100, n % 0x100 * 0x100_0000);
  }

  lemma CompactBodyAt(c: Word)
    ensures |CompactBody(c)| == c / 0x100_0000 < 0x100
    ensures var body := CompactBody(c);
      && (|body| >= 1 ==> body[0] == c / 0x1_0000 % 0x100)
      && (|body| >= 2 ==> body[1] == c / 0x100 % 0x100)
      && (|body| >= 3 ==> body[2] == c % 0x100)
      && (forall i :: 3 <= i < |body| ==> body[i] == 0)
  {
    var m := Mantissa(c);
    assert m[0] == c / 0x1_0000 % 0x100 && m[1] == c / 0x100 % 0x100 && m[2] == c % 0x100;
  }

  lemma SmallHeader(n: Octet)
    ensures Header(n) == [0, 0, 0, n]
  {
  }

  /** A body without its sign bit. */
  function Unsigned(body: seq<Octet>): seq<Octet> {
    if body == [] then [] else [body[0] % 0x80] + body[1..]
  }

  lemma UnsignedNumber(v: int)
    ensures Number(0x100, Unsigned(Body(v))) == Magnitude(v)
  {
    hide Number, Body;
    ValueOfBody(v);
    var body := Body(v);
    if body != [] {
      ValueOfBytes(body, Unsigned(body));
    } else {
      EmptyBody(v);
      assert Nothing(0) == [];
      NumberOfNothing(0x100, 0);
    }
  }

  lemma EmptyBody(v: int)
    ensures Body(v) == [] <==> v == 0
  {
  }

  /** The last 32 bytes of a number, filled up with zeros. */
  lemma LowBytes(m: seq<Octet>, low: seq<Octet>, k: nat)
    requires |low| == 32 && k <= 32 && k <= |m| && (k < 32 ==> k == |m|)
    requires low[32 - k..] == m[|m| - k..] && forall j :: 0 <= j < 32 - k ==> low[j] == 0
    ensures Number(0x100, low) == Number(0x100, m) % Pow(0x100, 32)
  {
    hide Number, Pow;
    OctetsAreDigits(low);
    NumberBound(0x100, low);
    assert low == Nothing(32 - k) + m[|m| - k..];
    LeadingZeros(0x100, 32 - k, m[|m| - k..]);
    if k < 32 {
      assert m[|m| - k..] == m;
      Divided(Pow(0x100, 32), Number(0x100, m), 0, Number(0x100, m));
    } else {
      assert m == m[..|m| - 32] + low && low == m[|m| - 32..];
      NumberJoin(0x100, m[..|m| - 32], low);
      Divided(Pow(0x100, 32), Number(0x100, m), Number(0x100, m[..|m| - 32]), Number(0x100, low));
    }
  }

  /** Reading back what was written as bytes: the number returns exactly when an `int` can measure them. */
  lemma VchReturns(v: int)
    ensures ReadVch(Reversed(Body(v)), 0) == v <==> |Body(v)| + 4 < INT_LIMIT
  {
    hide Value, Body;
    var body := Body(v);
    ReversedTwice(body);
    EmptyBody(v);
    if |body| + 4 < INT_LIMIT {
      HeldWhole(body);
      ValueOfBody(v);
    } else {
      var len := |body| % LENGTH_LIMIT;
      Recomposed(|body|, LENGTH_LIMIT);
      if len + 4 < INT_LIMIT {
        NotLonger(body[..len]);
      }
    }
  }

  /** `setvch` of `getvch`. */
  method VchRoundTrip(x: CBigNum) returns (y: CBigNum)
    ensures fresh(y) && x.bn == old(x.bn)
    ensures y.bn == x.bn <==> |Body(x.bn)| + 4 < INT_LIMIT
  {
    hide Body, ReadVch;
    var vch := x.getvch();
    y := new CBigNum(0);
    y.setvch(vch);
    VchReturns(x.bn);
  }

  lemma NothingStripped(negative: bool)
    ensures Stripped([]) == [] && Signed(negative, []) == []
  {
  }

  lemma SignedSize(negative: bool, ds: seq<Octet>)
    ensures |Signed(negative, Stripped(ds))| <= |ds| + 1
  {
  }

  lemma DigitsOfFixed(n: nat, k: nat)
    requires n < Pow(0x100, k)
    ensures Stripped(Fixed(n, k)) == Octets(n)
  {
    hide Number, Digits, Zeros;
    NumberOfFixed(n, k);
    OctetsAreDigits(Fixed(n, k));
    DigitsStrip(0x100, Fixed(n, k));
  }

  lemma GlyphReads(d: nat)
    requires d < 16
    ensures IsHexDigit(GLYPHS[d]) && HexDigit(GLYPHS[d]) == d
    ensures !IsSpace(GLYPHS[d]) && GLYPHS[d] !in "xX-"
  {
    match d
    case 0 => case 1 => case 2 => case 3 => case 4 => case 5 => case 6 => case 7 =>
    case 8 => case 9 => case 10 => case 11 => case 12 => case 13 => case 14 => case _ =>
  }

  lemma {:induction false} GlyphsRun(ds: seq<nat>)
    requires DigitsOf(16, ds)
    ensures HexRun(Glyphs(ds)) == Glyphs(ds)
  {
    hide IsHexDigit;
    if ds != [] {
      GlyphReads(ds[0]);
      GlyphsRun(ds[1..]);
      assert Glyphs(ds)[1..] == Glyphs(ds[1..]);
    }
  }

  lemma GlyphsRead(ds: seq<nat>)
    requires DigitsOf(16, ds)
    ensures Values(Glyphs(ds)) == ds
  {
    hide HexDigit, IsHexDigit, IsSpace;
    forall i | 0 <= i < |ds| ensures Values(Glyphs(ds))[i] == ds[i] {
      GlyphReads(ds[i]);
    }
  }

  /** The digits of a number, read as hexadecimal text. */
  lemma PlainHex(ds: seq<nat>)
    requires DigitsOf(16, ds) && ds != []
    ensures HexValue(Glyphs(ds)) == Number(16, ds) && HexValue("-" + Glyphs(ds)) == 0 - Number(16, ds)
  {
    hide HexDigit, IsHexDigit, IsSpace, Number, Values, HexRun, Glyphs;
    var s := Glyphs(ds);
    GlyphsRun(ds);
    GlyphsRead(ds);
    FirstGlyphs(ds);
    MinusNoSpace();
    assert ("-" + s)[1..] == s;
  }

  lemma MinusNoSpace()
    ensures !IsSpace('-')
  {
  }

  lemma FirstGlyphs(ds: seq<nat>)
    requires DigitsOf(16, ds) && ds != []
    ensures var s := Glyphs(ds); s != "" && !IsSpace(s[0]) && s[0] != '-' && At(s, 1) != 'x' && At(s, 1) != 'X'
  {
    hide HexDigit, IsHexDigit, IsSpace;
    GlyphReads(ds[0]);
    if |ds| > 1 {
      GlyphReads(ds[1]);
    }
  }

  /** Reading the hexadecimal text of any number gives the number. */
  lemma HexRoundTrip(v: int)
    ensures HexValue(Text(v, 16)) == v
  {
    hide HexValue, Number, Digits;
    if v == 0 {
      assert Glyphs([0]) == "0";
      PlainHex([0]);
      NumberPush(16, [], 0);
      assert [] + [0] == [0];
      NumberOfNothing(16, 0);
      assert Nothing(0) == [];
    } else {
      var s := Glyphs(Digits(16, Magnitude(v)));
      assert "" + s == s;
      PlainHex(Digits(16, Magnitude(v)));
      NumberOfDigits(16, Magnitude(v));
    }
  }
}
