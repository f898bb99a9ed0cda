/** The OpenSSL MPI layout of an integer: a length, then sign bit and magnitude, the highest byte first. */
module Mpi {
  import opened Division
  import opened Numerals

  type Octet = b: nat | b < 0x100

  /** What four bytes of a length hold, and what an `int` holds. */
  const LENGTH_LIMIT: nat := 0x1_0000_0000
  const INT_LIMIT: nat := 0x8000_0000

  lemma OctetsAreDigits(bs: seq<Octet>)
    ensures DigitsOf(0x100, bs)
  {
  }

  function Magnitude(v: int): nat { if v < 0 then -v else v }

  function Octets(m: nat): (bs: seq<Octet>)
    ensures bs == [] <==> m == 0
    ensures m > 0 ==> bs[0] > 0
    ensures bs == Digits(0x100, m)
  {
    Digits(0x100, m)
  }

  /** Put a sign bit on a magnitude; an extra byte makes room when its top bit is taken. */
  function Signed(negative: bool, m: seq<Octet>): (r: seq<Octet>)
  {
    if m == [] then []
    else if m[0] >= 0x80 then [if negative then 0x80 else 0] + m
    else [if negative then m[0] + 0x80 else m[0]] + m[1..]
  }

  /** What `BN_bn2mpi` writes after the length. */
  function Body(v: int): seq<Octet> { Signed(v < 0, Octets(Magnitude(v))) }

  /** What `BN_mpi2bn` reads there. A set sign bit on a zero magnitude reads as zero. */
  function Value(body: seq<Octet>): int {
    if body == [] then 0
    else
      var m: int := Number(0x100, [body[0] % 0x80] + body[1..]);
      if body[0] >= 0x80 then -m else m
  }

  /** Four bytes of a length, the highest first. */
  function Header(n: nat): (r: seq<Octet>)
    ensures |r| == 4
  {
    [n / 0x100_0000 % 0x100, n / 0x1_0000 % 0x100, n / 0x100 % 0x100, n % 0x100]
  }

  datatype Parsed = Good(value: int) | Bad

  /** `BN_bn2mpi`. */
  function Bn2mpi(v: int): seq<Octet> { Header(|Body(v)|) + Body(v) }

  function LengthIn(mpi: seq<Octet>): int
    requires |mpi| >= 4
  {
    (mpi[0] as int) * 0x100_0000 + (mpi[1] as int) * 0x1_0000 + (mpi[2] as int) * 0x100 + mpi[3]
  }

  /** A size that is passed as an `int`. */
  function AsInt(n: nat): (i: int)
    ensures i <= n
  {
    var r := n % LENGTH_LIMIT;
    if r < INT_LIMIT then r else r - LENGTH_LIMIT
  }

  /** `BN_mpi2bn` on the first `n` bytes. */
  function Mpi2bn(mpi: seq<Octet>, n: int): Parsed
    requires n <= |mpi|
  {
    if n < 4 then Bad
    else if LengthIn(mpi) + 4 != n then Bad
    else Good(Value(mpi[4..n]))
  }

  /** What a body with its own length in front reads as. Both the four bytes of the length and the `int` that the
      size is passed as cut the size to 32 bits. */
  function Held(body: seq<Octet>): Parsed {
    var len := |body| % LENGTH_LIMIT;
    if len + 4 < INT_LIMIT then Good(Value(body[..len])) else Bad
  }

  lemma FourBytes(n: nat)
    ensures n / 0x100_0000 % 0x100 * 0x100_0000 + n / 0x1_0000 % 0x100 * 0x1_0000 + n / 0x100 % 0x100 * 0x100
        + n % 0x100
         == n % LENGTH_LIMIT
  {
    var a, b, c := n / 0x100, n / 0x1_0000, n / 0x100_0000;
    assert a / 0x100 == b && b / 0x100 == c;
  }

  lemma HeaderReads(n: nat, body: seq<Octet>)
    ensures LengthIn(Header(n) + body) == n % LENGTH_LIMIT
  {
    FourBytes(n);
  }

  /** Adding the four bytes of the length wraps around together with it. */
  lemma Wraps(n: nat)
    ensures n % LENGTH_LIMIT <= n
    ensures AsInt(n + 4) == if n % LENGTH_LIMIT + 4 < INT_LIMIT then n % LENGTH_LIMIT + 4 else AsInt(n + 4)
    ensures AsInt(n + 4) >= 4 ==> (AsInt(n + 4) == n % LENGTH_LIMIT + 4 <==> n % LENGTH_LIMIT + 4 < INT_LIMIT)
    ensures n + 4 < INT_LIMIT ==> n % LENGTH_LIMIT == n
  {
    if n % LENGTH_LIMIT + 4 < LENGTH_LIMIT {
      LowPart(LENGTH_LIMIT, n, 4);
    } else {
      HighPart(LENGTH_LIMIT, n, 4);
    }
    Recomposed(n, LENGTH_LIMIT);
    if n < LENGTH_LIMIT { BelowModulus(LENGTH_LIMIT, n); }
  }

  lemma Framed(body: seq<Octet>)
    ensures Mpi2bn(Header(|body|) + body, AsInt(|body| + 4)) == Held(body)
  {
    hide Value, Header, AsInt, LengthIn;
    HeaderReads(|body|, body);
    Wraps(|body|);
    var len := |body| % LENGTH_LIMIT;
    if len + 4 < INT_LIMIT {
      assert (Header(|body|) + body)[4..len + 4] == body[..len];
    }
  }

  /** A body that an `int` can measure is read whole. */
  lemma HeldWhole(body: seq<Octet>)
    requires |body| + 4 < INT_LIMIT
    ensures Held(body) == Good(Value(body)) && AsInt(|body| + 4) == |body| + 4
  {
    hide Value;
    Wraps(|body|);
    assert body[..|body|] == body;
  }

  /** What a non-empty body reads as, in terms of its magnitude bytes. */
  lemma ValueOfBytes(body: seq<Octet>, m: seq<Octet>)
    requires body != [] && m != []
    requires m == [body[0] % 0x80] + body[1..] || (m == body[1..] && body[0] % 0x80 == 0)
    ensures Value(body) == if body[0] >= 0x80 then 0 - Number(0x100, m) else Number(0x100, m)
  {
    hide Number;
    if m == body[1..] && body[0] % 0x80 == 0 {
      assert [body[0] % 0x80] + body[1..] == Nothing(1) + m;
      LeadingZeros(0x100, 1, m);
    }
  }

  lemma ValueOfSigned(negative: bool, m: seq<Octet>)
    requires m != [] && m[0] > 0
    ensures Value(Signed(negative, m)) == if negative then 0 - Number(0x100, m) else Number(0x100, m)
  {
    hide Number, Value;
    var body := Signed(negative, m);
    if m[0] >= 0x80 {
      assert m == body[1..];
    } else {
      assert m == [body[0] % 0x80] + body[1..];
    }
    ValueOfBytes(body, m);
  }

  /** Reading what was written gives the number back. */
  lemma ValueOfBody(v: int)
    ensures Value(Body(v)) == v
  {
    hide Number, Digits;
    if v != 0 {
      ValueOfSigned(v < 0, Octets(Magnitude(v)));
    }
    NumberOfDigits(0x100, Magnitude(v));
  }

  /** No byte too many, and no negative zero. */
  predicate Shortest(body: seq<Octet>) {
    body == [] || body[0] % 0x80 > 0 || (|body| > 1 && body[1] >= 0x80)
  }

  lemma BodyShortest(v: int)
    ensures Shortest(Body(v))
  {
  }

  lemma ShortestReturns(body: seq<Octet>)
    requires body != [] && Shortest(body)
    ensures Body(Value(body)) == body
  {
    hide Number, Digits, Value;
    var m: seq<Octet> := if body[0] % 0x80 > 0 then [body[0] % 0x80] + body[1..] else body[1..];
    OctetsAreDigits(m);
    DigitsOfNumber(0x100, m);
    ValueOfBytes(body, m);
    assert Magnitude(Value(body)) == Number(0x100, m);
    assert Signed(body[0] >= 0x80, m) == body;
  }

  /** Writing what was read gives the bytes back, if and only if they were the shortest ones. */
  lemma BodyOfValue(body: seq<Octet>)
    ensures Body(Value(body)) == body <==> Shortest(body)
  {
    hide Number;
    BodyShortest(Value(body));
    if body != [] && Shortest(body) {
      ShortestReturns(body);
    }
  }

  /** A number and its opposite differ in the sign bit only. */
  lemma BodyOfOpposite(v: int)
    requires v > 0
    ensures |Body(-v)| == |Body(v)| && Body(-v)[0] == Body(v)[0] + 0x80 && Body(-v)[1..] == Body(v)[1..]
  {
  }
}
