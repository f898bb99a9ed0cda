/** Positional numerals, the highest digit first. */
module Numerals {
  import opened Division

  function Pow(b: nat, n: nat): (p: nat)
    requires b > 0
    ensures p > 0
  {
    if n == 0 then 1 else b * Pow(b, n - 1)
  }

  lemma {:induction false} PowSum(b: nat, m: nat, n: nat)
    requires b > 0
    ensures Pow(b, m + n) == Pow(b, m) * Pow(b, n)
  {
    if m > 0 {
      PowSum(b, m - 1, n);
    }
  }

  lemma {:induction false} PowGrows(b: nat, m: nat, n: nat)
    requires b > 0 && m <= n
    ensures Pow(b, m) <= Pow(b, n)
  {
    if m < n {
      PowGrows(b, m, n - 1);
    }
  }

  ghost predicate DigitsOf(b: nat, ds: seq<nat>) {
    forall i :: 0 <= i < |ds| ==> ds[i] < b
  }

  /** The number that digits stand for. */
  function Number(b: nat, ds: seq<nat>): nat {
    if ds == [] then 0 else Number(b, ds[..|ds| - 1]) * b + ds[|ds| - 1]
  }

  lemma Twice(q: nat, b: nat)
    requires b > 1
    ensures q * b >= q + q
  {
    assert q * b == q * 2 + q * (b - 2);
  }

  /** Taking off the last digit makes a number smaller, and leaves nothing of a single digit. */
  lemma Shrinks(b: nat, v: nat)
    requires b > 1 && v > 0
    ensures v / b < v && v % b < b
    ensures v / b == 0 ==> v % b == v
  {
    Recomposed(v, b);
    Twice(v / b, b);
  }

  /** The digits of a number, without leading zeros. */
  function Digits(b: nat, v: nat): (ds: seq<nat>)
    requires b > 1
    ensures DigitsOf(b, ds)
    ensures ds == [] <==> v == 0
    ensures v > 0 ==> ds[0] > 0
  {
    if v == 0 then []
    else
      Shrinks(b, v);
      var front := Digits(b, v / b);
      DigitBehind(b, front, v % b);
      front + [v % b]
  }

  lemma DigitBehind(b: nat, ds: seq<nat>, d: nat)
    requires DigitsOf(b, ds) && d < b && (ds == [] ==> d > 0) && (ds != [] ==> ds[0] > 0)
    ensures DigitsOf(b, ds + [d]) && (ds + [d])[0] > 0
  {
  }

  lemma NumberPush(b: nat, ds: seq<nat>, d: nat)
    ensures Number(b, ds + [d]) == Number(b, ds) * b + d
  {
    assert (ds + [d])[..|ds|] == ds;
  }

  lemma DigitsPush(b: nat, v: nat, d: nat)
    requires b > 1 && d < b && (v > 0 || d > 0)
    ensures Digits(b, v * b + d) == Digits(b, v) + [d]
  {
    Divided(b, v * b + d, v, d);
  }

  /** The digits of a number stand for it. */
  lemma {:induction false} NumberOfDigits(b: nat, v: nat)
    requires b > 1
    ensures Number(b, Digits(b, v)) == v
  {
    if v > 0 {
      hide Number;
      var q, r := v / b, v % b;
      Recomposed(v, b);
      Shrinks(b, v);
      NumberOfDigits(b, q);
      NumberPush(b, Digits(b, q), r);
    }
  }

  /** Without leading zeros, the number determines the digits. */
  lemma {:induction false} DigitsOfNumber(b: nat, ds: seq<nat>)
    requires b > 1 && DigitsOf(b, ds) && (ds != [] ==> ds[0] > 0)
    ensures Digits(b, Number(b, ds)) == ds
    ensures ds != [] ==> Number(b, ds) > 0
  {
    if ds != [] {
      var front := ds[..|ds| - 1];
      DigitsOfNumber(b, front);
      DigitsPush(b, Number(b, front), ds[|ds| - 1]);
      assert front + [ds[|ds| - 1]] == ds;
      Product(Number(b, front), b);
    }
  }

  lemma PowStep(b: nat, n: nat)
    requires b > 0
    ensures Pow(b, n) == if n == 0 then 1 else b * Pow(b, n - 1)
  {
  }

  lemma NoNumber(b: nat)
    ensures Number(b, []) == 0
  {
  }

  lemma {:induction false} NumberJoin(b: nat, ds: seq<nat>, es: seq<nat>)
    requires b > 0
    ensures Number(b, ds + es) == Number(b, ds) * Pow(b, |es|) + Number(b, es)
  {
    hide Number, Pow;
    PowStep(b, |es|);
    if es == [] {
      assert ds + es == ds;
      NoNumber(b);
    } else {
      var front, e := es[..|es| - 1], es[|es| - 1];
      assert front + [e] == es && ds + es == (ds + front) + [e];
      NumberJoin(b, ds, front);
      NumberPush(b, ds + front, e);
      NumberPush(b, front, e);
      Spread(Number(b, ds), Pow(b, |front|), Number(b, front), b);
    }
  }

  lemma Spread(x: nat, p: nat, y: nat, b: nat)
    ensures (x * p + y) * b == x * (b * p) + y * b
  {
  }

  lemma {:induction false} NumberBound(b: nat, ds: seq<nat>)
    requires b > 0 && DigitsOf(b, ds)
    ensures Number(b, ds) < Pow(b, |ds|)
  {
    if ds != [] {
      var front := ds[..|ds| - 1];
      NumberBound(b, front);
      Step(Number(b, front), Pow(b, |front|), b, ds[|ds| - 1]);
    }
  }

  lemma Step(x: nat, p: nat, b: nat, d: nat)
    requires x < p && d < b
    ensures x * b + d < b * p
  {
    assert (p - x) * b >= b by { Product(p - x, b); }
    assert (p - x) * b == p * b - x * b;
  }

  function Nothing(n: nat): (ds: seq<nat>)
    ensures |ds| == n
  {
    seq(n, _ => 0)
  }

  lemma {:induction false} NumberOfNothing(b: nat, n: nat)
    ensures Number(b, Nothing(n)) == 0
  {
    if n > 0 {
      NumberOfNothing(b, n - 1);
      assert Nothing(n)[..n - 1] == Nothing(n - 1);
    }
  }

  /** Zeros in front change nothing. */
  lemma LeadingZeros(b: nat, n: nat, ds: seq<nat>)
    requires b > 0
    ensures Number(b, Nothing(n) + ds) == Number(b, ds)
  {
    NumberJoin(b, Nothing(n), ds);
    NumberOfNothing(b, n);
  }

  /** How many zeros a list of digits starts with. */
  function Zeros(ds: seq<nat>): (z: nat)
    ensures z <= |ds| && ds[..z] == Nothing(z)
    ensures z < |ds| ==> ds[z] > 0
  {
    if ds == [] || ds[0] > 0 then 0
    else
      var z := Zeros(ds[1..]);
      assert ds[..z + 1] == [ds[0]] + ds[1..][..z];
      assert Nothing(z + 1) == [0] + Nothing(z);
      z + 1
  }

  /** The digits of what a list of digits stands for are the list without its leading zeros. */
  lemma DigitsStrip(b: nat, ds: seq<nat>)
    requires b > 1 && DigitsOf(b, ds)
    ensures Digits(b, Number(b, ds)) == ds[Zeros(ds)..]
    ensures ds == Nothing(Zeros(ds)) + ds[Zeros(ds)..]
  {
    var z := Zeros(ds);
    assert ds == Nothing(z) + ds[z..];
    LeadingZeros(b, z, ds[z..]);
    DigitsOfNumber(b, ds[z..]);
  }
}
