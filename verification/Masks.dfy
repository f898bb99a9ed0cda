/** Bitwise and on natural numbers, and the masks that powers of two make. */
module Masks {
  import opened Division
  import opened Numerals

  /** The `&` operator. */
  function And(x: nat, y: nat): (r: nat) {
    if x == 0 then 0 else (if x % 2 == 1 && y % 2 == 1 then 1 else 0) + 2 * And(x / 2, y / 2)
  }

  lemma {:induction false} AndSelf(x: nat)
    ensures And(x, x) == x
  {
    if x > 0 {
      AndSelf(x / 2);
    }
  }

  /** `n & (n - 1)` is zero only for powers of two. */
  lemma {:induction false} PowerOfTwo(n: nat) returns (k: nat)
    requires n > 0 && And(n, n - 1) == 0
    ensures n == Pow(2, k)
  {
    if n == 1 {
      k := 0;
    } else if n % 2 == 0 {
      assert (n - 1) / 2 == n / 2 - 1;
      k := PowerOfTwo(n / 2);
      k := k + 1;
    } else {
      assert (n - 1) / 2 == n / 2;
      AndSelf(n / 2);
      assert false;
    }
  }

  /** The `k` low bits. */
  function Low(x: nat, k: nat): nat { x % Pow(2, k) }

  lemma Halves(x: nat, j: nat)
    requires j > 0
    ensures Low(x, j) == 2 * Low(x / 2, j - 1) + x % 2 && Pow(2, j) == 2 * Pow(2, j - 1)
  {
    var p := Pow(2, j - 1);
    var q, r := x / 2 / p, x / 2 % p;
    Recomposed(x / 2, p);
    assert x == q * (2 * p) + (2 * r + x % 2) by { Doubled(q, p, r, x); }
    Divided(2 * p, x, q, 2 * r + x % 2);
  }

  lemma Doubled(q: nat, p: nat, r: nat, x: nat)
    requires x / 2 == q * p + r
    ensures x == q * (2 * p) + (2 * r + x % 2)
  {
    assert q * (2 * p) == 2 * (q * p);
  }

  lemma LowNone(x: nat)
    ensures Low(x, 0) == 0 && Pow(2, 0) == 1
  {
  }

  lemma AndStep(x: nat, h: nat, b: nat)
    requires b < 2
    ensures And(x, 2 * h + b) == x % 2 * b + 2 * And(x / 2, h)
  {
    assert (2 * h + b) / 2 == h && (2 * h + b) % 2 == b;
  }

  /** The mask of the bits from `k` up to `j` takes the low bits off a number. */
  lemma {:induction false} Masked(x: nat, k: nat, j: nat)
    requires k <= j
    ensures Pow(2, k) <= Pow(2, j)
    ensures And(x, Pow(2, j) - Pow(2, k)) == Low(x, j) - Low(x, k)
    decreases j
  {
    hide And, Low, Pow;
    PowGrows(2, k, j);
    LowNone(x);
    if j == 0 {
      AndZero(x);
    } else if k == 0 {
      Halves(x, j);
      LowNone(x / 2);
      PowGrows(2, 0, j - 1);
      Masked(x / 2, 0, j - 1);
      AndStep(x, Pow(2, j - 1) - 1, 1);
    } else {
      Halves(x, j);
      Halves(x, k);
      PowGrows(2, k - 1, j - 1);
      Masked(x / 2, k - 1, j - 1);
      AndStep(x, Pow(2, j - 1) - Pow(2, k - 1), 0);
    }
  }

  lemma {:induction false} AndZero(x: nat)
    ensures And(x, 0) == 0
  {
    if x > 0 {
      AndZero(x / 2);
    }
  }
}
