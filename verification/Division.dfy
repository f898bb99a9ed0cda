/** Quotients and remainders of natural numbers. */
module Division {

  lemma Recomposed(x: nat, m: nat)
    requires m > 0
    ensures x / m * m + x % m == x
  {
  }

  lemma Product(a: int, m: nat)
    ensures a >= 1 ==> a * m >= m
    ensures a <= -1 ==> a * m + m <= 0
  {
  }

  /** Quotient and remainder are determined by what they make up. */
  lemma Divided(m: nat, x: nat, q: nat, r: nat)
    requires x == q * m + r && r < m
    ensures x / m == q && x % m == r
  {
    var d := q - x / m;
    assert d * m == q * m - x / m * m;
    Product(d, m);
  }

  lemma LowPart(m: nat, c: nat, more: nat)
    requires m > 0 && c % m + more < m
    ensures (c + more) % m == c % m + more && (c + more) / m == c / m
  {
    Divided(m, c + more, c / m, c % m + more);
  }

  lemma HighPart(m: nat, c: nat, more: nat)
    requires m > 0 && more < m <= c % m + more
    ensures (c + more) % m == c % m + more - m && (c + more) / m == c / m + 1
  {
    assert (c / m + 1) * m == c / m * m + m;
    Divided(m, c + more, c / m + 1, c % m + more - m);
  }

  lemma Carry(m: nat, q: nat)
    requires m > 1
    ensures (q % m + 1) % m == (q + 1) % m
  {
    if q % m + 1 < m {
      LowPart(m, q, 1);
      BelowModulus(m, q % m + 1);
    } else {
      HighPart(m, q, 1);
      Divided(m, m, 1, 0);
    }
  }

  /** The residue of a multiple, the modulus being a multiple too. */
  lemma MultipleResidue(b: nat, q: nat, r: nat)
    requires b > 0 && r > 0
    ensures r * b > 0 && (q * b) % (r * b) == (q % r) * b && (q % r) * b + b <= r * b
    ensures (q % r) * b % b == 0
  {
    Recomposed(q, r);
    Product(r, b);
    Product(r - q % r, b);
    assert (r - q % r) * b == r * b - (q % r) * b;
    assert q * b == (q / r) * (r * b) + (q % r) * b by { Regrouped(q / r, r, q % r, b); }
    Divided(r * b, q * b, q / r, (q % r) * b);
    Divided(b, (q % r) * b, q % r, 0);
  }

  lemma Regrouped(d: nat, r: nat, m: nat, b: nat)
    ensures (d * r + m) * b == d * (r * b) + m * b
  {
  }

  lemma BelowModulus(m: nat, x: nat)
    requires x < m
    ensures x % m == x && x / m == 0
  {
    Divided(m, x, 0, x);
  }

  /** Taking one back and carrying one again. */
  lemma Borrow(m: nat, x: nat)
    requires m > 1 && x < m
    ensures ((x + m - 1) % m + 1) % m == x
  {
    if x > 0 {
      Divided(m, x + m - 1, 1, x - 1);
      BelowModulus(m, x);
    } else {
      BelowModulus(m, m - 1);
      Divided(m, m, 1, 0);
    }
  }
}
