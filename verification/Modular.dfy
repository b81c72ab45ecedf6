/** Powers of two and facts about remainders that the other modules share. */
module Modular {

  function Pow2(k: nat): (p: nat)
    ensures p >= 1
  {
    if k == 0 then 1 else 2 * Pow2(k - 1)
  }

  lemma ModOfMultiple(r: int, q: int, m: int)
    requires m > 0
    ensures (q * m + r) % m == r % m
  {
    var d := r / m;
    var e := r % m;
    assert q * m + r == (q + d) * m + e;
    var d', e' := (q * m + r) / m, (q * m + r) % m;
    assert (q + d) * m + e == d' * m + e';
    assert (q + d - d') * m == e' - e;
    NoSmallMultiple(q + d - d', m, e' - e);
  }

  lemma MulAtLeast(q: int, m: int)
    requires m > 0
    ensures q >= 1 ==> q * m >= m
  {
  }

  lemma NoSmallMultiple(q: int, m: int, r: int)
    requires m > 0 && q * m == r && -m < r < m
    ensures r == 0
  {
    MulAtLeast(q, m);
    MulAtLeast(-q, m);
  }

  lemma ModOfSmall(r: int, m: int)
    requires 0 <= r < m
    ensures r % m == r
  {
    var q, e := r / m, r % m;
    NoSmallMultiple(q, m, r - e);
  }

  /** The product as repeated addition: proofs that use it stay linear. */
  function Mul(a: nat, b: nat): nat {
    if b == 0 then 0 else a + Mul(a, b - 1)
  }

  lemma {:induction false} MulIsProduct(a: nat, b: nat)
    ensures Mul(a, b) == a * b
  {
    if b == 0 {
    } else {
      MulIsProduct(a, b - 1);
    }
  }

  lemma {:induction false} MulDistributes(a: nat, b: nat, c: nat)
    ensures Mul(a, b + c) == Mul(a, b) + Mul(a, c)
    decreases c
  {
    if c == 0 {
    } else {
      MulDistributes(a, b, c - 1);
    }
  }

  lemma {:induction false} MulDistributesLeft(a: nat, b: nat, c: nat)
    ensures Mul(a + b, c) == Mul(a, c) + Mul(b, c)
    decreases c
  {
    if c == 0 {
    } else {
      MulDistributesLeft(a, b, c - 1);
    }
  }

  lemma {:induction false} MulAssociates(a: nat, b: nat, c: nat)
    ensures Mul(a, Mul(b, c)) == Mul(Mul(a, b), c)
    decreases c
  {
    if c == 0 {
    } else {
      MulAssociates(a, b, c - 1);
      MulDistributes(a, b, Mul(b, c - 1));
    }
  }

  /** Division with remainder as repeated subtraction. */
  function Quotient(n: nat, m: nat): (q: nat)
    requires m > 0
    ensures n >= m >= 2 ==> q < n
  {
    if n < m then 0 else 1 + Quotient(n - m, m)
  }

  function Remainder(n: nat, m: nat): (r: nat)
    requires m > 0
    ensures r < m && r <= n
  {
    if n < m then n else Remainder(n - m, m)
  }

  lemma {:induction false} DivisionLaw(n: nat, m: nat)
    requires m > 0
    ensures Mul(m, Quotient(n, m)) + Remainder(n, m) == n
  {
    if n < m {
    } else {
      DivisionLaw(n - m, m);
    }
  }

  lemma {:induction false} QuotientByOne(n: nat)
    ensures Quotient(n, 1) == n
  {
    if n == 0 {
    } else {
      QuotientByOne(n - 1);
    }
  }

  lemma {:induction false} DivisionIs(n: nat, m: nat)
    requires m > 0
    ensures n / m == Quotient(n, m) && n % m == Remainder(n, m)
  {
    hide Quotient, Remainder, Mul;
    var q, r := Quotient(n, m), Remainder(n, m);
    DivisionLaw(n, m);
    MulIsProduct(m, q);
    ModOfMultiple(r, q, m);
    ModOfSmall(r, m);
    assert n == n / m * m + n % m;
    SameQuotient(n / m, q, m);
  }

  lemma SameQuotient(p: int, q: int, m: int)
    requires m > 0 && p * m == q * m
    ensures p == q
  {
    assert (p - q) * m == 0;
    if p > q {
      MulAtLeast(p - q, m);
    } else if p < q {
      MulAtLeast(q - p, m);
    }
  }
}
