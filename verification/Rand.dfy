/**
 The pseudo-random generator of lab8/libs/rand.c: a linear congruential generator
 whose state `next` is reduced to 48 bits by a mask.

 The main result is that the state runs through a single cycle: whatever the seed,
 the next 2^48 calls put `next` through every 48-bit value exactly once.  It is proved
 for every modulus 2^k, every multiplier congruent to 1 modulo 4 and every odd increment.
 */
module Rand {
  import opened Common
  import opened Modular

  const MULTIPLIER: nat := 0x5DEECE66D
  const INCREMENT: nat := 0xB
  const RAND_MAX: nat := 2147483647
  const MASK_MODULUS: nat := 0x1_0000_0000_0000

  /** The static variable `next` together with the two functions that update it. */
  class Generator {
    var next: nat

    constructor ()
      ensures next == 1
    {
      next := 1;
    }

    /** The product wraps at 64 bits before the mask is applied; `do_div` is a macro that does
        not parenthesise its second argument, so the remainder is taken modulo RAND_MAX and 1 is
        added afterwards. */
    method Rand() returns (r: nat)
      modifies this
      ensures next == State(old(next), 1)
      ensures r == Output(next) && 1 <= r <= RAND_MAX
    {
      var wrapped := (next * MULTIPLIER + INCREMENT) % WORD64;
      MaskOfWrapped(next * MULTIPLIER + INCREMENT);
      next := wrapped % MASK_MODULUS;
      var result := next / 4096;
      r := result % RAND_MAX + 1;
      assert State(old(next), 0) == old(next);
    }

    method Srand(seed: nat)
      requires seed < WORD32
      modifies this
      ensures next == seed
    {
      next := seed;
    }
  }

  /** The value handed to the caller when the state is `x`. */
  function Output(x: nat): nat {
    (x / 4096) % RAND_MAX + 1
  }

  /** The state after `n` calls from seed `x`. */
  function State(x: nat, n: nat): nat {
    if n == 0 then x else (MULTIPLIER * State(x, n - 1) + INCREMENT) % MASK_MODULUS
  }

  /** Masking to 48 bits is not affected by the earlier wrap-around at 64 bits. */
  lemma MaskOfWrapped(v: nat)
    ensures v % WORD64 % MASK_MODULUS == v % MASK_MODULUS
  {
    var q, w := v / WORD64, v % WORD64;
    assert v == (q * 65536) * MASK_MODULUS + w;
    ModOfMultiple(w, q * 65536, MASK_MODULUS);
  }

  // ----- arithmetic modulo 2^k

  function Pow(a: nat, n: nat): nat {
    if n == 0 then 1 else Mul(a, Pow(a, n - 1))
  }

  /** 1 + a + a^2 + ... + a^(n-1). */
  function Geometric(a: nat, n: nat): nat {
    if n == 0 then 0 else Geometric(a, n - 1) + Pow(a, n - 1)
  }

  /** The orbit of the generator without any reduction. */
  function Unreduced(a: nat, c: nat, x: nat, n: nat): nat {
    if n == 0 then x else Mul(a, Unreduced(a, c, x, n - 1)) + c
  }

  /** A product with an odd second factor has the parity of the first. */
  lemma {:induction false} MulByOdd(n: nat, odd: nat)
    requires odd % 2 == 1
    ensures Mul(n, odd) % 2 == n % 2
    ensures n % 2 == 0 ==> Mul(n, odd) / 2 == Mul(n / 2, odd)
    decreases odd
  {
    if odd != 1 {
      MulByOdd(n, odd - 2);
      assert Mul(n, odd) == 2 * n + Mul(n, odd - 2);
      assert Mul(n / 2, odd) == 2 * (n / 2) + Mul(n / 2, odd - 2);
    } else {
      assert Mul(n, 0) == 0 && Mul(n / 2, 0) == 0;
    }
  }

  /** 2^k divides n. */
  predicate Divides(k: nat, n: int) {
    k == 0 || (n % 2 == 0 && Divides(k - 1, n / 2))
  }

  lemma {:induction false} DividesIsRemainder(k: nat, n: int)
    ensures Divides(k, n) <==> n % Pow2(k) == 0
  {
    if k == 0 {
    } else {
      DividesIsRemainder(k - 1, n / 2);
      RemainderSplits(n, Pow2(k - 1));
    }
  }

  lemma RemainderSplits(n: int, m: int)
    requires m > 0
    ensures n % (2 * m) == 2 * (n / 2 % m) + n % 2
  {
    var h := n / 2;
    var q, r := h / m, h % m;
    assert n == q * (2 * m) + (2 * r + n % 2);
    ModOfMultiple(2 * r + n % 2, q, 2 * m);
    ModOfSmall(2 * r + n % 2, 2 * m);
  }

  /** Equal remainders mean a difference divisible by the modulus, and conversely. */
  lemma CongruentIffDivides(x: int, y: int, m: int)
    requires m > 0
    ensures x % m == y % m <==> (y - x) % m == 0
  {
    var qx, rx, qy, ry := x / m, x % m, y / m, y % m;
    assert y - x == (qy - qx) * m + (ry - rx);
    ModOfMultiple(ry - rx, qy - qx, m);
    var q := (ry - rx) / m;
    if (ry - rx) % m == 0 {
      NoSmallMultiple(q, m, ry - rx);
    }
  }

  // ----- the divisibility argument

  lemma AddModFour(a: nat, p: nat, b: nat)
    requires a % 4 == 1 && p % 4 == b % 4
    ensures (a + p) % 4 == (b + 1) % 4
  {
  }

  lemma {:induction false} MulModFour(a: nat, b: nat)
    requires a % 4 == 1
    ensures Mul(a, b) % 4 == b % 4
    decreases b
  {
    if b == 0 {
    } else {
      MulModFour(a, b - 1);
      AddModFour(a, Mul(a, b - 1), b - 1);
    }
  }

  lemma {:induction false} PowModFour(a: nat, n: nat)
    requires a % 4 == 1
    ensures Pow(a, n) % 4 == 1
  {
    if n == 0 {
    } else {
      PowModFour(a, n - 1);
      MulModFour(a, Pow(a, n - 1));
    }
  }

  lemma {:induction false} PowIsOdd(a: nat, n: nat)
    requires a % 4 == 1
    ensures Pow(a, n) % 2 == 1
  {
    hide Pow;
    PowModFour(a, n);
    OddModFour(Pow(a, n));
  }

  lemma OddModFour(p: nat)
    requires p % 4 == 1
    ensures p % 2 == 1
  {
  }

  lemma AddOdd(g: nat, p: nat, n: nat)
    requires g % 2 == n % 2 && p % 2 == 1
    ensures (g + p) % 2 == (n + 1) % 2
  {
  }

  lemma {:induction false} GeometricParity(a: nat, n: nat)
    requires a % 4 == 1
    ensures Geometric(a, n) % 2 == n % 2
  {
    if n == 0 {
    } else {
      GeometricParity(a, n - 1);
      PowIsOdd(a, n - 1);
      AddOdd(Geometric(a, n - 1), Pow(a, n - 1), n - 1);
    }
  }

  lemma {:induction false} PowAdds(a: nat, m: nat, n: nat)
    ensures Pow(a, m + n) == Mul(Pow(a, m), Pow(a, n))
    decreases m
  {
    if m == 0 {
      MulByOne(Pow(a, n));
    } else {
      PowAdds(a, m - 1, n);
      MulAssociates(a, Pow(a, m - 1), Pow(a, n));
    }
  }

  lemma {:induction false} MulByOne(b: nat)
    ensures Mul(1, b) == b
  {
    if b == 0 {
    } else {
      MulByOne(b - 1);
    }
  }

  lemma {:induction false} GeometricSum(a: nat, m: nat, n: nat)
    ensures Geometric(a, m + n) == Geometric(a, m) + Mul(Pow(a, m), Geometric(a, n))
    decreases n
  {
    if n == 0 {
    } else {
      GeometricSum(a, m, n - 1);
      PowAdds(a, m, n - 1);
      MulDistributes(Pow(a, m), Geometric(a, n - 1), Pow(a, n - 1));
      assert m + n - 1 == m + (n - 1);
    }
  }

  lemma {:induction false} MulOddDoubles(odd: nat, g: nat)
    requires odd >= 1
    ensures g + Mul(2 * odd - 1, g) == 2 * Mul(g, odd)
    decreases g
  {
    MulIsProduct(2 * odd - 1, g);
    MulIsProduct(g, odd);
  }

  lemma HalfOfSuccessor(p: nat) returns (odd: nat)
    requires p % 4 == 1
    ensures odd % 2 == 1 && p == 2 * odd - 1
  {
    odd := 2 * (p / 4) + 1;
  }

  lemma GeometricDoubles(a: nat, h: nat) returns (odd: nat)
    requires a % 4 == 1
    ensures odd % 2 == 1 && Geometric(a, 2 * h) == 2 * Mul(Geometric(a, h), odd)
  {
    GeometricSum(a, h, h);
    PowModFour(a, h);
    odd := HalfOfSuccessor(Pow(a, h));
    MulOddDoubles(odd, Geometric(a, h));
    assert h + h == 2 * h;
  }

  /** The heart of the period: 2^k divides the geometric sum exactly when it divides the number of
      its terms. */
  lemma {:induction false} GeometricDivisibility(a: nat, n: nat, k: nat)
    requires a % 4 == 1
    ensures Divides(k, Geometric(a, n)) <==> Divides(k, n)
    decreases k
  {
    if k == 0 {
    } else {
      GeometricParity(a, n);
      if n % 2 == 0 {
        var odd := GeometricDoubles(a, n / 2);
        GeometricDivisibility(a, n / 2, k - 1);
        OddFactorDrops(k - 1, Geometric(a, n / 2), odd);
      }
    }
  }

  /** An odd factor contributes nothing to divisibility by a power of two. */
  lemma {:induction false} OddFactorDrops(k: nat, n: nat, odd: nat)
    requires odd % 2 == 1
    ensures Divides(k, Mul(n, odd)) <==> Divides(k, n)
    decreases k
  {
    if k == 0 {
    } else {
      MulByOdd(n, odd);
      if n % 2 == 0 {
        OddFactorDrops(k - 1, n / 2, odd);
      }
    }
  }

  // ----- the orbit

  /** Consecutive positions of the unreduced orbit differ by a power of the multiplier times the
      first difference. */
  lemma {:induction false} UnreducedStep(a: nat, c: nat, x: nat, n: nat, w: nat)
    requires Mul(a, x) + c == x + w
    ensures Unreduced(a, c, x, n + 1) == Unreduced(a, c, x, n) + Mul(Pow(a, n), w)
  {
    if n == 0 {
      MulByOne(w);
      assert Unreduced(a, c, x, 1) == Mul(a, Unreduced(a, c, x, 0)) + c;
    } else {
      UnreducedStep(a, c, x, n - 1, w);
      var p := Pow(a, n - 1);
      MulDistributes(a, Unreduced(a, c, x, n - 1), Mul(p, w));
      MulAssociates(a, p, w);
    }
  }

  /** `n` steps move the unreduced orbit by a multiple of the geometric sum. */
  lemma {:induction false} UnreducedShift(a: nat, c: nat, x: nat, n: nat, w: nat)
    requires Mul(a, x) + c == x + w
    ensures Unreduced(a, c, x, n) == x + Mul(Geometric(a, n), w)
  {
    if n == 0 {
      MulIsProduct(0, w);
    } else {
      UnreducedShift(a, c, x, n - 1, w);
      UnreducedStep(a, c, x, n - 1, w);
      MulDistributesLeft(Geometric(a, n - 1), Pow(a, n - 1), w);
    }
  }

  /** Iterating the reduced step gives the reduced value of the unreduced orbit. */
  function Orbit(a: nat, c: nat, m: nat, x: nat, n: nat): nat
    requires m > 0
  {
    if n == 0 then x % m else (Mul(a, Orbit(a, c, m, x, n - 1)) + c) % m
  }

  lemma MulOfQuotient(a: nat, m: nat, q: nat, r: nat) returns (p: nat)
    ensures Mul(a, q * m + r) == p * m + Mul(a, r)
  {
    p := Mul(a, q);
    MulIsProduct(q, m);
    MulIsProduct(p, m);
    MulAssociates(a, q, m);
    MulDistributes(a, Mul(q, m), r);
  }

  lemma {:induction false} StepModulo(a: nat, c: nat, m: nat, u: nat)
    requires m > 0
    ensures (Mul(a, u % m) + c) % m == (Mul(a, u) + c) % m
  {
    var q, r := u / m, u % m;
    assert u == q * m + r;
    var p := MulOfQuotient(a, m, q, r);
    ModOfMultiple(Mul(a, r) + c, p, m);
  }

  lemma {:induction false} OrbitIsUnreduced(a: nat, c: nat, m: nat, x: nat, n: nat)
    requires m > 0
    ensures Orbit(a, c, m, x, n) == Unreduced(a, c, x, n) % m
  {
    if n == 0 {
    } else {
      OrbitIsUnreduced(a, c, m, x, n - 1);
      StepModulo(a, c, m, Unreduced(a, c, x, n - 1));
    }
  }

  lemma {:induction false} UnreducedCompose(a: nat, c: nat, x: nat, i: nat, d: nat)
    ensures Unreduced(a, c, x, i + d) == Unreduced(a, c, Unreduced(a, c, x, i), d)
  {
    if d == 0 {
    } else {
      UnreducedCompose(a, c, x, i, d - 1);
    }
  }

  lemma {:induction false} MulGrows(a: nat, y: nat)
    requires a >= 1
    ensures Mul(a, y) >= y
    decreases y
  {
    if y == 0 {
    } else {
      MulGrows(a, y - 1);
    }
  }

  lemma StepIsOdd(a: nat, c: nat, y: nat) returns (odd: nat)
    requires a % 4 == 1 && c % 2 == 1
    ensures Mul(a, y) + c == y + odd && odd % 2 == 1
  {
    MulModFour(a, y);
    MulGrows(a, y);
    odd := Mul(a, y) + c - y;
  }

  /** Two positions of the orbit coincide exactly when their distance is a multiple of 2^k. */
  lemma {:induction false} OrbitCoincides(a: nat, c: nat, k: nat, m: nat, x: nat, i: nat, j: nat)
    requires a % 4 == 1 && c % 2 == 1 && i <= j && m == Pow2(k)
    ensures Orbit(a, c, m, x, i) == Orbit(a, c, m, x, j) <==> (j - i) % m == 0
  {
    var y, d := Unreduced(a, c, x, i), j - i;
    OrbitIsUnreduced(a, c, m, x, i);
    OrbitIsUnreduced(a, c, m, x, j);
    UnreducedCompose(a, c, x, i, d);
    var odd := StepIsOdd(a, c, y);
    UnreducedShift(a, c, y, d, odd);
    CongruentIffDivides(y, Unreduced(a, c, y, d), m);
    OddFactorDrops(k, Geometric(a, d), odd);
    GeometricDivisibility(a, d, k);
    DividesIsRemainder(k, Mul(Geometric(a, d), odd));
    DividesIsRemainder(k, d);
  }

  // ----- from injective to exactly once

  ghost function Visited(a: nat, c: nat, m: nat, x: nat, n: nat): set<nat>
    requires m > 0
  {
    if n == 0 then {} else Visited(a, c, m, x, n - 1) + {Orbit(a, c, m, x, n - 1)}
  }

  lemma {:induction false} VisitedMember(a: nat, c: nat, m: nat, x: nat, n: nat, v: nat)
    requires m > 0
    ensures v in Visited(a, c, m, x, n) <==> exists i :: 0 <= i < n && Orbit(a, c, m, x, i) == v
  {
    if n == 0 {
    } else {
      VisitedMember(a, c, m, x, n - 1, v);
      assert Visited(a, c, m, x, n) == Visited(a, c, m, x, n - 1) + {Orbit(a, c, m, x, n - 1)};
      if v in Visited(a, c, m, x, n - 1) {
        var i :| 0 <= i < n - 1 && Orbit(a, c, m, x, i) == v;
        assert 0 <= i < n;
      }
    }
  }

  lemma {:induction false} VisitedSize(a: nat, c: nat, k: nat, x: nat, n: nat)
    requires a % 4 == 1 && c % 2 == 1 && n <= Pow2(k)
    ensures |Visited(a, c, Pow2(k), x, n)| == n
    decreases n
  {
    var m := Pow2(k);
    if n == 0 {
    } else {
      VisitedSize(a, c, k, x, n - 1);
      var last := Orbit(a, c, m, x, n - 1);
      forall i | 0 <= i < n - 1
        ensures Orbit(a, c, m, x, i) != last
      {
        OrbitCoincides(a, c, k, m, x, i, n - 1);
        ModOfSmall(n - 1 - i, m);
      }
      VisitedMember(a, c, m, x, n - 1, last);
    }
  }

  ghost function Below(m: nat): (s: set<nat>)
    ensures forall v: nat :: v in s <==> v < m
    ensures |s| == m
  {
    if m == 0 then {} else Below(m - 1) + {m - 1}
  }

  lemma SubsetOfSameSize<T>(s: set<T>, t: set<T>)
    requires s <= t && |s| == |t|
    ensures s == t
  {
    assert t == s + (t - s);
    assert |t| == |s| + |t - s|;
  }

  ghost predicate VisitedOnceWithin(a: nat, c: nat, m: nat, x: nat, v: nat)
    requires m > 0
  {
    exists i :: 0 <= i < m && Orbit(a, c, m, x, i) == v &&
                forall j :: 0 <= j < m && Orbit(a, c, m, x, j) == v ==> j == i
  }

  /** Full period for every power of two: the first 2^k positions of the orbit hit each residue
      exactly once. */
  lemma {:induction false} FullPeriodPow2(a: nat, c: nat, k: nat, x: nat, v: nat)
    requires a % 4 == 1 && c % 2 == 1 && v < Pow2(k)
    ensures VisitedOnceWithin(a, c, Pow2(k), x, v)
  {
    var m := Pow2(k);
    var s, all := Visited(a, c, m, x, m), Below(m);
    VisitedSize(a, c, k, x, m);
    forall w | w in s
      ensures w in all
    {
      VisitedMember(a, c, m, x, m, w);
    }
    SubsetOfSameSize(s, all);
    VisitedMember(a, c, m, x, m, v);
    var i :| 0 <= i < m && Orbit(a, c, m, x, i) == v;
    forall j | 0 <= j < m && Orbit(a, c, m, x, j) == v
      ensures j == i
    {
      var lo, hi := if i <= j then i else j, if i <= j then j else i;
      OrbitCoincides(a, c, k, m, x, lo, hi);
      if lo < hi {
        ModOfSmall(hi - lo, m);
      }
    }
  }

  // ----- the generator of the library

  lemma Pow2Of48()
    ensures Pow2(48) == MASK_MODULUS
  {
    assert Pow2(8) == 256;
    Pow2Adds(8, 8);
    Pow2Adds(16, 16);
    Pow2Adds(32, 16);
  }

  lemma {:induction false} Pow2Adds(i: nat, j: nat)
    ensures Pow2(i + j) == Pow2(i) * Pow2(j)
  {
    if i == 0 {
    } else {
      Pow2Adds(i - 1, j);
      assert 2 * (Pow2(i - 1) * Pow2(j)) == Pow2(i) * Pow2(j);
    }
  }

  /** After the first call the state is the orbit of that first state. */
  lemma {:induction false} StateIsOrbit(x: nat, n: nat)
    ensures State(x, n + 1) == Orbit(MULTIPLIER, INCREMENT, MASK_MODULUS, State(x, 1), n)
  {
    if n == 0 {
      assert State(x, 0) == x;
    } else {
      StateIsOrbit(x, n - 1);
      MulIsProduct(MULTIPLIER, State(x, n));
    }
  }

  ghost predicate ReachedExactlyOnce(seed: nat, v: nat) {
    exists n :: 1 <= n <= MASK_MODULUS && State(seed, n) == v &&
                forall j :: 1 <= j <= MASK_MODULUS && State(seed, j) == v ==> j == n
  }

  /** From every seed, 2^48 calls put `next` through every 48-bit value exactly once. */
  lemma FullPeriod(seed: nat, v: nat)
    requires v < MASK_MODULUS
    ensures ReachedExactlyOnce(seed, v)
  {
    Pow2Of48();
    var x := State(seed, 1);
    FullPeriodPow2(MULTIPLIER, INCREMENT, 48, x, v);
    var i :| 0 <= i < MASK_MODULUS && Orbit(MULTIPLIER, INCREMENT, MASK_MODULUS, x, i) == v &&
             forall j :: 0 <= j < MASK_MODULUS && Orbit(MULTIPLIER, INCREMENT, MASK_MODULUS, x, j) == v ==> j == i;
    StateIsOrbit(seed, i);
    forall j | 1 <= j <= MASK_MODULUS && State(seed, j) == v
      ensures j == i + 1
    {
      StateIsOrbit(seed, j - 1);
      assert Orbit(MULTIPLIER, INCREMENT, MASK_MODULUS, x, j - 1) == v;
    }
  }

  lemma {:induction false} LibraryOrbit(x: nat, i: nat, j: nat)
    requires i <= j
    ensures Orbit(MULTIPLIER, INCREMENT, MASK_MODULUS, x, i) == Orbit(MULTIPLIER, INCREMENT, MASK_MODULUS, x, j)
       <==> (j - i) % MASK_MODULUS == 0
  {
    Pow2Of48();
    OrbitCoincides(MULTIPLIER, INCREMENT, 48, MASK_MODULUS, x, i, j);
  }

  /** The state repeats exactly at multiples of 2^48 calls, never sooner. */
  lemma {:induction false} PeriodIsExact(seed: nat, i: nat, j: nat)
    requires 1 <= i <= j
    ensures State(seed, i) == State(seed, j) <==> (j - i) % MASK_MODULUS == 0
  {
    StateIsOrbit(seed, i - 1);
    StateIsOrbit(seed, j - 1);
    LibraryOrbit(State(seed, 1), i - 1, j - 1);
    assert (j - 1) - (i - 1) == j - i;
  }

  /** The values handed out over one period are exactly 1..RAND_MAX: the documented lower end of
      the range, 0, is never returned, and every other value of the range is. */
  lemma OutputsOfOnePeriod(seed: nat, r: nat)
    ensures (exists n :: 1 <= n <= MASK_MODULUS && Output(State(seed, n)) == r) <==> 1 <= r <= RAND_MAX
  {
    if 1 <= r <= RAND_MAX {
      var v := (r - 1) * 4096;
      FullPeriod(seed, v);
      var n :| 1 <= n <= MASK_MODULUS && State(seed, n) == v;
      assert Output(State(seed, n)) == r;
    }
  }
}
