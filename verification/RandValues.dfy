/**
 The values that rand of lab8/libs/rand.c hands out: which bits of the state they depend on, and how often each of
 them occurs over a period.
 */
module RandValues {
  import opened Modular
  import opened Rand

  /** The low 12 bits of the state do not matter. */
  lemma LowBitsIgnored(x: nat, y: nat)
    requires x / 4096 == y / 4096
    ensures Output(x) == Output(y)
  {
  }

  /** Counting the rest of the state up goes through the values from 1 to 2^31 - 1 and round again. */
  lemma OutputSteps(x: nat)
    ensures Output(0) == 1
    ensures Output(x + 4096) == if Output(x) == 2147483647 then 1 else Output(x) + 1
  {
    var h := x / 4096;
    assert (x + 4096) / 4096 == h + 1;
    StepOfRemainder(h);
  }

  lemma StepOfRemainder(h: nat)
    ensures (h + 1) % 2147483647 == if h % 2147483647 == 2147483646 then 0 else h % 2147483647 + 1
  {
    var r := h % 2147483647;
    assert h == h / 2147483647 * 2147483647 + r;
    if r == 2147483646 {
      ModOfMultiple(0, h / 2147483647 + 1, 2147483647);
    } else {
      ModOfMultiple(r + 1, h / 2147483647, 2147483647);
    }
  }

  /** The first call in a program. */
  method FirstValue() returns (r: nat, next: nat)
    ensures r == 6155983 && next == 25214903928
  {
    var g := new Generator();
    assert State(1, 0) == 1;
    assert State(1, 1) == 25214903928;
    r := g.Rand();
    next := g.next;
  }

  // ----- how many states give a value

  /** How many of the numbers below `h` are `q` modulo `m`. */
  function Residues(h: nat, m: nat, q: nat): nat
    requires m > 0
  {
    if h == 0 then 0 else Residues(h - 1, m, q) + if (h - 1) % m == q then 1 else 0
  }

  lemma RemainderBehind(b: nat, m: nat, t: nat)
    requires m > 0 && t < m && b % m == 0
    ensures (b + t) % m == t
  {
    var k := b / m;
    assert b == k * m;
    ModOfMultiple(t, k, m);
    ModOfSmall(t, m);
  }

  lemma {:induction false} ResiduesWithin(b: nat, m: nat, t: nat, q: nat)
    requires m > 0 && t <= m && q < m && b % m == 0
    ensures Residues(b + t, m, q) == Residues(b, m, q) + if q < t then 1 else 0
    decreases t
  {
    if t == 0 {
    } else {
      ResiduesWithin(b, m, t - 1, q);
      RemainderBehind(b, m, t - 1);
    }
  }

  lemma {:induction false} MultipleHasNoRemainder(m: nat, k: nat)
    requires m > 0
    ensures Mul(m, k) % m == 0
  {
    MulIsProduct(m, k);
    ModOfMultiple(0, k, m);
  }

  lemma {:induction false} ResiduesOfMultiple(m: nat, k: nat, q: nat)
    requires m > 0 && q < m
    ensures Residues(Mul(m, k), m, q) == k
    decreases k
  {
    hide Residues;
    if k == 0 {
      NoResidues(m, q);
    } else {
      ResiduesOfMultiple(m, k - 1, q);
      MultipleHasNoRemainder(m, k - 1);
      ResiduesWithin(Mul(m, k - 1), m, m, q);
      assert Mul(m, k) == Mul(m, k - 1) + m;
    }
  }

  lemma {:induction false} NoResidues(m: nat, q: nat)
    requires m > 0
    ensures Residues(0, m, q) == 0
  {
  }

  /** How many of the states below `n` give the value `r`. */
  function Hits(n: nat, r: nat): nat {
    if n == 0 then 0 else Hits(n - 1, r) + if Output(n - 1) == r then 1 else 0
  }

  lemma {:induction false} HitsWithin(h: nat, j: nat, r: nat)
    requires j <= 4096
    ensures Hits(4096 * h + j, r) == Hits(4096 * h, r) + if h % RAND_MAX + 1 == r then j else 0
    decreases j
  {
    if j == 0 {
    } else {
      HitsWithin(h, j - 1, r);
      assert (4096 * h + j - 1) / 4096 == h;
    }
  }

  lemma {:induction false} HitsOfBlocks(h: nat, r: nat)
    requires 1 <= r
    ensures Hits(4096 * h, r) == 4096 * Residues(h, RAND_MAX, r - 1)
  {
    if h == 0 {
    } else {
      HitsOfBlocks(h - 1, r);
      HitsWithin(h - 1, 4096, r);
    }
  }

  /** Of the 2^48 states, 33 * 4096 give each of the values up to 32, and 32 * 4096 each of the others. */
  lemma {:induction false} HitsOfAll(n: nat, r: nat)
    requires n == MASK_MODULUS && 1 <= r <= RAND_MAX
    ensures Hits(n, r) == 4096 * if r <= 32 then 33 else 32
  {
    hide Hits, Residues;
    var h, k := n / 4096, 32;
    assert n == 4096 * h && h == k * RAND_MAX + 32;
    HitsOfBlocks(h, r);
    ResiduesWithin(k * RAND_MAX, RAND_MAX, 32, r - 1);
    MulIsProduct(RAND_MAX, k);
    ResiduesOfMultiple(RAND_MAX, k, r - 1);
  }

  // ----- how many calls give a value

  ghost function Giving(s: set<nat>, r: nat): set<nat> {
    set v | v in s && Output(v) == r
  }

  lemma GivingMore(s: set<nat>, x: nat, r: nat)
    requires x !in s
    ensures |Giving(s + {x}, r)| == |Giving(s, r)| + if Output(x) == r then 1 else 0
  {
    hide Output;
    assert Giving(s + {x}, r) == if Output(x) == r then Giving(s, r) + {x} else Giving(s, r);
  }

  lemma {:induction false} GivingBelow(n: nat, r: nat)
    ensures |Giving(Below(n), r)| == Hits(n, r)
  {
    hide Output;
    if n == 0 {
    } else {
      GivingBelow(n - 1, r);
      GivingMore(Below(n - 1), n - 1, r);
    }
  }

  /** How many of the first `n` calls return `r`. */
  function Returned(seed: nat, n: nat, r: nat): nat {
    if n == 0 then 0 else Returned(seed, n - 1, r) + if Output(State(seed, n)) == r then 1 else 0
  }

  /** The states after the first `n` calls. */
  ghost function States(seed: nat, n: nat): set<nat> {
    if n == 0 then {} else States(seed, n - 1) + {State(seed, n)}
  }

  lemma {:induction false} StatesMember(seed: nat, n: nat, v: nat)
    ensures v in States(seed, n) ==> exists k :: 1 <= k <= n && State(seed, k) == v
  {
    hide State;
    if n == 0 || v == State(seed, n) {
    } else if v in States(seed, n) {
      StatesMember(seed, n - 1, v);
      var k :| 1 <= k <= n - 1 && State(seed, k) == v;
      assert 1 <= k <= n;
    }
  }

  lemma {:induction false} NextIsNew(seed: nat, n: nat)
    requires 1 <= n <= MASK_MODULUS
    ensures State(seed, n) !in States(seed, n - 1)
  {
    hide State;
    var v := State(seed, n);
    StatesMember(seed, n - 1, v);
    if v in States(seed, n - 1) {
      var k :| 1 <= k <= n - 1 && State(seed, k) == v;
      PeriodIsExact(seed, k, n);
      ModOfSmall(n - k, MASK_MODULUS);
    }
  }

  lemma {:induction false} ReturnedIsGiving(seed: nat, n: nat, r: nat)
    requires n <= MASK_MODULUS
    ensures Returned(seed, n, r) == |Giving(States(seed, n), r)| && |States(seed, n)| == n
  {
    hide State, Output, Giving;
    if n == 0 {
      NothingGives(r);
    } else {
      ReturnedIsGiving(seed, n - 1, r);
      NextIsNew(seed, n);
      GivingMore(States(seed, n - 1), State(seed, n), r);
    }
  }

  lemma NothingGives(r: nat)
    ensures Giving({}, r) == {}
  {
  }

  lemma {:induction false} StatesAreAll(seed: nat, n: nat)
    requires n == MASK_MODULUS
    ensures States(seed, n) == Below(n)
  {
    hide State, Output, States;
    ReturnedIsGiving(seed, n, 0);
    forall v | v in States(seed, n)
      ensures v in Below(n)
    {
      StatesMember(seed, n, v);
      var k :| 1 <= k <= n && State(seed, k) == v;
      StateIsSmall(seed, k);
    }
    SubsetOfSameSize(States(seed, n), Below(n));
  }

  lemma {:induction false} StateIsSmall(seed: nat, k: nat)
    requires k >= 1
    ensures State(seed, k) < MASK_MODULUS
  {
  }

  /** Over one period, from any seed, every value from 1 to 32 is returned 33 * 4096 times, and every other value up
      to RAND_MAX 32 * 4096 times. */
  lemma {:induction false} ValuesOfOnePeriod(seed: nat, n: nat, r: nat)
    requires n == MASK_MODULUS && 1 <= r <= RAND_MAX
    ensures Returned(seed, n, r) == 4096 * if r <= 32 then 33 else 32
  {
    hide State, Output, States, Giving, Returned, Hits;
    ReturnedIsGiving(seed, n, r);
    StatesAreAll(seed, n);
    GivingBelow(n, r);
    HitsOfAll(n, r);
  }
}
