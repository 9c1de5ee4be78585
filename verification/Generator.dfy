/** The linear congruential generator behind uxRand. */
module Generator {
  import opened Words

  const MULTIPLIER: int := 0x015a4e35
  const INCREMENT: int := 1

  function Next(x: uint32): uint32 { Wrap32(MULTIPLIER * x + INCREMENT) }

  /** The generator state after n calls. */
  function After(n: nat, seed: uint32): uint32 {
    if n == 0 then seed else Next(After(n - 1, seed))
  }

  class Rand {
    var nextRand: uint32

    constructor (seed: uint32)
      ensures nextRand == seed
    {
      nextRand := seed;
    }

    method UxRand() returns (r: int)
      modifies this
      ensures nextRand == Next(old(nextRand)) == (22695477 * old(nextRand) + 1) % 0x1_0000_0000
      ensures r == nextRand / 65536 % 32768
    {
      nextRand := Wrap32(MULTIPLIER * nextRand + INCREMENT);
      r := nextRand / TWO16 % 0x8000;
    }

    /** A caller drawing n numbers leaves the state that After names. */
    method Draw(n: nat) returns (rs: seq<int>)
      modifies this
      ensures nextRand == After(n, old(nextRand))
      ensures |rs| == n
      ensures forall k :: 0 <= k < n ==> rs[k] == After(k + 1, old(nextRand)) / TWO16 % 0x8000
    {
      rs := [];
      for i := 0 to n
        invariant nextRand == After(i, old(nextRand))
        invariant |rs| == i
        invariant forall k :: 0 <= k < i ==> rs[k] == After(k + 1, old(nextRand)) / TWO16 % 0x8000
      {
        var r := UxRand();
        rs := rs + [r];
      }
    }
  }

  // ---- The unreduced sequence, where exact algebra is possible ----

  function Power(n: nat): nat { if n == 0 then 1 else MULTIPLIER * Power(n - 1) }

  /** 1 + a + ... + a^(n-1) for the multiplier a. */
  function Geometric(n: nat): nat { if n == 0 then 0 else MULTIPLIER * Geometric(n - 1) + 1 }

  function Times(d: int, q: int): int { d * q }

  ghost predicate Divides(d: int, x: int) { exists q :: x == Times(d, q) }

  lemma {:induction false} PowerGeometric(n: nat)
    ensures Power(n) == 1 + (MULTIPLIER - 1) * Geometric(n)
  {
    if n > 0 {
      PowerGeometric(n - 1);
    }
  }

  /** Powers of the multiplier stay 1 modulo 4. */
  lemma {:induction false} PowerResidue(n: nat) returns (q: nat)
    ensures Power(n) == 4 * q + 1
  {
    q := 0;
    if n > 0 {
      var r := PowerResidue(n - 1);
      q := MULTIPLIER * r + MULTIPLIER / 4;
    }
  }

  lemma {:induction false} GeometricParity(n: nat) returns (q: nat)
    ensures Geometric(n) == 2 * q + n % 2
  {
    q := 0;
    if n > 0 {
      var r := GeometricParity(n - 1);
      q := MULTIPLIER * r + if n % 2 == 1 then 0 else (MULTIPLIER + 1) / 2;
    }
  }

  lemma SumStep(a: int, s: int, p: int, g: int)
    ensures a * (s + p * g) + 1 == (a * s + 1) + (a * p) * g
  {
    assert a * (s + p * g) == a * s + a * (p * g);
    assert a * (p * g) == (a * p) * g;
  }

  lemma {:induction false} GeometricSum(m: nat, n: nat)
    ensures Geometric(m + n) == Geometric(m) + Power(m) * Geometric(n)
  {
    if m > 0 {
      GeometricSum(m - 1, n);
      assert Geometric(m - 1 + n) == Geometric(m + n - 1);
      SumStep(MULTIPLIER, Geometric(m - 1), Power(m - 1), Geometric(n));
    }
  }

  lemma EvenPart(d: int, h: int, x: int) returns (y: int)
    requires Divides(2 * d, (2 * h + 1) * x)
    ensures x == 2 * y
  {
    var q :| (2 * h + 1) * x == Times(2 * d, q);
    y := d * q - h * x;
    assert (2 * h + 1) * x == 2 * (h * x) + x;
    assert Times(2 * d, q) == 2 * (d * q);
  }

  lemma Reassociate(a: int, b: int, c: int)
    ensures a * (b * c) == b * (a * c)
  {
  }

  lemma CancelTwo(d: int, y: int)
    ensures Divides(2 * d, 2 * y) <==> Divides(d, y)
  {
    if Divides(2 * d, 2 * y) {
      var q :| 2 * y == Times(2 * d, q);
      assert Times(2 * d, q) == 2 * (d * q);
      assert y == Times(d, q);
    }
    if Divides(d, y) {
      var q :| y == Times(d, q);
      assert Times(2 * d, q) == 2 * (d * q);
    }
  }

  /** An odd factor does not change divisibility by a power of two. */
  lemma {:induction false} OddFactor(k: nat, h: int, x: int)
    ensures Divides(Pow2(k), (2 * h + 1) * x) <==> Divides(Pow2(k), x)
  {
    var odd := 2 * h + 1;
    if k == 0 {
      assert x == Times(1, x) && odd * x == Times(1, odd * x);
    } else {
      var d := Pow2(k - 1);
      if Divides(2 * d, x) {
        var q :| x == Times(2 * d, q);
        assert odd * x == Times(2 * d, odd * q) by { Reassociate(odd, 2 * d, q); }
      }
      if Divides(2 * d, odd * x) {
        var y := EvenPart(d, h, x);
        Reassociate(odd, 2, y);
        CancelTwo(d, odd * y);
        OddFactor(k - 1, h, y);
        CancelTwo(d, y);
      }
    }
  }

  lemma HalveDivisor(d: int, x: int)
    requires Divides(2 * d, x)
    ensures x % 2 == 0
  {
    var q :| x == Times(2 * d, q);
    assert x == 2 * (d * q);
  }

  lemma DoubleOdd(h: int, g: int)
    ensures g + (4 * h + 1) * g == 2 * ((2 * h + 1) * g)
  {
    assert (4 * h + 1) * g == 4 * (h * g) + g;
    assert (2 * h + 1) * g == 2 * (h * g) + g;
  }

  lemma GeometricDoubles(j: nat) returns (h: nat)
    ensures Geometric(2 * j) == 2 * ((2 * h + 1) * Geometric(j))
  {
    GeometricSum(j, j);
    h := PowerResidue(j);
    DoubleOdd(h, Geometric(j));
  }

  /** The heart of the full-period theorem: because the multiplier is 1
      modulo 4, the geometric sum carries exactly the powers of two of n. */
  lemma {:induction false} GeometricDivisible(k: nat, n: nat)
    ensures Divides(Pow2(k), Geometric(n)) <==> Divides(Pow2(k), n)
    decreases k
  {
    if k == 0 {
      assert n == Times(1, n) && Geometric(n) == Times(1, Geometric(n));
    } else {
      var d := Pow2(k - 1);
      var half := GeometricParity(n);
      if n % 2 == 1 {
        if Divides(2 * d, Geometric(n)) { HalveDivisor(d, Geometric(n)); }
        if Divides(2 * d, n) { HalveDivisor(d, n); }
      } else {
        var j := n / 2;
        var h := GeometricDoubles(j);
        CancelTwo(d, (2 * h + 1) * Geometric(j));
        OddFactor(k - 1, h, Geometric(j));
        GeometricDivisible(k - 1, j);
        CancelTwo(d, j);
      }
    }
  }

  // ---- Back to the 32-bit state ----

  /** The exact displacement after n calls, before reduction modulo 2^32. */
  function Displacement(n: nat, x: int): int { ((MULTIPLIER - 1) * x + 1) * Geometric(n) }

  lemma DisplacementStep(n: nat, x: int)
    requires n > 0
    ensures Displacement(n, x) == MULTIPLIER * Displacement(n - 1, x) + (MULTIPLIER - 1) * x + 1
  {
    var u, g := (MULTIPLIER - 1) * x + 1, Geometric(n - 1);
    assert u * (MULTIPLIER * g + 1) == u * (MULTIPLIER * g) + u;
    Reassociate(u, MULTIPLIER, g);
  }

  lemma {:induction false} AfterIsDisplaced(n: nat, seed: uint32) returns (q: int)
    ensures After(n, seed) == seed + Displacement(n, seed) + TWO32 * q
  {
    if n == 0 {
      q := 0;
    } else {
      var k := AfterIsDisplaced(n - 1, seed);
      var raw := MULTIPLIER * After(n - 1, seed) + INCREMENT;
      DisplacementStep(n, seed);
      assert raw == seed + Displacement(n, seed) + TWO32 * (MULTIPLIER * k);
      q := MULTIPLIER * k - raw / TWO32;
    }
  }

  lemma {:induction false} Pow2Split(k: nat, n: nat)
    requires k <= n
    ensures Pow2(n) == Pow2(k) * Pow2(n - k)
  {
    if k > 0 {
      Pow2Split(k - 1, n - 1);
    }
  }

  lemma DividesAdd(d: int, x: int, y: int, k: int)
    requires x == y + Times(d, k)
    ensures Divides(d, x) <==> Divides(d, y)
  {
    if Divides(d, y) {
      var q :| y == Times(d, q);
      assert x == Times(d, q + k);
    }
    if Divides(d, x) {
      var q :| x == Times(d, q);
      assert y == Times(d, q - k);
    }
  }

  lemma OddMultipleDivisible(k: nat, h: int, n: nat)
    ensures Divides(Pow2(k), (2 * h + 1) * Geometric(n)) <==> Divides(Pow2(k), n)
  {
    OddFactor(k, h, Geometric(n));
    GeometricDivisible(k, n);
  }

  lemma DisplacementDivisible(k: nat, n: nat, x: int)
    ensures Divides(Pow2(k), Displacement(n, x)) <==> Divides(Pow2(k), n)
  {
    var h := MULTIPLIER / 2 * x;
    assert (MULTIPLIER - 1) * x + 1 == 2 * h + 1;
    OddMultipleDivisible(k, h, n);
  }

  lemma Associate(a: int, b: int, c: int)
    ensures (a * b) * c == Times(a, b * c)
  {
  }

  /** Bits 0..k-1 of the state come back after n calls exactly when 2^k
      divides n. */
  lemma LowBitsPeriod(k: nat, n: nat, seed: uint32)
    requires k <= 32
    ensures Divides(Pow2(k), After(n, seed) - seed) <==> Divides(Pow2(k), n)
  {
    var q := AfterIsDisplaced(n, seed);
    var e := Pow2(32 - k);
    Pow2Split(k, 32);
    Pow2Of32();
    Associate(Pow2(k), e, q);
    DividesAdd(Pow2(k), After(n, seed) - seed, Displacement(n, seed), e * q);
    DisplacementDivisible(k, n, seed);
  }

  lemma DividesTwo32(x: int)
    ensures Divides(TWO32, x) <==> x % TWO32 == 0
  {
    if x % TWO32 == 0 {
      assert x == Times(TWO32, x / TWO32);
    }
  }

  lemma WholeWordPeriod(n: nat, seed: uint32)
    ensures Divides(TWO32, After(n, seed) - seed) <==> Divides(TWO32, n)
  {
    Pow2Of32();
    LowBitsPeriod(32, n, seed);
  }

  lemma SameWord(x: uint32, y: uint32)
    ensures Divides(TWO32, x - y) <==> x == y
  {
    DividesTwo32(x - y);
  }

  /** Full period: the state returns to the seed after n calls exactly when
      2^32 divides n. */
  lemma FullPeriod(n: nat, seed: uint32)
    ensures After(n, seed) == seed <==> n % TWO32 == 0
  {
    WholeWordPeriod(n, seed);
    SameWord(After(n, seed), seed);
    DividesTwo32(n);
  }

  lemma {:induction false} AfterAdds(m: nat, n: nat, seed: uint32)
    ensures After(m + n, seed) == After(m, After(n, seed))
  {
    if m > 0 {
      AfterAdds(m - 1, n, seed);
      assert m + n - 1 == m - 1 + n;
    }
  }

  /** Hence two points of one run hold the same state exactly when their call
      counts agree modulo 2^32. */
  lemma StatesRepeatOnlyByPeriod(i: nat, j: nat, seed: uint32)
    requires i <= j
    ensures After(i, seed) == After(j, seed) <==> (j - i) % TWO32 == 0
  {
    AfterAdds(j - i, i, seed);
    FullPeriod(j - i, After(i, seed));
  }

  lemma DoubledDiffers(d: int, q: int)
    requires d > 0
    ensures d != 2 * (d * q)
  {
    assert q >= 1 ==> d * q >= d;
    assert q <= 0 ==> d * q <= 0;
  }

  lemma HalfNotDivisible(d: int)
    requires d > 0
    ensures !Divides(2 * d, d)
  {
    forall q
      ensures d != Times(2 * d, q)
    {
      Reassociate(d, 2, q);
      DoubledDiffers(d, q);
    }
  }

  /** Half of a 2^k period changes the state by an odd multiple of 2^(k-1). */
  lemma HalfPeriodFlips(k: nat, x: uint32)
    requires 1 <= k <= 32
    ensures Divides(Pow2(k - 1), After(Pow2(k - 1), x) - x)
    ensures !Divides(2 * Pow2(k - 1), After(Pow2(k - 1), x) - x)
  {
    var d := Pow2(k - 1);
    LowBitsPeriod(k - 1, d, x);
    LowBitsPeriod(k, d, x);
    assert d == Times(d, 1);
    HalfNotDivisible(d);
  }

  lemma EvenMultiple(d: int, a: int)
    ensures a % 2 == 0 ==> Divides(2 * d, Times(d, a))
  {
    var h := a / 2;
    Reassociate(d, 2, h);
    assert a % 2 == 0 ==> Times(d, a) == Times(2 * d, h);
  }

  lemma OddMultiplesAdd(d: int, x: int, y: int)
    requires Divides(d, x) && !Divides(2 * d, x)
    requires Divides(d, y) && !Divides(2 * d, y)
    ensures Divides(2 * d, x + y)
  {
    var a :| x == Times(d, a);
    var b :| y == Times(d, b);
    EvenMultiple(d, a);
    EvenMultiple(d, b);
    var h := (a + b) / 2;
    assert x + y == d * (a + b);
    Reassociate(d, 2, h);
    assert x + y == Times(2 * d, h);
  }

  /** A target's low k bits are reached within 2^k calls. */
  lemma {:induction false} LowBitsReached(k: nat, seed: uint32, target: uint32) returns (n: nat)
    requires k <= 32
    ensures n < Pow2(k)
    ensures Divides(Pow2(k), After(n, seed) - target)
  {
    if k == 0 {
      n := 0;
      assert After(0, seed) - target == Times(1, After(0, seed) - target);
    } else {
      var m := LowBitsReached(k - 1, seed, target);
      var d := Pow2(k - 1);
      if Divides(2 * d, After(m, seed) - target) {
        n := m;
      } else {
        n := d + m;
        AfterAdds(d, m, seed);
        HalfPeriodFlips(k, After(m, seed));
        OddMultiplesAdd(d, After(n, seed) - After(m, seed), After(m, seed) - target);
      }
    }
  }

  /** The generator visits every 32-bit state, whatever the seed. */
  lemma EveryStateReached(seed: uint32, target: uint32)
    ensures exists n: nat :: n < TWO32 && After(n, seed) == target
  {
    var n := LowBitsReached(32, seed, target);
    Pow2Of32();
    SameWord(After(n, seed), target);
  }
}
