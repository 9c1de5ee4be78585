/** Fixed-width C integers over Dafny's unbounded ones, and powers of two. */
module Words {

  const TWO16: int := 0x1_0000
  const TWO31: int := 0x8000_0000
  const TWO32: int := 0x1_0000_0000
  const TWO63: int := 0x8000_0000_0000_0000
  const TWO64: int := 0x1_0000_0000_0000_0000

  type uint8 = x: int | 0 <= x < 0x100

  type uint32 = x: int | 0 <= x < 0x1_0000_0000

  type uint64 = x: int | 0 <= x < 0x1_0000_0000_0000_0000

  type int32 = x: int | -0x8000_0000 <= x < 0x8000_0000

  type int64 = x: int | -0x8000_0000_0000_0000 <= x < 0x8000_0000_0000_0000

  /** Conversion to an unsigned type keeps the value modulo two to the width. */
  function Wrap32(x: int): uint32 { x % TWO32 }

  function Wrap64(x: int): uint64 { x % TWO64 }

  /** Two's complement reading of a word. */
  function Signed32(x: int): int32 {
    var w := x % TWO32;
    if w < TWO31 then w else w - TWO32
  }

  function Signed64(x: int): int64 {
    var w := x % TWO64;
    if w < TWO63 then w else w - TWO64
  }

  function Low(x: uint64): uint32 { x % TWO32 }

  function High(x: uint64): uint32 { x / TWO32 }

  /** (hi << 32) | lo for two 32-bit halves. */
  function Join(hi: uint32, lo: uint32): (x: uint64)
    ensures High(x) == hi && Low(x) == lo
  {
    hi * TWO32 + lo
  }

  function Abs(x: int): nat { if x < 0 then -x else x }

  function AbsR(x: real): real { if x < 0.0 then -x else x }

  function MinI(x: int, y: int): int { if x < y then x else y }

  function MaxI(x: int, y: int): int { if x < y then y else x }

  function MinR(x: real, y: real): real { if x < y then x else y }

  function MaxR(x: real, y: real): real { if x < y then y else x }

  function Pow2(n: nat): (p: nat)
    ensures p >= 1
  {
    if n == 0 then 1 else 2 * Pow2(n - 1)
  }

  /** Pow2(32) by way of smaller literals. */
  lemma Pow2Of32()
    ensures Pow2(32) == TWO32
  {
    assert Pow2(10) == 1024;
    assert Pow2(20) == 1024 * Pow2(10);
    assert Pow2(30) == 1024 * Pow2(20);
  }

  lemma {:induction false} Pow2Monotone(m: nat, n: nat)
    requires m <= n
    ensures Pow2(m) <= Pow2(n)
  {
    if m < n {
      Pow2Monotone(m, n - 1);
    }
  }

  /** LOG2D: two to a signed exponent, as a double. */
  function Log2D(a: int): (r: real)
    ensures r > 0.0
  {
    if a < 0 then 1.0 / (Pow2(-a) as real) else Pow2(a) as real
  }

  lemma HalvedQuotient(x: real)
    requires x > 0.0
    ensures 1.0 / x == 2.0 * (1.0 / (2.0 * x))
  {
  }

  /** Which determines it: one at zero, doubling with each step either way. */
  lemma Log2DDoubles(a: int)
    ensures Log2D(0) == 1.0 && Log2D(a + 1) == 2.0 * Log2D(a)
  {
    if a < -1 {
      assert Pow2(-a) == 2 * Pow2(-a - 1);
      HalvedQuotient(Pow2(-a - 1) as real);
    } else if a == -1 {
      assert Pow2(1) == 2 && Pow2(0) == 1;
    }
  }
}
