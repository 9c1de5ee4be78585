/** 64-bit timestamp arithmetic assembled from 32-bit halves. */
module HalfWord {
  import opened Words

  /** What subtract_uint64_t computes: a magnitude, read as a signed word. */
  function Difference(x: uint64, y: uint64): int64 { Signed64(Abs(x - y)) }

  /** The magnitude is exact precisely up to a distance of 2^63; from there on
      the sign bit is set and the result is negative. */
  lemma DifferenceExact(x: uint64, y: uint64)
    ensures Difference(x, y) == Abs(x - y) <==> Abs(x - y) < TWO63
    ensures Difference(x, y) < 0 <==> Abs(x - y) >= TWO63
    ensures Difference(x, y) == Difference(y, x)
  {
  }

  lemma HalvesCompare(x: uint64, y: uint64)
    ensures High(x) < High(y) || (High(x) == High(y) && Low(x) < Low(y)) <==> x < y
  {
  }

  /** Adding 2^31 twice to a 32-bit word leaves it unchanged. */
  lemma BorrowFixupIsIdentity(low: uint32)
    ensures Wrap32(Wrap32(low + TWO31) + TWO31) == low
  {
  }

  lemma Negated(x: uint64, y: uint64)
    ensures (if x < y then Wrap64(-(Wrap64(x - y) as int)) else Wrap64(x - y)) == Abs(x - y)
  {
    if x < y {
      assert Wrap64(x - y) == x - y + TWO64;
    }
  }

  lemma JoinWraps(hi: int, lo: uint32)
    ensures Join(Wrap32(hi), lo) == Wrap64(hi * TWO32 + lo)
  {
    var q := hi / TWO32;
    assert hi * TWO32 + lo == q * TWO64 + (Wrap32(hi) * TWO32 + lo);
  }

  /** Subtracting the halves with one borrow is subtraction modulo 2^64. */
  lemma HalvesSubtract(x: uint64, y: uint64)
    ensures var borrow := if Low(x) < Low(y) then 1 else 0;
            Join(Wrap32(High(x) - High(y) - borrow), Wrap32(Low(x) - Low(y))) == Wrap64(x - y)
  {
    var borrow := if Low(x) < Low(y) then 1 else 0;
    JoinWraps(High(x) - High(y) - borrow, Wrap32(Low(x) - Low(y)));
  }

  method SubtractUint64(x0: uint64, y0: uint64) returns (r: int64)
    ensures r == Difference(x0, y0)
  {
    var x: int, y: int := x0, y0;
    var neg := false;
    var xFrac: int, yFrac: int := Low(x), Low(y);
    var xS: int, yS: int := High(x), High(y);
    HalvesCompare(x0, y0);
    if xS < yS || (xS == yS && xFrac < yFrac) {
      neg := true;
      x, y := y, x;  // the halves were read already and stay as they are
    }
    var borrow := 0;
    if xFrac < yFrac {
      borrow := 1;
    }
    var low: int := Wrap32(xFrac - yFrac);
    if borrow != 0 {
      BorrowFixupIsIdentity(low);
      low := Wrap32(low + TWO31);
      low := Wrap32(low + TWO31);
    }
    var high: int := Wrap32(xS - yS - borrow);
    HalvesSubtract(x0, y0);
    Negated(x0, y0);
    var result: int := Join(high, low);
    result := if neg then Wrap64(-result) else result;
    r := Signed64(result);
  }

  /** Two's complement sum of the low halves, as C's int32_t addition wraps. */
  function LowSum(x: int64, y: int64): int32 { Signed32(Signed32(x) + Signed32(y)) }

  /** The code's carry test, on signed halves. */
  function Carry(x: int64, y: int64): int {
    if LowSum(x, y) < Signed32(x) || LowSum(x, y) < Signed32(y) then 1 else 0
  }

  /** What add_int64_t computes with two's complement wrap-around: a negative
      low half, sign-extended, overwrites the high half. */
  function LossySum(x: int64, y: int64): int64 {
    var low: int := LowSum(x, y);
    var high: int := Signed32(x / TWO32 + Carry(x, y) + y / TWO32);
    if low < 0 then low else high * TWO32 + low
  }

  lemma SignedAbsorbs(h: int, k: int)
    ensures Signed32(Signed32(h) + k) == Signed32(h + k)
  {
  }

  method AddInt64(x: int64, y: int64) returns (r: int64)
    ensures r == LossySum(x, y)
  {
    var xFrac: int, yFrac: int := Signed32(x), Signed32(y);
    var xS: int, yS: int := x / TWO32, y / TWO32;
    var low: int := Signed32(xFrac + yFrac);
    var carry := 0;
    if low < xFrac || low < yFrac {
      carry := 1;
      xS := Signed32(xS + 1);
    }
    SignedAbsorbs(x / TWO32 + carry, yS);
    var high: int := Signed32(xS + yS);
    r := if low < 0 then low else high * TWO32 + low;
  }

  function TrueCarry(x: int64, y: int64): int { if x % TWO32 + y % TWO32 < TWO32 then 0 else 1 }

  lemma LowHalves(x: int64, y: int64)
    ensures LowSum(x, y) == Signed32(x % TWO32 + y % TWO32)
    ensures Signed32(x) == Signed32(x % TWO32) && Signed32(y) == Signed32(y % TWO32)
  {
    SignedAbsorbs(x, Signed32(y));
    SignedAbsorbs(y, x);
    assert (x + y) % TWO32 == (x % TWO32 + y % TWO32) % TWO32;
  }

  lemma CarryRightWords(a: uint32, b: uint32)
    requires Signed32(a + b) >= 0
    ensures var low := Signed32(a + b);
            (low < Signed32(a) || low < Signed32(b)) == (a + b >= TWO32)
            <==> !(Signed32(a) < 0 && Signed32(b) < 0)
  {
  }

  lemma CarryRight(x: int64, y: int64)
    requires LowSum(x, y) >= 0
    ensures Carry(x, y) == TrueCarry(x, y) <==> !(Signed32(x) < 0 && Signed32(y) < 0)
  {
    LowHalves(x, y);
    CarryRightWords(x % TWO32, y % TWO32);
  }

  lemma JoinSigned(h: int, lo: uint32)
    ensures Signed64(h * TWO32 + lo) == Signed32(h) * TWO32 + lo
  {
    JoinWraps(h, lo);
  }

  lemma TrueSum(x: int64, y: int64)
    ensures LowSum(x, y) >= 0 ==>
              Signed64(x + y) == Signed32(x / TWO32 + y / TWO32 + TrueCarry(x, y)) * TWO32 + LowSum(x, y)
  {
    LowHalves(x, y);
    var a, b := x % TWO32, y % TWO32;
    var lo := Wrap32(a + b);
    JoinSigned(x / TWO32 + y / TWO32 + TrueCarry(x, y), lo);
    assert x + y == (x / TWO32 + y / TWO32 + TrueCarry(x, y)) * TWO32 + lo;
  }

  lemma SignedNeighbours(h: int, c: int, d: int)
    requires 0 <= c <= 1 && 0 <= d <= 1
    ensures Signed32(h + c) == Signed32(h + d) <==> c == d
  {
  }

  lemma SignExtended(z: int, low: int32)
    requires low < 0 && low % TWO32 == z % TWO32
    ensures Signed64(z) == low <==> Signed64(z) / TWO32 == -1
  {
    assert Signed64(z) % TWO32 == z % TWO32;
  }

  /** The addition is right exactly when bit 31 of the sum is clear and not
      both low halves have bit 31 set, or when the true high half is all ones
      and bit 31 is set anyway. */
  lemma SumExact(x: int64, y: int64)
    ensures LossySum(x, y) == Signed64(x + y) <==>
            if LowSum(x, y) >= 0 then !(Signed32(x) < 0 && Signed32(y) < 0)
            else Signed64(x + y) / TWO32 == -1
  {
    TrueSum(x, y);
    if LowSum(x, y) >= 0 {
      CarryRight(x, y);
      SignedNeighbours(x / TWO32 + y / TWO32, Carry(x, y), TrueCarry(x, y));
    } else {
      SignExtended(x + y, LowSum(x, y));
    }
  }

  /** The one use with a constant: advancing a date by one. */
  lemma SuccessorExact(x: int64)
    requires 0 <= x < TWO31 - 1
    ensures LossySum(x, 1) == x + 1
  {
  }

  /** A sum that comes out wrong: 1.5 s + 1.5 s gives 2 s. */
  lemma SumLosesCarry()
    ensures LossySum(TWO32 + TWO31, TWO32 + TWO31) == 2 * TWO32
  {
  }
}
