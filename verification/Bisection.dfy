/** The bisection square root that replaces the C library's. */
module Bisection {
  import opened Words

  const PRECISION: real := 0.00001

  /** How many whole precisions fit in the bracket: falls with each halving. */
  function Room(low: real, high: real): int { ((high - low) * 100000.0).Floor }

  lemma HalvingShrinksRoom(low: real, high: real, mid: real)
    requires high - low > PRECISION
    requires mid == low + (high - low) / 2.0
    ensures 0 <= Room(low, mid) < Room(low, high)
    ensures 0 <= Room(mid, high) < Room(low, high)
  {
    var x := (high - low) * 100000.0;
    assert x > 1.0;
    assert (mid - low) * 100000.0 == x / 2.0 == (high - mid) * 100000.0;
    assert x >= 2.0 ==> x / 2.0 <= x - 1.0;
  }

  function Square(x: real): real { x * x }

  /** The value the loop ends with when it starts from [low, high]. */
  function Bisect(number: real, low: real, high: real): real
    decreases Room(low, high)
  {
    if high - low > PRECISION then
      var mid := low + (high - low) / 2.0;
      HalvingShrinksRoom(low, high, mid);
      if Square(mid) < number then Bisect(number, mid, high) else Bisect(number, low, mid)
    else
      (low + high) / 2.0
  }

  function SqrtOf(number: real): real { Bisect(number, 0.0, if number < 1.0 then 1.0 else number) }

  /** low and high enclose the square root. */
  ghost predicate Brackets(number: real, low: real, high: real) {
    0.0 <= low <= high && Square(low) <= number <= Square(high)
  }

  lemma {:induction false} BisectBrackets(number: real, low: real, high: real) returns (l: real, h: real)
    requires Brackets(number, low, high)
    ensures Brackets(number, l, h)
    ensures h - l <= PRECISION
    ensures Bisect(number, low, high) == (l + h) / 2.0
    decreases Room(low, high)
  {
    if high - low > PRECISION {
      var mid := low + (high - low) / 2.0;
      HalvingShrinksRoom(low, high, mid);
      if Square(mid) < number {
        l, h := BisectBrackets(number, mid, high);
      } else {
        l, h := BisectBrackets(number, low, mid);
      }
    } else {
      l, h := low, high;
    }
  }

  lemma PositiveProduct(x: real, y: real)
    requires x > 0.0 && y > 0.0
    ensures x * y > 0.0
  {
  }

  lemma SquareMonotone(x: real, y: real)
    requires 0.0 <= x && 0.0 <= y
    ensures x * x <= y * y ==> x <= y
  {
    if x > y {
      PositiveProduct(x - y, x + y);
      assert (x - y) * (x + y) == x * x - y * y;
    }
  }

  lemma StartBrackets(number: real)
    requires number >= 0.0
    ensures Brackets(number, 0.0, if number < 1.0 then 1.0 else number)
  {
    if number >= 1.0 {
      assert number * number >= number * 1.0;
    }
  }

  /** For every non-negative number the result is within 0.000005 of its
      square root. */
  lemma SqrtAccurate(number: real, root: real)
    requires root >= 0.0 && root * root == number
    ensures AbsR(SqrtOf(number) - root) <= 0.000005
  {
    StartBrackets(number);
    var l, h := BisectBrackets(number, 0.0, if number < 1.0 then 1.0 else number);
    SquareMonotone(l, root);
    SquareMonotone(root, h);
  }

  lemma ProductMonotone(x: real, y: real)
    requires 0.0 <= x <= y
    ensures x * x <= y * y
  {
    assert x * x <= x * y;
    assert x * y <= y * y;
  }

  /** The same without naming the root, so that it also covers numbers whose
      root is irrational. */
  lemma SqrtSquare(number: real)
    requires number >= 0.0
    ensures var r := SqrtOf(number);
            number <= (r + 0.000005) * (r + 0.000005) &&
            (r >= 0.000005 ==> (r - 0.000005) * (r - 0.000005) <= number)
  {
    StartBrackets(number);
    var l, h := BisectBrackets(number, 0.0, if number < 1.0 then 1.0 else number);
    var r := SqrtOf(number);
    ProductMonotone(h, r + 0.000005);
    if r >= 0.000005 {
      ProductMonotone(r - 0.000005, l);
    }
  }

  lemma PositiveSquare(x: real)
    ensures Square(x) >= 0.0
  {
  }

  /** The unparenthesized square in the cluster loop can make a caller's sum
      negative; the bracket then collapses onto zero. */
  lemma {:induction false} BisectNonNegative(number: real, low: real, high: real)
    requires 0.0 <= low <= high
    ensures low <= Bisect(number, low, high) <= high
    ensures number < 0.0 && low == 0.0 ==> Bisect(number, low, high) <= PRECISION / 2.0
    decreases Room(low, high)
  {
    hide Room, Square;
    if high - low > PRECISION {
      var mid := low + (high - low) / 2.0;
      HalvingShrinksRoom(low, high, mid);
      PositiveSquare(mid);
      if Square(mid) < number {
        BisectNonNegative(number, mid, high);
      } else {
        BisectNonNegative(number, low, mid);
      }
    }
  }

  lemma SqrtNonNegative(number: real)
    ensures SqrtOf(number) >= 0.0
    ensures number < 0.0 ==> SqrtOf(number) <= 0.000005
  {
    BisectNonNegative(number, 0.0, if number < 1.0 then 1.0 else number);
  }

  /** ceil(log2(x)) for x >= 1, and 0 below. */
  function CeilLog2(x: real): nat
    decreases if x > 1.0 then (x * 2.0).Floor else 0
  {
    if x <= 1.0 then 0
    else
      assert (x / 2.0 * 2.0).Floor < (x * 2.0).Floor;
      1 + CeilLog2(x / 2.0)
  }

  lemma {:induction false} CeilLog2Bounds(x: real)
    requires x >= 1.0
    ensures x <= Pow2(CeilLog2(x)) as real < 2.0 * x
    decreases CeilLog2(x)
  {
    if x > 1.0 {
      var k := CeilLog2(x / 2.0);
      assert Pow2(k + 1) as real == 2.0 * (Pow2(k) as real);
      if x / 2.0 >= 1.0 {
        CeilLog2Bounds(x / 2.0);
      }
    }
  }

  ghost predicate Spans(width: real, halvings: nat, span: real) {
    width * (Pow2(halvings) as real) == span
  }

  lemma BisectStep(number: real, low: real, high: real)
    requires high - low > PRECISION
    ensures var mid := low + (high - low) / 2.0;
            Bisect(number, low, high)
            == if Square(mid) < number then Bisect(number, mid, high) else Bisect(number, low, mid)
  {
  }

  lemma StartSpan(span: real) returns (bound: nat)
    requires span >= 1.0
    ensures bound == CeilLog2(span * 100000.0)
    ensures span * 100000.0 <= Pow2(bound) as real
    ensures Spans(span, 0, span)
  {
    bound := CeilLog2(span * 100000.0);
    CeilLog2Bounds(span * 100000.0);
  }

  lemma NotThereYet(width: real, p: real, span: real, limit: real)
    requires width > PRECISION && p >= 1.0
    requires width * p == span && span * 100000.0 <= limit
    ensures p < limit
  {
    var extra := width - PRECISION;
    assert extra * p > 0.0;
    assert width * p == PRECISION * p + extra * p;
  }

  lemma HalfSpan(width: real, halvings: nat, span: real)
    requires Spans(width, halvings, span)
    ensures Spans(width / 2.0, halvings + 1, span)
  {
    var p := Pow2(halvings) as real;
    assert Pow2(halvings + 1) as real == 2.0 * p;
    assert (width / 2.0) * (2.0 * p) == width * p;
  }

  lemma HalvingStep(low: real, high: real, span: real, halvings: nat, bound: nat)
    requires high - low > PRECISION
    requires Spans(high - low, halvings, span)
    requires span * 100000.0 <= Pow2(bound) as real
    requires halvings <= bound
    ensures halvings < bound
    ensures var mid := low + (high - low) / 2.0;
            Spans(mid - low, halvings + 1, span) && Spans(high - mid, halvings + 1, span)
  {
    NotThereYet(high - low, Pow2(halvings) as real, span, Pow2(bound) as real);
    var mid := low + (high - low) / 2.0;
    HalfSpan(high - low, halvings, span);
    assert mid - low == (high - low) / 2.0 == high - mid;
  }

  /** sqrt() itself, with the number of halvings it makes. */
  method Sqrt(number: real) returns (r: real, ghost halvings: nat)
    ensures r == SqrtOf(number)
    ensures halvings <= CeilLog2(MaxR(1.0, number) * 100000.0)
  {
    var low, high := 0.0, number;
    if number < 1.0 {
      high := 1.0;
    }
    halvings := 0;
    ghost var span := MaxR(1.0, number);
    ghost var bound := StartSpan(span);
    while high - low > PRECISION
      invariant low <= high
      invariant Bisect(number, low, high) == SqrtOf(number)
      invariant Spans(high - low, halvings, span)
      invariant halvings <= bound
      decreases bound - halvings
    {
      HalvingStep(low, high, span, halvings, bound);
      var mid := low + (high - low) / 2.0;
      BisectStep(number, low, high);
      if Square(mid) < number {
        low := mid;
      } else {
        high := mid;
      }
      halvings := halvings + 1;
    }
    r := (low + high) / 2.0;
  }
}
