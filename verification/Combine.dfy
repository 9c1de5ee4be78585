/** The weighted average and selection jitter of clock_combine. */
module Combine {
  import opened Words

  /** One survivor: its offset and its weight, the inverse root distance. */
  datatype Entry = Entry(offset: real, weight: real)

  ghost predicate Weighable(es: seq<Entry>) { forall i :: 0 <= i < |es| ==> es[i].weight > 0.0 }

  function WeightSum(es: seq<Entry>): real {
    if es == [] then 0.0 else WeightSum(es[..|es| - 1]) + es[|es| - 1].weight
  }

  function OffsetSum(es: seq<Entry>): real {
    if es == [] then 0.0 else OffsetSum(es[..|es| - 1]) + es[|es| - 1].offset * es[|es| - 1].weight
  }

  function SquareOf(x: real): real { AbsR(x) * AbsR(x) }

  function Deviation(e: Entry, base: real): real { SquareOf(e.offset - base) * e.weight }

  function DeviationSum(es: seq<Entry>, base: real): real {
    if es == [] then 0.0 else DeviationSum(es[..|es| - 1], base) + Deviation(es[|es| - 1], base)
  }

  lemma {:induction false} WeightSumPositive(es: seq<Entry>)
    requires Weighable(es)
    ensures es != [] ==> WeightSum(es) > 0.0
    ensures WeightSum(es) >= 0.0
  {
    if es != [] {
      WeightSumPositive(es[..|es| - 1]);
    }
  }

  function CombinedOffset(es: seq<Entry>): real
    requires WeightSum(es) != 0.0
  {
    OffsetSum(es) / WeightSum(es)
  }

  /** Weighted mean square deviation from the first survivor. */
  function MeanSquare(es: seq<Entry>): real
    requires es != [] && WeightSum(es) != 0.0
  {
    DeviationSum(es, es[0].offset) / WeightSum(es)
  }

  // ---- Convexity ----

  lemma BoundStep(lo: real, w: real, sum: real, x: real, weight: real)
    requires weight > 0.0 && lo * w <= sum && lo <= x
    ensures lo * (w + weight) <= sum + x * weight
  {
    assert (x - lo) * weight >= 0.0;
  }

  lemma {:induction false} OffsetSumAtLeast(es: seq<Entry>, lo: real)
    requires Weighable(es)
    requires forall i :: 0 <= i < |es| ==> lo <= es[i].offset
    ensures lo * WeightSum(es) <= OffsetSum(es)
  {
    if es != [] {
      var init, e := es[..|es| - 1], es[|es| - 1];
      OffsetSumAtLeast(init, lo);
      BoundStep(lo, WeightSum(init), OffsetSum(init), e.offset, e.weight);
    }
  }

  lemma CapStep(hi: real, w: real, sum: real, x: real, weight: real)
    requires weight > 0.0 && sum <= hi * w && x <= hi
    ensures sum + x * weight <= hi * (w + weight)
  {
    assert (hi - x) * weight >= 0.0;
  }

  lemma {:induction false} OffsetSumAtMost(es: seq<Entry>, hi: real)
    requires Weighable(es)
    requires forall i :: 0 <= i < |es| ==> es[i].offset <= hi
    ensures OffsetSum(es) <= hi * WeightSum(es)
  {
    if es != [] {
      var init, e := es[..|es| - 1], es[|es| - 1];
      OffsetSumAtMost(init, hi);
      CapStep(hi, WeightSum(init), OffsetSum(init), e.offset, e.weight);
    }
  }

  lemma SquareNonNegative(x: real) returns (square: real)
    ensures square == SquareOf(x) >= 0.0
  {
    square := SquareOf(x);
  }

  lemma {:induction false} DeviationSumBounds(es: seq<Entry>, base: real, most: real)
    requires Weighable(es)
    requires forall i :: 0 <= i < |es| ==> SquareOf(es[i].offset - base) <= most
    ensures 0.0 <= DeviationSum(es, base) <= most * WeightSum(es)
  {
    if es != [] {
      var init, e := es[..|es| - 1], es[|es| - 1];
      DeviationSumBounds(init, base, most);
      var square := SquareNonNegative(e.offset - base);
      assert square <= most;
      BoundStep(0.0, WeightSum(init), DeviationSum(init, base), square, e.weight);
      CapStep(most, WeightSum(init), DeviationSum(init, base), square, e.weight);
    }
  }

  lemma ProductOrder(a: real, b: real, y: real)
    requires y > 0.0 && a * y <= b * y
    ensures a <= b
  {
  }

  lemma QuotientBetween(lo: real, x: real, hi: real, y: real)
    requires y > 0.0
    requires lo * y <= x <= hi * y
    ensures lo <= x / y <= hi
  {
    ProductOrder(lo, x / y, y);
    ProductOrder(x / y, hi, y);
  }

  lemma QuotientCapped(x: real, hi: real, y: real)
    requires y > 0.0
    requires 0.0 <= x <= hi * y
    ensures 0.0 <= x / y <= hi
  {
    ProductOrder(0.0, x / y, y);
    ProductOrder(x / y, hi, y);
  }

  /** The combined offset is a convex combination of the listed offsets. */
  lemma OffsetIsConvex(es: seq<Entry>, lo: real, hi: real)
    requires es != [] && Weighable(es)
    requires forall i :: 0 <= i < |es| ==> lo <= es[i].offset <= hi
    ensures WeightSum(es) > 0.0 && lo <= CombinedOffset(es) <= hi
  {
    WeightSumPositive(es);
    OffsetSumAtLeast(es, lo);
    OffsetSumAtMost(es, hi);
    QuotientBetween(lo, OffsetSum(es), hi, WeightSum(es));
  }

  lemma SquareIsProduct(x: real)
    ensures SquareOf(x) == x * x
  {
  }

  lemma SquareAtMost(x: real, y: real, most: real)
    requires (x - y) * (x - y) <= most
    ensures SquareOf(x - y) <= most
  {
  }

  /** A survivor's term is its squared distance from the base, weighted. */
  lemma DeviationIsSquare(e: Entry, base: real)
    ensures Deviation(e, base) == (e.offset - base) * (e.offset - base) * e.weight
  {
    hide SquareOf;
    SquareIsProduct(e.offset - base);
  }

  /** The mean square lies between zero and the greatest squared deviation. */
  lemma MeanSquareBounded(es: seq<Entry>, most: real)
    requires es != [] && Weighable(es)
    requires forall i :: 0 <= i < |es| ==>
               (es[i].offset - es[0].offset) * (es[i].offset - es[0].offset) <= most
    ensures WeightSum(es) > 0.0 && 0.0 <= MeanSquare(es) <= most
  {
    hide WeightSum, DeviationSum, SquareOf;
    forall i | 0 <= i < |es|
      ensures SquareOf(es[i].offset - es[0].offset) <= most
    {
      SquareAtMost(es[i].offset, es[0].offset, most);
    }
    WeightSumPositive(es);
    DeviationSumBounds(es, es[0].offset, most);
    QuotientCapped(DeviationSum(es, es[0].offset), most, WeightSum(es));
  }

  // ---- Translation ----

  /** Every listed offset moved by one constant. */
  function Shifted(es: seq<Entry>, delta: real): (gs: seq<Entry>)
    ensures |gs| == |es|
  {
    if es == [] then []
    else Shifted(es[..|es| - 1], delta) + [Entry(es[|es| - 1].offset + delta, es[|es| - 1].weight)]
  }

  lemma {:induction false} ShiftedAt(es: seq<Entry>, delta: real, i: nat)
    requires i < |es|
    ensures Shifted(es, delta)[i] == Entry(es[i].offset + delta, es[i].weight)
  {
    if i < |es| - 1 {
      ShiftedAt(es[..|es| - 1], delta, i);
    }
  }

  lemma ShiftedInit(es: seq<Entry>, delta: real)
    requires es != []
    ensures Shifted(es, delta)[..|es| - 1] == Shifted(es[..|es| - 1], delta)
    ensures Shifted(es, delta)[|es| - 1] == Entry(es[|es| - 1].offset + delta, es[|es| - 1].weight)
  {
  }

  lemma {:induction false} WeightsKept(es: seq<Entry>, delta: real)
    ensures WeightSum(Shifted(es, delta)) == WeightSum(es)
  {
    if es != [] {
      WeightsKept(es[..|es| - 1], delta);
      ShiftedInit(es, delta);
    }
  }

  lemma MoveStep(x: real, delta: real, w: real, weight: real)
    ensures delta * w + (x + delta) * weight == delta * (w + weight) + x * weight
  {
  }

  lemma {:induction false} OffsetsMove(es: seq<Entry>, delta: real)
    ensures OffsetSum(Shifted(es, delta)) == OffsetSum(es) + delta * WeightSum(es)
  {
    if es != [] {
      OffsetsMove(es[..|es| - 1], delta);
      ShiftedInit(es, delta);
      MoveStep(es[|es| - 1].offset, delta, WeightSum(es[..|es| - 1]), es[|es| - 1].weight);
    }
  }

  lemma NothingShifted(delta: real, base: real)
    ensures Shifted([], delta) == [] && DeviationSum([], base) == 0.0 == DeviationSum([], base + delta)
  {
  }

  lemma LastDeviation(es: seq<Entry>, base: real)
    requires es != []
    ensures DeviationSum(es, base) == DeviationSum(es[..|es| - 1], base) + Deviation(es[|es| - 1], base)
  {
    hide Deviation;
  }

  lemma DeviationMoves(e: Entry, delta: real, base: real)
    ensures Deviation(Entry(e.offset + delta, e.weight), base + delta) == Deviation(e, base)
  {
    hide SquareOf;
    assert e.offset + delta - (base + delta) == e.offset - base;
  }

  lemma {:induction false} DeviationsKept(es: seq<Entry>, delta: real, base: real)
    ensures DeviationSum(Shifted(es, delta), base + delta) == DeviationSum(es, base)
  {
    hide Deviation, DeviationSum, Shifted;
    if es == [] {
      NothingShifted(delta, base);
    } else {
      DeviationsKept(es[..|es| - 1], delta, base);
      LastDeviation(es, base);
      LastDeviation(Shifted(es, delta), base + delta);
      ShiftedInit(es, delta);
      DeviationMoves(es[|es| - 1], delta, base);
    }
  }

  lemma ShiftedQuotient(x: real, delta: real, y: real)
    requires y > 0.0
    ensures (x + delta * y) / y == x / y + delta
  {
  }

  /** Moving every offset by a constant moves the result by that constant... */
  lemma CombinedOffsetMoves(es: seq<Entry>, delta: real)
    requires WeightSum(es) > 0.0
    ensures WeightSum(Shifted(es, delta)) == WeightSum(es)
    ensures CombinedOffset(Shifted(es, delta)) == CombinedOffset(es) + delta
  {
    WeightsKept(es, delta);
    OffsetsMove(es, delta);
    ShiftedQuotient(OffsetSum(es), delta, WeightSum(es));
  }

  /** ... and leaves the mean square, hence the jitter, alone. */
  lemma MeanSquareKept(es: seq<Entry>, delta: real)
    requires es != [] && WeightSum(es) > 0.0
    ensures WeightSum(Shifted(es, delta)) == WeightSum(es)
    ensures MeanSquare(Shifted(es, delta)) == MeanSquare(es)
  {
    WeightsKept(es, delta);
    DeviationsKept(es, delta, es[0].offset);
    ShiftedAt(es, delta, 0);
  }

  // ---- Scaling ----

  /** Every listed offset multiplied by one constant. */
  function Stretched(es: seq<Entry>, k: real): (gs: seq<Entry>)
    ensures |gs| == |es|
    ensures forall i :: 0 <= i < |es| ==> gs[i] == Entry(k * es[i].offset, es[i].weight)
  {
    if es == [] then []
    else Stretched(es[..|es| - 1], k) + [Entry(k * es[|es| - 1].offset, es[|es| - 1].weight)]
  }

  lemma NothingStretched(k: real, base: real)
    ensures Stretched([], k) == [] && WeightSum([]) == OffsetSum([]) == 0.0
    ensures DeviationSum([], base) == DeviationSum([], k * base) == 0.0
  {
  }

  lemma StretchedInit(es: seq<Entry>, k: real)
    requires es != []
    ensures Stretched(es, k)[..|es| - 1] == Stretched(es[..|es| - 1], k)
  {
  }

  lemma LastTerms(es: seq<Entry>, base: real)
    requires es != []
    ensures var init, e := es[..|es| - 1], es[|es| - 1];
            WeightSum(es) == WeightSum(init) + e.weight &&
            OffsetSum(es) == OffsetSum(init) + e.offset * e.weight &&
            DeviationSum(es, base) == DeviationSum(init, base) + Deviation(e, base)
  {
    hide Deviation;
  }

  lemma ScaledProduct(k: real, kk: real, x: real, w: real)
    requires kk == k * k
    ensures (k * x) * (k * x) * w == kk * (x * x * w)
  {
    assert (k * x) * (k * x) == kk * (x * x);
  }

  lemma TermStretches(e: Entry, k: real, kk: real, base: real, offsets: real, deviations: real,
                      offsets': real, deviations': real)
    requires kk == k * k
    requires offsets' == offsets + e.offset * e.weight && deviations' == deviations + Deviation(e, base)
    ensures k * offsets + k * e.offset * e.weight == k * offsets'
    ensures kk * deviations + Deviation(Entry(k * e.offset, e.weight), k * base) == kk * deviations'
  {
    hide Deviation;
    DeviationIsSquare(e, base);
    DeviationIsSquare(Entry(k * e.offset, e.weight), k * base);
    ScaledProduct(k, kk, e.offset - base, e.weight);
    assert k * e.offset - k * base == k * (e.offset - base);
  }

  lemma {:induction false} SumsStretch(es: seq<Entry>, k: real, kk: real, base: real)
    requires kk == k * k
    ensures WeightSum(Stretched(es, k)) == WeightSum(es)
    ensures OffsetSum(Stretched(es, k)) == k * OffsetSum(es)
    ensures DeviationSum(Stretched(es, k), k * base) == kk * DeviationSum(es, base)
  {
    hide Deviation, WeightSum, OffsetSum, DeviationSum, Stretched;
    if es == [] {
      NothingStretched(k, base);
    } else {
      var init, e := es[..|es| - 1], es[|es| - 1];
      var gs := Stretched(es, k);
      SumsStretch(init, k, kk, base);
      StretchedInit(es, k);
      LastTerms(es, base);
      LastTerms(gs, k * base);
      assert gs[|gs| - 1] == Entry(k * e.offset, e.weight);
      TermStretches(e, k, kk, base, OffsetSum(init), DeviationSum(init, base), OffsetSum(es), DeviationSum(es, base));
    }
  }

  lemma SumsStretchFrom(es: seq<Entry>, k: real, kk: real, base: real, base': real)
    requires kk == k * k && base' == k * base
    ensures WeightSum(Stretched(es, k)) == WeightSum(es)
    ensures OffsetSum(Stretched(es, k)) == k * OffsetSum(es)
    ensures DeviationSum(Stretched(es, k), base') == kk * DeviationSum(es, base)
  {
    hide WeightSum, OffsetSum, DeviationSum, Stretched;
    SumsStretch(es, k, kk, base);
  }

  lemma ScaledQuotient(k: real, x: real, y: real, x': real, y': real)
    requires y' == y > 0.0 && x' == k * x
    ensures x' / y' == k * (x / y)
  {
  }

  /** Multiplying every offset by a constant multiplies the combined offset by it
      and the mean square by its square. */
  lemma CombiningScales(es: seq<Entry>, k: real)
    requires es != [] && WeightSum(es) > 0.0
    ensures WeightSum(Stretched(es, k)) == WeightSum(es)
    ensures CombinedOffset(Stretched(es, k)) == k * CombinedOffset(es)
    ensures MeanSquare(Stretched(es, k)) == (k * k) * MeanSquare(es)
  {
    hide WeightSum, OffsetSum, DeviationSum, Stretched;
    var kk := k * k;
    SumsStretchFrom(es, k, kk, es[0].offset, Stretched(es, k)[0].offset);
    var gs := Stretched(es, k);
    ScaledQuotient(k, OffsetSum(es), WeightSum(es), OffsetSum(gs), WeightSum(gs));
    assert gs[0].offset == k * es[0].offset;
    ScaledQuotient(kk, DeviationSum(es, es[0].offset), WeightSum(es),
                   DeviationSum(gs, gs[0].offset), WeightSum(gs));
    assert MeanSquare(Stretched(es, k)) == kk * MeanSquare(es);
  }
}
