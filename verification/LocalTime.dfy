/** The tick-driven local clock and its stepping and slewing. */
module LocalTime {
  import opened Words
  import opened Ntp
  import opened HalfWord

  // ---- prv_update_localTime ----

  /** The low word of D2LFP(offset): defined for offsets whose 32.32 value fits
      64 bits, unspecified otherwise. */
  function Fraction(offset: real, junk: uint32): uint32 {
    if 0.0 <= offset < FRAC then Wrap32((offset * FRAC).Floor) else junk
  }

  lemma JoinSplit(time: uint64)
    ensures Join(High(time), Low(time)) == time
  {
  }

  /** Adding to the halves with the carry test is addition modulo 2^64. */
  lemma HalvesCarry(hi: uint32, lo: uint32, fractions: uint32)
    ensures var low := Wrap32(lo + fractions);
            Join(if low < lo then Wrap32(hi + 1) else hi, low) == Wrap64(Join(hi, lo) + fractions)
  {
    var carry := if lo + fractions < TWO32 then 0 else 1;
    JoinWraps(hi + carry, lo + fractions - carry * TWO32);
  }

  /** Likewise for subtraction with the borrow test. */
  lemma HalvesBorrow(hi: uint32, lo: uint32, fractions: uint32)
    ensures var low := Wrap32(lo - fractions);
            Join(if low > lo then Wrap32(hi - 1) else hi, low) == Wrap64(Join(hi, lo) - fractions)
  {
    var borrow := if lo < fractions then 1 else 0;
    JoinWraps(hi - borrow, lo - fractions + borrow * TWO32);
  }

  method UpdateLocalTime(c: Clock, frac: uint32, isAdjustment: bool)
    modifies c`localTime
    ensures c.localTime == if isAdjustment then Wrap64(old(c.localTime) + frac) else Wrap64(old(c.localTime) - frac)
  {
    var currentFractions: int, currentSeconds: int := Low(c.localTime), High(c.localTime);
    var tempFractions: int;
    JoinSplit(c.localTime);
    if isAdjustment {
      tempFractions := Wrap32(currentFractions + frac);
      HalvesCarry(currentSeconds, currentFractions, frac);
      if tempFractions < currentFractions {
        currentSeconds := Wrap32(currentSeconds + 1);
      }
    } else {
      tempFractions := Wrap32(currentFractions - frac);
      HalvesBorrow(currentSeconds, currentFractions, frac);
      if tempFractions > currentFractions {
        currentSeconds := Wrap32(currentSeconds - 1);
      }
    }
    c.localTime := Join(currentSeconds, tempFractions);
  }

  method StepTime(c: Clock, offset: real, junk: uint32)
    modifies c`localTime
    ensures c.localTime == Wrap64(old(c.localTime) - Fraction(offset, junk))
  {
    UpdateLocalTime(c, Fraction(offset, junk), false);
  }

  method AdjustTime(c: Clock, offset: real, junk: uint32)
    modifies c`localTime
    ensures c.localTime == Wrap64(old(c.localTime) + Fraction(offset, junk))
  {
    UpdateLocalTime(c, Fraction(offset, junk), true);
  }

  /** Slewing and then stepping by one offset restores the clock. */
  method AdjustThenStep(c: Clock, offset: real, junk: uint32)
    modifies c`localTime
    ensures c.localTime == old(c.localTime)
  {
    AdjustTime(c, offset, junk);
    StepTime(c, offset, junk);
  }

  /** The clock moves by the whole 32.32 offset exactly when the offset has no
      whole seconds, because only the low word is applied. */
  lemma AdjustIsExactBelowOneSecond(time: uint64, offset: real, junk: uint32)
    requires 0.0 <= offset < FRAC
    ensures Wrap64(time + Fraction(offset, junk)) == Wrap64(time + (offset * FRAC).Floor)
            <==> offset < 1.0
  {
    var exact := (offset * FRAC).Floor;
    assert 0 <= exact < TWO64;
    assert offset < 1.0 <==> exact < TWO32 by {
      assert offset < 1.0 <==> offset * FRAC < FRAC;
    }
    assert (time + exact % TWO32) % TWO64 == (time + exact) % TWO64 <==> exact % TWO32 == exact;
  }

  lemma FractionBelowOne(offset: real, junk: uint32)
    ensures 0.0 <= offset < 1.0 ==> Fraction(offset, junk) == (offset * 4294967296.0).Floor
  {
    if 0.0 <= offset < 1.0 {
      assert 0.0 <= offset * 4294967296.0 < 4294967296.0;
    }
  }

  // ---- gettime ----

  datatype Stamp = Stamp(localTime: uint64, lastTick: uint32)

  datatype Call = Call(tick: uint32, override: bool)

  function Gap(st: Stamp, call: Call): uint32 { Wrap32(call.tick - st.lastTick) }

  predicate Effective(st: Stamp, call: Call) { call.override || Gap(st, call) >= 10 }

  /** Milliseconds as units of 2^-32 s, rounded down. */
  function Units(ms: nat): nat { ms * TWO32 / 1000 }

  function AfterCall(st: Stamp, call: Call): Stamp {
    if Effective(st, call) then Stamp(Wrap64(st.localTime + Units(Gap(st, call))), call.tick) else st
  }

  function StampOf(c: Clock): Stamp
    reads c
  {
    Stamp(c.localTime, c.lastTick)
  }

  /** Whole seconds carry no rounding: only the milliseconds do. */
  lemma UnitsSplit(ms: nat)
    ensures Units(ms) == ms / 1000 * TWO32 + ms % 1000 * TWO32 / 1000
    ensures 0 <= ms % 1000 * TWO32 / 1000 < TWO32
  {
    var q, r := ms / 1000, ms % 1000;
    assert ms * TWO32 == 1000 * (q * TWO32) + r * TWO32;
  }

  lemma SecondsCarry(hi: uint32, lo: uint32, seconds: nat, fractions: uint32)
    requires seconds < TWO32 - 1
    ensures var low := Wrap32(lo + fractions);
            var secs := if low < lo then Wrap32(seconds + 1) else seconds;
            Join(Wrap32(hi + secs), low) == Wrap64(Join(hi, lo) + (seconds * TWO32 + fractions))
  {
    hide Join, Wrap64;
    var carry := if lo + fractions < TWO32 then 0 else 1;
    JoinWraps(hi + seconds + carry, lo + fractions - carry * TWO32);
  }

  method GetTime(c: Clock, currentTick: uint32, override: bool)
    modifies c`localTime, c`lastTick
    ensures StampOf(c) == AfterCall(old(StampOf(c)), Call(currentTick, override))
    ensures var gap := (currentTick - old(c.lastTick)) % 0x1_0000_0000;
            if gap < 10 && !override then c.localTime == old(c.localTime) && c.lastTick == old(c.lastTick)
            else
              c.lastTick == currentTick &&
              c.localTime == (old(c.localTime) + gap * 0x1_0000_0000 / 1000) % 0x1_0000_0000_0000_0000
  {
    var tickDifference: int := Wrap32(currentTick - c.lastTick);
    if tickDifference < 10 && !override { return; }
    var seconds := tickDifference / 1000;
    var milliseconds := tickDifference % 1000;
    var newFractions := milliseconds * TWO32 / 1000;
    var currentFractions: int, currentSeconds: int := Low(c.localTime), High(c.localTime);
    var tempFractions: int := Wrap32(currentFractions + newFractions);
    JoinSplit(c.localTime);
    SecondsCarry(currentSeconds, currentFractions, seconds, newFractions);
    UnitsSplit(tickDifference);
    if tempFractions < currentFractions {
      seconds := Wrap32(seconds + 1);
    }
    var newSeconds := Wrap32(currentSeconds + seconds);
    c.localTime := Join(newSeconds, tempFractions);
    c.lastTick := currentTick;
  }

  function AfterCalls(st: Stamp, calls: seq<Call>): Stamp
    decreases |calls|
  {
    if calls == [] then st else AfterCalls(AfterCall(st, calls[0]), calls[1..])
  }

  /** Ticks spanned, effective calls, and units added over a run of calls. */
  datatype Tally = Tally(ticks: nat, calls: nat, added: nat)

  function Count(st: Stamp, calls: seq<Call>): Tally
    decreases |calls|
  {
    if calls == [] then Tally(0, 0, 0)
    else
      var rest := Count(AfterCall(st, calls[0]), calls[1..]);
      if Effective(st, calls[0]) then
        var gap := Gap(st, calls[0]);
        Tally(gap + rest.ticks, 1 + rest.calls, Units(gap) + rest.added)
      else rest
  }

  function Advance(st: Stamp, k: Tally): Stamp {
    Stamp(Wrap64(st.localTime + k.added), Wrap32(st.lastTick + k.ticks))
  }

  lemma TickAdds(last: uint32, tick: uint32, more: nat)
    ensures Wrap32(tick + more) == Wrap32(last + (Wrap32(tick - last) + more))
  {
  }

  lemma WrapAdds(x: int, y: int, z: int)
    ensures Wrap64(Wrap64(x + y) + z) == Wrap64(x + (y + z))
  {
  }

  lemma AdvanceTwice(st: Stamp, call: Call, k: Tally)
    requires Effective(st, call)
    ensures Advance(AfterCall(st, call), k)
            == Advance(st, Tally(Gap(st, call) + k.ticks, 1 + k.calls, Units(Gap(st, call)) + k.added))
  {
    var u: int := Units(Gap(st, call));
    WrapAdds(st.localTime, u, k.added);
    TickAdds(st.lastTick, call.tick, k.ticks);
  }

  /** The tally really is what the run does: localTime advances by the units
      added and the tick stamp by the ticks spanned. */
  lemma {:induction false} TallyIsTheRun(st: Stamp, calls: seq<Call>)
    ensures AfterCalls(st, calls) == Advance(st, Count(st, calls))
    decreases |calls|
  {
    if calls != [] {
      var next := AfterCall(st, calls[0]);
      TallyIsTheRun(next, calls[1..]);
      if Effective(st, calls[0]) {
        AdvanceTwice(st, calls[0], Count(next, calls[1..]));
      }
    }
  }

  /** The clock is never ahead of the ticks, and falls behind them by less than
      one unit of 2^-32 s per effective call. */
  lemma {:induction false} DriftBound(st: Stamp, calls: seq<Call>)
    ensures var k := Count(st, calls);
            1000 * k.added <= k.ticks * TWO32 &&
            (if k.calls == 0 then k.ticks == 0 else k.ticks * TWO32 < 1000 * (k.added + k.calls))
    decreases |calls|
  {
    if calls != [] {
      DriftBound(AfterCall(st, calls[0]), calls[1..]);
    }
  }
}
