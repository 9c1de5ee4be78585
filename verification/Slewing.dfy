/** What the one-second phase corrections add up to between two resets. */
module Slewing {
  import opened Words
  import opened Ntp
  import opened Discipline
  import LocalTime

  /** The offset left after a tick at each of the given poll intervals. */
  function Remaining(offset: real, polls: seq<int>): real {
    if polls == [] then offset
    else
      var before := Remaining(offset, polls[..|polls| - 1]);
      before - Correction(before, polls[|polls| - 1])
  }

  /** The sum of the corrections applied to the clock at those ticks. */
  function Applied(offset: real, polls: seq<int>): real {
    if polls == [] then 0.0
    else
      var init := polls[..|polls| - 1];
      Applied(offset, init) + Correction(Remaining(offset, init), polls[|polls| - 1])
  }

  /** Nothing is lost: what was applied and what remains make the start. */
  lemma {:induction false} SlewConserves(offset: real, polls: seq<int>)
    ensures Applied(offset, polls) + Remaining(offset, polls) == offset
  {
    if polls != [] {
      SlewConserves(offset, polls[..|polls| - 1]);
    }
  }

  predicate PollsInRange(polls: seq<int>) {
    forall i :: 0 <= i < |polls| ==> MINPOLL <= polls[i] <= MAXPOLL
  }

  const FASTEST: real := 4194304.0
  const SLOWEST: real := 98304000.0

  lemma DivisorRange(poll: int)
    requires MINPOLL <= poll <= MAXPOLL
    ensures FASTEST <= Divisor(poll) <= SLOWEST
  {
    Pow2Monotone(6, poll);
    assert Pow2(6) == 64;
    assert 64.0 <= MinR(Log2D(poll), ALLAN) <= 1500.0;
  }

  lemma QuotientAtMost(x: real, e: real, q: real)
    requires e > 0.0 && x <= q * e
    ensures x / e <= q
  {
  }

  lemma DivideAntitone(x: real, d: real, e: real)
    requires x >= 0.0 && 0.0 < d <= e
    ensures x / e <= x / d
  {
    var q := x / d;
    assert q >= 0.0;
    assert q * d == x;
    assert q * e >= x;
    QuotientAtMost(x, e, q);
  }

  lemma CorrectionRange(x: real, poll: int)
    requires MINPOLL <= poll <= MAXPOLL && x >= 0.0
    ensures x / SLOWEST <= Correction(x, poll) <= x / FASTEST
  {
    DivisorRange(poll);
    DivideAntitone(x, FASTEST, Divisor(poll));
    DivideAntitone(x, Divisor(poll), SLOWEST);
  }

  function Decay(n: nat): (r: real)
    ensures 0.0 < r <= 1.0
  {
    if n == 0 then 1.0
    else
      var d := Decay(n - 1);
      assert 0.0 < d * (1.0 - 1.0 / SLOWEST) <= d;
      d * (1.0 - 1.0 / SLOWEST)
  }

  lemma StepShrinks(x: real, poll: int)
    requires MINPOLL <= poll <= MAXPOLL && x >= 0.0
    ensures var r := x - Correction(x, poll); 0.0 <= r <= x && (x > 0.0 ==> r > 0.0)
  {
    CorrectionRange(x, poll);
  }

  lemma {:induction false} SlewShrinks(offset: real, polls: seq<int>)
    requires offset >= 0.0 && PollsInRange(polls)
    ensures 0.0 <= Remaining(offset, polls) <= offset
    ensures offset > 0.0 ==> Remaining(offset, polls) > 0.0
  {
    if polls != [] {
      var init := polls[..|polls| - 1];
      SlewShrinks(offset, init);
      StepShrinks(Remaining(offset, init), polls[|polls| - 1]);
    }
  }

  function LowerBound(offset: real, n: nat): real { offset - (n as real) * (offset / FASTEST) }

  lemma LowerStep(offset: real, n: nat)
    ensures LowerBound(offset, n + 1) == LowerBound(offset, n) - offset / FASTEST
  {
    assert (n + 1) as real == n as real + 1.0;
    assert (n as real + 1.0) * (offset / FASTEST) == n as real * (offset / FASTEST) + offset / FASTEST;
  }

  lemma {:induction false} SlewIsSlow(offset: real, polls: seq<int>)
    requires offset >= 0.0 && PollsInRange(polls)
    ensures LowerBound(offset, |polls|) <= Remaining(offset, polls)
  {
    if polls != [] {
      var init := polls[..|polls| - 1];
      SlewIsSlow(offset, init);
      SlewShrinks(offset, init);
      CorrectionRange(Remaining(offset, init), polls[|polls| - 1]);
      LowerStep(offset, |init|);
    }
  }

  function UpperBound(offset: real, n: nat): real { offset * Decay(n) }

  lemma Regroup(a: real, b: real, k: real)
    ensures a * (b * k) == (a * b) * k
  {
  }

  lemma SlowestStep(offset: real, n: nat, x: real)
    requires 0.0 <= x <= UpperBound(offset, n)
    ensures x - x / SLOWEST <= UpperBound(offset, n + 1)
  {
    Regroup(offset, Decay(n), 1.0 - 1.0 / SLOWEST);
  }

  lemma DecayStep(offset: real, n: nat, x: real, poll: int)
    requires MINPOLL <= poll <= MAXPOLL
    requires 0.0 <= x <= UpperBound(offset, n)
    ensures x - Correction(x, poll) <= UpperBound(offset, n + 1)
  {
    CorrectionRange(x, poll);
    SlowestStep(offset, n, x);
  }

  lemma {:induction false} SlewDecays(offset: real, polls: seq<int>)
    requires offset >= 0.0 && PollsInRange(polls)
    ensures Remaining(offset, polls) <= UpperBound(offset, |polls|)
  {
    if polls != [] {
      var init := polls[..|polls| - 1];
      SlewDecays(offset, init);
      SlewShrinks(offset, init);
      DecayStep(offset, |init|, Remaining(offset, init), polls[|polls| - 1]);
    } else {
      assert Decay(0) == 1.0;
    }
  }

  lemma NegatedQuotient(x: real, d: real)
    requires d > 0.0
    ensures (-x) / d == -(x / d)
  {
  }

  lemma {:induction false} NegatedSlew(offset: real, polls: seq<int>)
    ensures Remaining(-offset, polls) == -Remaining(offset, polls)
  {
    if polls != [] {
      var init := polls[..|polls| - 1];
      NegatedSlew(offset, init);
      NegatedQuotient(Remaining(offset, init), Divisor(polls[|polls| - 1]));
    }
  }

  lemma MagnitudeBounds(a: real, polls: seq<int>)
    requires a >= 0.0 && PollsInRange(polls)
    ensures LowerBound(a, |polls|) <= Remaining(a, polls) <= UpperBound(a, |polls|)
    ensures 0.0 <= Remaining(a, polls) <= a && (a > 0.0 ==> Remaining(a, polls) > 0.0)
  {
    SlewShrinks(a, polls);
    SlewIsSlow(a, polls);
    SlewDecays(a, polls);
  }

  /** For any poll sequence in range the offset keeps its sign, and its
      magnitude falls at least as fast as the slowest geometric decay and no
      faster than one part in 64 * 65536 of the start a tick. */
  lemma SlewBounds(offset: real, polls: seq<int>)
    requires PollsInRange(polls)
    ensures var r := Remaining(offset, polls);
            (offset > 0.0 ==> r > 0.0) && (offset < 0.0 ==> r < 0.0) && (offset == 0.0 ==> r == 0.0) &&
            LowerBound(AbsR(offset), |polls|) <= AbsR(r) <= UpperBound(AbsR(offset), |polls|)
  {
    var a := AbsR(offset);
    MagnitudeBounds(a, polls);
    if offset < 0.0 {
      NegatedSlew(a, polls);
      assert offset == -a;
    }
  }

  // ---- Along a run of the client ----

  /** Every update of the local clock in the run leaves the offset as it was. */
  predicate OffsetKept(d: State, events: seq<Event>) {
    events == [] ||
    var init, e := events[..|events| - 1], events[|events| - 1];
    OffsetKept(d, init) && (e.Measure? ==> Run(d, events).offset == Run(d, init).offset)
  }

  /** No update of the run reaches rstclock: each leaves process time alone. */
  predicate NoReset(d: State, events: seq<Event>) {
    events == [] ||
    var init, e := events[..|events| - 1], events[|events| - 1];
    NoReset(d, init) && (e.Measure? ==> Run(d, events).ct == Run(d, init).ct)
  }

  /** An update either reaches rstclock, which moves process time, or keeps the
      offset: a panic, a dropped outlier, an ignored sample, or an inlier during
      frequency measurement. */
  lemma ResetOrKept(d: State, pt: uint64, offset: real, precision: int, junk: Junk)
    requires d.ct < TWO63
    ensures var d' := Update(d, pt, offset, precision, junk).0;
            if AbsR(offset) > PANICT then d'.ct == d.ct && d'.offset == d.offset
            else if AbsR(offset) > STEPT then
              (d'.ct == d.ct <==>
                 d.state == SYNC || ((d.state == FREQ || d.state == SPIK) && Interval(pt, d.st) < WATCH)) &&
              (d'.ct == d.ct ==> d'.offset == d.offset)
            else (d'.ct == d.ct <==> d.state == FREQ) && (d'.ct == d.ct ==> d'.offset == d.offset)
  {
    hide NewJitter, NewWander, LoopGain, PollAdjust, Rate, LocalTime.Fraction, Interval;
  }

  /** So between two resets the offset is kept by every update. */
  lemma {:induction false} BetweenResets(d: State, events: seq<Event>)
    requires NoReset(d, events)
    requires forall k :: 0 <= k <= |events| ==> Run(d, events[..k]).ct < TWO63
    ensures OffsetKept(d, events)
  {
    if events != [] {
      var init, e := events[..|events| - 1], events[|events| - 1];
      forall k | 0 <= k <= |init|
        ensures Run(d, init[..k]).ct < TWO63
      {
        assert init[..k] == events[..k];
      }
      BetweenResets(d, init);
      assert init[..|init|] == init;
      if e.Measure? {
        ResetOrKept(Run(d, init), e.pt, e.offset, e.precision, e.junk);
      }
    }
  }

  /** The poll exponents in force at the ticks of a run. */
  function TickPolls(d: State, events: seq<Event>): seq<int> {
    if events == [] then []
    else
      var init, e := events[..|events| - 1], events[|events| - 1];
      TickPolls(d, init) + (if e.Elapse? then [Run(d, init).poll] else [])
  }

  lemma EmptySlew(offset: real)
    ensures Remaining(offset, []) == offset
  {
  }

  lemma StepSlews(d: State, e: Event)
    requires e.Measure? ==> Next(d, e).offset == d.offset
    ensures Next(d, e).offset == d.offset - if e.Elapse? then Correction(d.offset, d.poll) else 0.0
  {
    hide Correction, Update;
  }

  lemma RemainingGrows(offset: real, polls: seq<int>, poll: int)
    ensures var r := Remaining(offset, polls); Remaining(offset, polls + [poll]) == r - Correction(r, poll)
  {
    hide Correction;
    assert (polls + [poll])[..|polls|] == polls;
  }

  /** Between two resets the client's offset is what the ticks leave of it. */
  lemma {:induction false} SlewAlongRun(d: State, events: seq<Event>)
    requires InRange(d) && OffsetKept(d, events)
    ensures Run(d, events).offset == Remaining(d.offset, TickPolls(d, events))
    ensures PollsInRange(TickPolls(d, events))
  {
    hide Correction, Next, Remaining, InRange;
    if events == [] {
      EmptySlew(d.offset);
    } else {
      var init, e := events[..|events| - 1], events[|events| - 1];
      SlewAlongRun(d, init);
      RunKeepsRange(d, init);
      StepSlews(Run(d, init), e);
      RemainingGrows(d.offset, TickPolls(d, init), Run(d, init).poll);
      assert Run(d, events) == Next(Run(d, init), e);
      var polls := TickPolls(d, init);
      assert TickPolls(d, events) == if e.Elapse? then polls + [Run(d, init).poll] else polls;
    }
  }

  /** So over every such run nothing of the offset is lost, it keeps its sign,
      and its magnitude stays between the two bounds. */
  lemma SlewOverRun(d: State, events: seq<Event>)
    requires InRange(d) && OffsetKept(d, events)
    ensures var left, polls := Run(d, events).offset, TickPolls(d, events);
            left + Applied(d.offset, polls) == d.offset &&
            (d.offset > 0.0 ==> left > 0.0) && (d.offset < 0.0 ==> left < 0.0) && (d.offset == 0.0 ==> left == 0.0) &&
            LowerBound(AbsR(d.offset), |polls|) <= AbsR(left) <= UpperBound(AbsR(d.offset), |polls|)
  {
    hide LowerBound, UpperBound;
    SlewAlongRun(d, events);
    SlewConserves(d.offset, TickPolls(d, events));
    SlewBounds(d.offset, TickPolls(d, events));
  }

  // ---- On the clock itself ----

  lemma QuotientTimes(x: real, y: real)
    requires y > 0.0
    ensures x / y * y == x
  {
  }

  lemma PollFactor(poll: int)
    requires 6 <= poll <= 17
    ensures Divisor(poll) == 65536.0 * (if poll <= 10 then Pow2(poll) as real else 1500.0)
  {
    assert Pow2(10) == 1024;
    assert Pow2(11) == 2048;
    if poll <= 10 {
      Pow2Monotone(poll, 10);
    } else {
      Pow2Monotone(11, poll);
    }
  }

  /** One tick in its fields: the offset gives up its part of a time constant of
      65536 poll intervals, at most 1500 s each, and the local time moves by the
      frequency and that part. */
  lemma TickMovesClock(d: State, junk: Junk)
    requires d.ct < TWO63 && 6 <= d.poll <= 17
    ensures var d' := Tick(d, junk);
            var taken := d.offset - d'.offset;
            d'.ct == d.ct + 1 &&
            taken * (65536.0 * (if d.poll <= 10 then Pow2(d.poll) as real else 1500.0)) == d.offset &&
            (0.0 <= d.freq + taken < 1.0 ==>
               d'.localTime
               == (d.localTime + ((d.freq + taken) * 4294967296.0).Floor) % 0x1_0000_0000_0000_0000)
  {
    hide LocalTime.Fraction, Pow2;
    PollFactor(d.poll);
    var taken := Correction(d.offset, d.poll);
    LocalTime.FractionBelowOne(d.freq + taken, junk.fraction);
    QuotientTimes(d.offset, Divisor(d.poll));
    assert d.offset - (d.offset - taken) == taken;
  }

  /** Between two updates, and at every tick the frequency and the phase
      correction add up to less than a second. */
  predicate Gentle(d: State, events: seq<Event>) {
    events == [] ||
    var init, e := events[..|events| - 1], events[|events| - 1];
    Gentle(d, init) && !e.Measure? &&
    (e.Elapse? ==> 0.0 <= d.freq + (Run(d, init).offset - Run(d, events).offset) < 1.0)
  }

  lemma NothingRun(d: State)
    ensures Run(d, []) == d && TickPolls(d, []) == [] && d.localTime % 0x1_0000_0000_0000_0000 == d.localTime
  {
  }

  lemma OneMoreEvent(d: State, events: seq<Event>)
    requires events != []
    ensures var init, e := events[..|events| - 1], events[|events| - 1];
            Run(d, events) == Next(Run(d, init), e) &&
            |TickPolls(d, events)| == |TickPolls(d, init)| + if e.Elapse? then 1 else 0
  {
    hide Next;
  }

  lemma QuietStep(d: State, e: Event)
    requires !e.Measure? && !e.Elapse?
    ensures var d' := Next(d, e); d'.freq == d.freq && d'.localTime == d.localTime && d'.offset == d.offset
  {
  }

  lemma ModAdds(x: int, y: int)
    ensures (x % 0x1_0000_0000_0000_0000 + y) % 0x1_0000_0000_0000_0000 == (x + y) % 0x1_0000_0000_0000_0000
  {
  }

  lemma FloorStep(freq: real, taken: real)
    requires 0.0 <= freq + taken
    ensures var x := (freq + taken) * 4294967296.0;
            0 <= x.Floor && x - 1.0 < x.Floor as real <= x
  {
  }

  lemma TickAdds(before: State, junk: Junk, start: uint64, added: nat)
    requires InRange(before) && before.localTime == (start + added) % 0x1_0000_0000_0000_0000
    requires 0.0 <= before.freq + (before.offset - Tick(before, junk).offset) < 1.0
    ensures var d' := Tick(before, junk);
            var units := ((before.freq + (before.offset - d'.offset)) * 4294967296.0).Floor;
            d'.freq == before.freq && units >= 0 &&
            d'.localTime == (start + (added + units)) % 0x1_0000_0000_0000_0000
  {
    hide LocalTime.Fraction, Divisor;
    var taken := Correction(before.offset, before.poll);
    assert before.offset - (before.offset - taken) == taken;
    LocalTime.FractionBelowOne(before.freq + taken, junk.fraction);
    FloorStep(before.freq, taken);
    ModAdds(start + added, ((before.freq + taken) * 4294967296.0).Floor);
  }

  /** The units added in n ticks are what frequency and offset owe, short by less
      than one a tick. */
  ghost predicate Owes(n: nat, freq: real, start: real, after: real, added: nat) {
    var owed := 4294967296.0 * (n as real * freq + start - after);
    owed - n as real <= added as real <= owed && (n > 0 ==> owed - n as real < added as real)
  }

  lemma OwedStep(n: nat, freq: real, start: real, before: real, after: real, added: nat, units: int)
    requires Owes(n, freq, start, before, added) && units >= 0
    requires var x := (freq + (before - after)) * 4294967296.0; x - 1.0 < units as real <= x
    ensures Owes(n + 1, freq, start, after, added + units)
  {
    assert (n + 1) as real == n as real + 1.0;
    assert (n as real + 1.0) * freq == n as real * freq + freq;
  }

  lemma ConserveStep(d: State, mid: State, junk: Junk, n: nat, added: nat) returns (more: nat)
    requires InRange(mid) && mid.freq == d.freq
    requires mid.localTime == (d.localTime + added) % 0x1_0000_0000_0000_0000
    requires Owes(n, d.freq, d.offset, mid.offset, added)
    requires 0.0 <= d.freq + (mid.offset - Next(mid, Elapse(junk)).offset) < 1.0
    ensures var d' := Next(mid, Elapse(junk));
            d'.freq == d.freq && d'.localTime == (d.localTime + more) % 0x1_0000_0000_0000_0000 &&
            Owes(n + 1, d.freq, d.offset, d'.offset, more)
  {
    hide Tick, InRange, Owes;
    var d' := Tick(mid, junk);
    var taken := mid.offset - d'.offset;
    var units := ((d.freq + taken) * 4294967296.0).Floor;
    TickAdds(mid, junk, d.localTime, added);
    FloorStep(d.freq, taken);
    OwedStep(n, d.freq, d.offset, mid.offset, d'.offset, added, units);
    more := added + units;
  }

  lemma NothingOwed(freq: real, start: real)
    ensures Owes(0, freq, start, start, 0)
  {
  }

  lemma {:induction false} ConservesAlong(d: State, events: seq<Event>) returns (added: nat)
    requires InRange(d) && Gentle(d, events)
    ensures var d' := Run(d, events);
            d'.freq == d.freq && d'.localTime == (d.localTime + added) % 0x1_0000_0000_0000_0000 &&
            Owes(|TickPolls(d, events)|, d.freq, d.offset, d'.offset, added)
  {
    hide Next, InRange, TickPolls, Run, Owes;
    added := 0;
    if events == [] {
      NothingRun(d);
      NothingOwed(d.freq, d.offset);
    } else {
      var init, e := events[..|events| - 1], events[|events| - 1];
      added := ConservesAlong(d, init);
      RunKeepsRange(d, init);
      OneMoreEvent(d, events);
      if e.Elapse? {
        added := ConserveStep(d, Run(d, init), e.junk, |TickPolls(d, init)|, added);
      } else {
        QuietStep(Run(d, init), e);
      }
    }
  }

  /** The offset is conserved on the clock: over any such run of n ticks the
      local time gains what frequency and offset owe it, short by less than one
      unit a tick. */
  lemma ClockConserves(d: State, events: seq<Event>) returns (added: nat)
    requires InRange(d) && Gentle(d, events)
    ensures var d', n := Run(d, events), |TickPolls(d, events)|;
            d'.freq == d.freq && d'.localTime == (d.localTime + added) % 0x1_0000_0000_0000_0000 &&
            var owed := 4294967296.0 * (n as real * d.freq + d.offset - d'.offset);
            owed - n as real <= added as real <= owed && (n > 0 ==> owed - n as real < added as real)
  {
    hide Run, TickPolls, InRange;
    added := ConservesAlong(d, events);
  }
}
