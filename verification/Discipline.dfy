/** The clock discipline as a state machine over values. */
module Discipline {
  import opened Words
  import opened Ntp
  import opened LocalTime
  import opened Bisection

  const STEPT: real := 0.128
  const WATCH: int := 900
  const PANICT: real := 1000.0
  const PLL: real := 65536.0
  const AVG: real := 4.0
  const ALLAN: real := 1500.0
  const LIMIT: int := 30
  const MAXFREQ: real := 0.0005
  const PGATE: real := 4.0

  datatype Outcome = Ignore | Slew | Step | Panic

  /** The fields of the clock and system structures that the discipline
      reads or writes. */
  datatype State = State(
    state: int, offset: real, last: real, freq: real, count: int, jitter: real, wander: real,
    localTime: uint64, ct: uint64, st: uint64, poll: int)

  /** rstclock. */
  function Reset(d: State, state: int, t: uint64, offset: real): State {
    d.(state := state, last := offset, offset := offset, st := t, ct := Wrap64(d.ct + 1))
  }

  /** Unsigned interval between two process times. */
  function Interval(later: uint64, earlier: uint64): uint64 { Wrap64(later - earlier) }

  /** A quotient by the update interval, unspecified when that is zero. */
  function Rate(x: real, mu: uint64, junk: Junk): real {
    if mu == 0 then junk.quotient else x / (mu as real)
  }

  /** Contribution of the frequency-locked loop, used from half the Allan
      intercept on. */
  function FllGain(change: real, mu: real, poll: int): real {
    if Log2D(poll) > ALLAN / 2.0 then
      var gain := MaxR((MAXPOLL + 1 - poll) as real, AVG);
      assert MaxR(mu, ALLAN) * gain > 0.0;
      change / (MaxR(mu, ALLAN) * gain)
    else 0.0
  }

  function LoopShare(offset: real, span: real, dtemp: real): real
    requires dtemp > 0.0
  {
    assert dtemp * dtemp > 0.0;
    offset * span / (dtemp * dtemp)
  }

  /** Contribution of the phase-locked loop. */
  function PllGain(offset: real, mu: real, poll: int): real {
    LoopShare(offset, MinR(mu, Log2D(poll)), 4.0 * PLL * Log2D(poll))
  }

  /** Frequency contributions of the two loops. */
  function LoopGain(d: State, offset: real, mu: uint64): real {
    FllGain(offset - d.offset, mu as real, d.poll) + PllGain(offset, mu as real, d.poll)
  }

  /** Hysteresis on the poll interval. */
  function PollAdjust(poll: int, count: int, inGate: bool): (int, int) {
    if inGate then
      if count + poll > LIMIT then
        if poll < MAXPOLL then (poll + 1, 0) else (poll, LIMIT)
      else (poll, count + poll)
    else
      if count - 2 * poll < -LIMIT then
        if poll > MINPOLL then (poll - 1, 0) else (poll, -LIMIT)
      else (poll, count - 2 * poll)
  }

  function NewWander(wander: real, freq: real): real {
    SqrtOf(Square(wander) + (Square(freq) - Square(wander)) / AVG)
  }

  /** The tail of local_clock: frequency clamp, wander and poll adjustment. */
  function Tune(d: State, freq: real): State {
    var f := freq + d.freq;
    var (poll, count) := PollAdjust(d.poll, d.count, AbsR(d.offset) < PGATE * d.jitter);
    d.(freq := MaxR(MinR(MAXFREQ, f), -MAXFREQ),
       wander := NewWander(d.wander, f),
       poll := poll, count := count)
  }

  function OnOutlier(d: State, pt: uint64, offset: real, junk: Junk): (State, Outcome) {
    var mu := Interval(pt, d.st);
    if d.state == SYNC then (d, Slew)
    else if (d.state == FREQ || d.state == SPIK) && mu < WATCH then (d, Ignore)
    else
      var freq := if d.state == FREQ then Rate(offset - d.offset, mu, junk) else 0.0;
      var stepped := d.(localTime := Wrap64(d.localTime - Fraction(offset, junk.fraction)),
                        count := 0, poll := MINPOLL);
      if junk.state == NSET then (Reset(stepped, FREQ, pt, 0.0), Step)
      else (Tune(Reset(stepped, SYNC, pt, 0.0), freq), Step)
  }

  function NewJitter(d: State, offset: real, precision: int): real {
    var e := Square(d.jitter);
    SqrtOf((e + (Square(MaxR(AbsR(offset - d.last), Log2D(precision))) - e)) / AVG)
  }

  function OnInlier(d0: State, pt: uint64, offset: real, precision: int, junk: Junk): (State, Outcome) {
    var mu := Interval(pt, d0.st);
    var d := d0.(jitter := NewJitter(d0, offset, precision));
    if d.state == NSET then (Reset(d, FREQ, pt, offset), Ignore)
    else if d.state == FSET then (Tune(Reset(d, SYNC, pt, offset), 0.0), Slew)
    else if d.state == FREQ then
      if Interval(d.ct, d.st) < WATCH then (d, Ignore)
      else (Tune(d, Rate(offset - d.offset, mu, junk)), Slew)
    else (Tune(Reset(d, SYNC, pt, offset), LoopGain(d, offset, mu)), Slew)
  }

  /** local_clock. */
  function Update(d: State, pt: uint64, offset: real, precision: int, junk: Junk): (State, Outcome) {
    if AbsR(offset) > PANICT then (d, Panic)
    else if AbsR(offset) > STEPT then OnOutlier(d, pt, offset, junk)
    else OnInlier(d, pt, offset, precision, junk)
  }

  // ---- Phase slewing ----

  function Divisor(poll: int): (r: real)
    ensures r > 0.0
  {
    PLL * MinR(Log2D(poll), ALLAN)
  }

  function Correction(offset: real, poll: int): real { offset / Divisor(poll) }

  /** One clock_adjust tick, before the peers are polled. */
  function Tick(d: State, junk: Junk): State {
    var dtemp := Correction(d.offset, d.poll);
    d.(ct := Wrap64(d.ct + 1), offset := d.offset - dtemp,
       localTime := Wrap64(d.localTime + Fraction(d.freq + dtemp, junk.fraction)))
  }

  // ---- Runs ----

  /** Everything that happens to the discipline state: an update of the local
      clock, a tick, the sample time that clock_update records, and the poll
      reset it makes after a step. */
  datatype Event =
    | Measure(pt: uint64, offset: real, precision: int, junk: Junk)
    | Elapse(junk: Junk)
    | Sample(t: uint64)
    | PollReset

  function Next(d: State, e: Event): State {
    match e
    case Measure(pt, offset, precision, junk) => Update(d, pt, offset, precision, junk).0
    case Elapse(junk) => Tick(d, junk)
    case Sample(t) => d.(st := t)
    case PollReset => d.(poll := MINPOLL)
  }

  function Run(d: State, events: seq<Event>): State {
    if events == [] then d else Next(Run(d, events[..|events| - 1]), events[|events| - 1])
  }

  predicate InRange(d: State) {
    (d.state == NSET || d.state == FSET || d.state == FREQ || d.state == SYNC) &&
    MINPOLL <= d.poll <= MAXPOLL && -LIMIT <= d.count <= LIMIT
  }

  /** Progress of the state machine towards synchronization. */
  function Rank(state: int): nat { if state == SYNC then 2 else if state == FREQ then 1 else 0 }

  lemma UpdateKeepsRange(d: State, pt: uint64, offset: real, precision: int, junk: Junk)
    requires InRange(d)
    ensures var d' := Update(d, pt, offset, precision, junk).0;
            InRange(d') && Rank(d.state) <= Rank(d'.state) &&
            (d'.freq == d.freq || -MAXFREQ <= d'.freq <= MAXFREQ)
  {
  }

  /** Over every run: the spike state is never entered, the state never moves
      back, poll and counter stay in range, and the frequency stays what it
      was until a first update clamps it, and clamped from then on. */
  lemma {:induction false} RunKeepsRange(d: State, events: seq<Event>)
    requires InRange(d)
    ensures var d' := Run(d, events);
            InRange(d') && Rank(d.state) <= Rank(d'.state) &&
            (d'.freq == d.freq || -MAXFREQ <= d'.freq <= MAXFREQ)
  {
    if events != [] {
      RunKeepsRange(d, events[..|events| - 1]);
      var before, e := Run(d, events[..|events| - 1]), events[|events| - 1];
      if e.Measure? {
        UpdateKeepsRange(before, e.pt, e.offset, e.precision, e.junk);
      }
    }
  }

  /** A synchronized clock is never stepped again: however the run goes on, no
      later update has a step as its outcome, whatever offset it carries. */
  lemma SyncedClockNeverSteps(d: State, events: seq<Event>, pt: uint64, offset: real, precision: int, junk: Junk)
    requires InRange(d) && d.state == SYNC
    ensures Run(d, events).state == SYNC
    ensures Update(Run(d, events), pt, offset, precision, junk).1 != Step
    ensures STEPT < AbsR(offset) <= PANICT ==>
              Update(Run(d, events), pt, offset, precision, junk) == (Run(d, events), Slew)
  {
    RunKeepsRange(d, events);
  }

  /** Every measurement is made with the sample time already recorded, as
      clock_update does. */
  predicate SampledFirst(d: State, events: seq<Event>) {
    events == [] ||
    (SampledFirst(d, events[..|events| - 1]) &&
     (events[|events| - 1].Measure? ==>
        events[|events| - 1].pt == Run(d, events[..|events| - 1]).st))
  }

  /** That makes the update interval zero for every outlier, and an inlier never
      changes this state, so frequency measurement is never left. */
  lemma {:induction false} FrequencyStateIsFinal(d: State, events: seq<Event>)
    requires InRange(d) && d.state == FREQ && SampledFirst(d, events)
    ensures Run(d, events).state == FREQ
  {
    if events != [] {
      FrequencyStateIsFinal(d, events[..|events| - 1]);
      RunKeepsRange(d, events[..|events| - 1]);
    }
  }

  /** The tentative step branch reads an unset state; a run in which it always
      reads as "frequency not set" there. */
  predicate UnsetReadsAsNset(events: seq<Event>) {
    forall i :: 0 <= i < |events| && events[i].Measure? ==> events[i].junk.state == NSET
  }

  /** A client that starts without a stored frequency then never synchronizes:
      its first accepted sample traps it in frequency measurement. */
  lemma {:induction false} NoFrequencyNoSync(d: State, events: seq<Event>)
    requires InRange(d) && (d.state == NSET || d.state == FREQ)
    requires SampledFirst(d, events) && UnsetReadsAsNset(events)
    ensures Run(d, events).state == NSET || Run(d, events).state == FREQ
  {
    if events != [] {
      NoFrequencyNoSync(d, events[..|events| - 1]);
      RunKeepsRange(d, events[..|events| - 1]);
    }
  }

  // ---- Poll hysteresis ----

  function PollRun(poll: int, count: int, gates: seq<bool>): (int, int) {
    if gates == [] then (poll, count)
    else
      var (p, k) := PollRun(poll, count, gates[..|gates| - 1]);
      PollAdjust(p, k, gates[|gates| - 1])
  }

  /** In-gate updates climb: the pair of distances from the maximum poll and
      from the counter limit falls lexicographically. */
  lemma InGateClimbs(poll: int, count: int)
    requires MINPOLL <= poll < MAXPOLL && -LIMIT <= count <= LIMIT
    ensures var (p, k) := PollAdjust(poll, count, true);
            p <= MAXPOLL && -LIMIT <= k <= LIMIT &&
            (MAXPOLL - p < MAXPOLL - poll || (p == poll && LIMIT - k < LIMIT - count))
  {
  }

  function Distance(poll: int, count: int): int { (MAXPOLL - poll) * 61 + (LIMIT - count) }

  lemma {:induction false} ClimbRate(poll: int, count: int, gates: seq<bool>)
    requires MINPOLL <= poll <= MAXPOLL && -LIMIT <= count <= LIMIT
    requires forall i :: 0 <= i < |gates| ==> gates[i]
    ensures var (p, k) := PollRun(poll, count, gates);
            poll <= p <= MAXPOLL && -LIMIT <= k <= LIMIT &&
            (p == MAXPOLL || 0 <= Distance(p, k) <= Distance(poll, count) - 6 * |gates|)
  {
    if gates != [] {
      ClimbRate(poll, count, gates[..|gates| - 1]);
    }
  }

  /** From anywhere, 122 consecutive in-gate updates reach the maximum poll
      interval, and it then stays there. */
  lemma InGateReachesMaximum(poll: int, count: int, gates: seq<bool>)
    requires MINPOLL <= poll <= MAXPOLL && -LIMIT <= count <= LIMIT
    requires |gates| >= 122 && forall i :: 0 <= i < |gates| ==> gates[i]
    ensures PollRun(poll, count, gates).0 == MAXPOLL
  {
    ClimbRate(poll, count, gates);
  }

  function Height(poll: int, count: int): int { (poll - MINPOLL) * 61 + (count + LIMIT) }

  lemma {:induction false} FallRate(poll: int, count: int, gates: seq<bool>)
    requires MINPOLL <= poll <= MAXPOLL && -LIMIT <= count <= LIMIT
    requires forall i :: 0 <= i < |gates| ==> !gates[i]
    ensures var (p, k) := PollRun(poll, count, gates);
            MINPOLL <= p <= poll && -LIMIT <= k <= LIMIT &&
            (p == MINPOLL || 0 <= Height(p, k) <= Height(poll, count) - 12 * |gates|)
  {
    if gates != [] {
      FallRate(poll, count, gates[..|gates| - 1]);
    }
  }

  /** Out-of-gate updates come down twice as fast. */
  lemma OutOfGateReachesMinimum(poll: int, count: int, gates: seq<bool>)
    requires MINPOLL <= poll <= MAXPOLL && -LIMIT <= count <= LIMIT
    requires |gates| >= 61 && forall i :: 0 <= i < |gates| ==> !gates[i]
    ensures PollRun(poll, count, gates).0 == MINPOLL
  {
    FallRate(poll, count, gates);
  }

  // ---- Poll hysteresis along a run ----

  /** An update that tunes the frequency and, after it, whether the offset is
      inside the gate. */
  predicate Tunes(d: State, e: Event) {
    e.Measure? && AbsR(e.offset) <= STEPT && d.state != NSET && !(d.state == FREQ && Interval(d.ct, d.st) < WATCH)
  }

  predicate Inside(d: State) { AbsR(d.offset) < PGATE * d.jitter }

  /** Every event of the run is a tick, a sample time, or an update that tunes. */
  predicate Tuning(d: State, events: seq<Event>) {
    events == [] ||
    var init, e := events[..|events| - 1], events[|events| - 1];
    Tuning(d, init) && (e.Elapse? || e.Sample? || Tunes(Run(d, init), e))
  }

  /** The gate each update of the run found. */
  function Gates(d: State, events: seq<Event>): seq<bool> {
    if events == [] then []
    else
      var init, e := events[..|events| - 1], events[|events| - 1];
      Gates(d, init) + (if e.Measure? then [Inside(Run(d, events))] else [])
  }

  lemma EmptyGates(poll: int, count: int)
    ensures PollRun(poll, count, []) == (poll, count)
  {
  }

  lemma OneMoreGate(poll: int, count: int, gates: seq<bool>, gate: bool)
    ensures var (p, k) := PollRun(poll, count, gates); PollRun(poll, count, gates + [gate]) == PollAdjust(p, k, gate)
  {
    assert (gates + [gate])[..|gates|] == gates;
  }

  lemma StepFollowsGate(d: State, e: Event)
    requires e.Elapse? || e.Sample? || Tunes(d, e)
    ensures var d' := Next(d, e);
            (d'.poll, d'.count) == if e.Measure? then PollAdjust(d.poll, d.count, Inside(d')) else (d.poll, d.count)
  {
    hide NewJitter, NewWander, LoopGain, PollAdjust, Rate, Fraction, Interval, Correction;
  }

  /** Along such a run poll exponent and counter follow the hysteresis. */
  lemma {:induction false} RunFollowsGates(d: State, events: seq<Event>)
    requires Tuning(d, events)
    ensures (Run(d, events).poll, Run(d, events).count) == PollRun(d.poll, d.count, Gates(d, events))
  {
    hide Next, PollAdjust, Tunes, Inside, PollRun;
    EmptyGates(d.poll, d.count);
    if events != [] {
      var init, e := events[..|events| - 1], events[|events| - 1];
      RunFollowsGates(d, init);
      StepFollowsGate(Run(d, init), e);
      OneMoreGate(d.poll, d.count, Gates(d, init), Inside(Run(d, events)));
      assert !e.Measure? ==> Gates(d, events) == Gates(d, init);
    }
  }

  /** 122 consecutive updates inside the gate bring any client to the longest
      system poll interval. */
  lemma RunClimbsToMaximum(d: State, events: seq<Event>)
    requires InRange(d) && Tuning(d, events) && |Gates(d, events)| >= 122
    requires forall i :: 0 <= i < |Gates(d, events)| ==> Gates(d, events)[i]
    ensures Run(d, events).poll == MAXPOLL
  {
    hide Gates, Tuning, Run, PollRun;
    RunFollowsGates(d, events);
    InGateReachesMaximum(d.poll, d.count, Gates(d, events));
  }

  /** And 61 outside it to the shortest. */
  lemma RunFallsToMinimum(d: State, events: seq<Event>)
    requires InRange(d) && Tuning(d, events) && |Gates(d, events)| >= 61
    requires forall i :: 0 <= i < |Gates(d, events)| ==> !Gates(d, events)[i]
    ensures Run(d, events).poll == MINPOLL
  {
    hide Gates, Tuning, Run, PollRun;
    RunFollowsGates(d, events);
    OutOfGateReachesMinimum(d.poll, d.count, Gates(d, events));
  }

  // ---- What an update does to the clock, in its fields ----

  lemma FractionOf(offset: real, junk: uint32)
    ensures 0.0 <= offset < 1.0 ==> Fraction(offset, junk) == (offset * 4294967296.0).Floor
    ensures 1.0 <= offset <= 1000.0 ==> Fraction(offset, junk) == (offset * 4294967296.0).Floor % 0x1_0000_0000
  {
    FractionBelowOne(offset, junk);
  }

  /** A step happens exactly outside the step threshold, inside the panic
      threshold, before synchronization, and not while the stepout interval still
      runs. It takes the low word of the offset off the local time and starts
      over; nothing else moves the local time. */
  lemma StepMovesClock(d: State, pt: uint64, offset: real, precision: int, junk: Junk)
    ensures var (d', outcome) := Update(d, pt, offset, precision, junk);
            (outcome == Panic <==> offset < -1000.0 || offset > 1000.0) &&
            (outcome == Step <==>
               (-1000.0 <= offset < -0.128 || 0.128 < offset <= 1000.0) && d.state != SYNC &&
               ((d.state == FREQ || d.state == SPIK) ==> (pt - d.st) % 0x1_0000_0000_0000_0000 >= 900)) &&
            (outcome != Step ==> d'.localTime == d.localTime) &&
            (outcome == Step && 0.0 <= offset < 1.0 ==>
               d'.localTime == (d.localTime - (offset * 4294967296.0).Floor) % 0x1_0000_0000_0000_0000) &&
            (outcome == Step && offset >= 1.0 ==>
               d'.localTime
               == (d.localTime - (offset * 4294967296.0).Floor % 0x1_0000_0000) % 0x1_0000_0000_0000_0000) &&
            (outcome == Step ==>
               d'.offset == 0.0 && d'.last == 0.0 && d'.st == pt &&
               d'.state == (if junk.state == NSET then FREQ else SYNC) &&
               (d'.state == FREQ ==> d'.count == 0 && d'.poll == 6 && d'.freq == d.freq))
  {
    hide NewJitter, NewWander, LoopGain, PollAdjust, Rate, Fraction;
    FractionOf(offset, junk.fraction);
  }

  lemma QuarterOf(e: real, m: real, square: real, quarter: real)
    requires square == Square(m) && quarter == (e + (square - e)) / 4.0
    ensures 4.0 * quarter == m * m
  {
  }

  /** The clock jitter forgets: it is half the last offset's move, or half the
      precision if that is more, whatever it was before. */
  lemma JitterForgets(d: State, offset: real, precision: int) returns (quarter: real)
    ensures var move := if offset < d.last then d.last - offset else offset - d.last;
            var m := if move < Log2D(precision) then Log2D(precision) else move;
            4.0 * quarter == m * m && NewJitter(d, offset, precision) == SqrtOf(quarter)
  {
    hide SqrtOf, Log2D, Square;
    var m := MaxR(AbsR(offset - d.last), Log2D(precision));
    var e := Square(d.jitter);
    quarter := (e + (Square(m) - e)) / AVG;
    QuarterOf(e, m, Square(m), quarter);
  }

  lemma PollPeriods(poll: int)
    requires 6 <= poll <= 17
    ensures Log2D(poll) > 0.0 && (Log2D(poll) > 750.0 <==> poll >= 10)
  {
    assert Pow2(9) == 512;
    assert Pow2(10) == 1024;
    if poll >= 10 {
      Pow2Monotone(10, poll);
    } else {
      Pow2Monotone(poll, 9);
    }
  }

  lemma IdleFll(change: real, poll: int)
    requires 6 <= poll <= 17
    ensures var gain := if poll <= 14 then (18 - poll) as real else 4.0;
            FllGain(change, 0.0, poll) == if poll <= 9 then 0.0 else change / (1500.0 * gain)
  {
    hide Log2D;
    PollPeriods(poll);
    assert MaxR(0.0, ALLAN) == 1500.0;
    assert MaxR((MAXPOLL + 1 - poll) as real, AVG) == if poll <= 14 then (18 - poll) as real else 4.0;
  }

  lemma PositiveTimes(x: real, y: real, z: real)
    requires x > 0.0 && y > 0.0 && z == x * y
    ensures z > 0.0
  {
  }

  lemma ZeroOver(x: real, zero: real, q: real, y: real)
    requires zero == 0.0 && q == x * zero && y > 0.0
    ensures q / y == 0.0
  {
  }

  lemma ZeroShare(offset: real, zero: real, dtemp: real)
    requires zero == 0.0 && dtemp > 0.0
    ensures LoopShare(offset, zero, dtemp) == 0.0
  {
    var y := dtemp * dtemp;
    PositiveTimes(dtemp, dtemp, y);
    ZeroOver(offset, zero, offset * zero, y);
  }

  lemma IdlePll(offset: real, poll: int)
    requires 6 <= poll <= 17
    ensures PllGain(offset, 0.0, poll) == 0.0
  {
    hide Log2D;
    PollPeriods(poll);
    assert MinR(0.0, Log2D(poll)) == 0.0;
    ZeroShare(offset, MinR(0.0, Log2D(poll)), 4.0 * PLL * Log2D(poll));
  }

  lemma IdleLoops(d: State, offset: real)
    requires 6 <= d.poll <= 17
    ensures var gain := if d.poll <= 14 then (18 - d.poll) as real else 4.0;
            LoopGain(d, offset, 0) == if d.poll <= 9 then 0.0 else (offset - d.offset) / (1500.0 * gain)
  {
    hide FllGain, PllGain;
    IdleFll(offset - d.offset, d.poll);
    IdlePll(offset, d.poll);
    assert 0 as real == 0.0;
  }

  /** While synchronized every update inside the step threshold takes over the
      offset. With the sample time recorded first, as clock_update does, the
      phase-locked loop contributes nothing, and the frequency-locked one only
      from a poll interval of 2^10 on; so below that the frequency stays. */
  lemma SyncUpdateTunes(d: State, offset: real, precision: int, junk: Junk)
    requires d.state == SYNC && 6 <= d.poll <= 17 && -0.128 <= offset <= 0.128 && -0.0005 <= d.freq <= 0.0005
    ensures var (d', outcome) := Update(d, d.st, offset, precision, junk);
            outcome == Slew && d'.offset == offset && d'.last == offset && d'.state == SYNC &&
            (d.poll <= 9 ==> d'.freq == d.freq) &&
            (d.poll >= 10 ==>
               var gain := if d.poll <= 14 then (18 - d.poll) as real else 4.0;
               var f := d.freq + (offset - d.offset) / (1500.0 * gain);
               d'.freq == if f > 0.0005 then 0.0005 else if f < -0.0005 then -0.0005 else f)
  {
    hide NewJitter, NewWander, PollAdjust, Rate, Fraction, LoopGain;
    IdleLoops(d.(jitter := NewJitter(d, offset, precision)), offset);
  }

  lemma MixedSquares(w: real, f: real, g: real, ww: real, ff: real, mix: real)
    requires ww == Square(w) && ff == Square(g + f) && mix == ww + (ff - ww) / 4.0
    ensures 4.0 * mix == 3.0 * w * w + (f + g) * (f + g)
  {
  }

  /** The wander mixes a quarter of the new square with three of the old. */
  lemma WanderMixes(d: State, freq: real) returns (mix: real)
    ensures 4.0 * mix == 3.0 * d.wander * d.wander + (d.freq + freq) * (d.freq + freq)
    ensures Tune(d, freq).wander == SqrtOf(mix)
  {
    hide PollAdjust, SqrtOf, Square;
    var f := freq + d.freq;
    mix := Square(d.wander) + (Square(f) - Square(d.wander)) / AVG;
    MixedSquares(d.wander, d.freq, freq, Square(d.wander), Square(f), mix);
  }

  lemma {:induction false} ClimbSoFar(poll: int, n: nat)
    requires 6 <= poll < 17 && n * poll <= 30
    ensures PollRun(poll, 0, seq(n, _ => true)) == (poll, n * poll)
  {
    if n > 0 {
      var gates := seq(n, _ => true);
      assert gates[..n - 1] == seq(n - 1, _ => true);
      assert (n - 1) * poll == n * poll - poll;
      ClimbSoFar(poll, n - 1);
    }
  }

  /** From a cleared counter, poll exponent p takes exactly 30 / p + 1 in-gate
      adjustments to rise, and 30 / (2 p) + 1 out-of-gate ones to fall. */
  lemma ExactClimb(poll: int, n: nat)
    requires 6 <= poll < 17 && n == 30 / poll
    ensures PollRun(poll, 0, seq(n, _ => true)) == (poll, n * poll)
    ensures PollRun(poll, 0, seq(n + 1, _ => true)) == (poll + 1, 0)
  {
    ClimbSoFar(poll, n);
    var gates := seq(n + 1, _ => true);
    assert gates[..n] == seq(n, _ => true);
    assert (n + 1) * poll > 30;
  }

  lemma {:induction false} FallSoFar(poll: int, n: nat)
    requires 6 < poll <= 17 && 2 * n * poll <= 30
    ensures PollRun(poll, 0, seq(n, _ => false)) == (poll, -(2 * n * poll))
  {
    if n > 0 {
      var gates := seq(n, _ => false);
      assert gates[..n - 1] == seq(n - 1, _ => false);
      assert 2 * (n - 1) * poll == 2 * n * poll - 2 * poll;
      FallSoFar(poll, n - 1);
    }
  }

  lemma ExactFall(poll: int, n: nat)
    requires 6 < poll <= 17 && n == 30 / (2 * poll)
    ensures PollRun(poll, 0, seq(n, _ => false)) == (poll, -(2 * n * poll))
    ensures PollRun(poll, 0, seq(n + 1, _ => false)) == (poll - 1, 0)
  {
    FallSoFar(poll, n);
    var gates := seq(n + 1, _ => false);
    assert gates[..n] == seq(n, _ => false);
    assert 2 * (n + 1) * poll > 30;
  }

  // ---- The loop gains in numbers ----

  lemma ShareTimes(x: real, y: real)
    requires y > 0.0
    ensures x / y * y == x
  {
  }

  /** For any update interval the phase-locked share times the square of its time
      constant is the offset over the shorter of the two intervals. */
  lemma PllGainInNumbers(offset: real, mu: real, poll: int)
    requires mu >= 0.0 && 6 <= poll <= 17
    ensures var period := Pow2(poll) as real;
            var constant := 262144.0 * period;
            PllGain(offset, mu, poll) * (constant * constant) == offset * (if mu < period then mu else period)
  {
    hide Pow2;
    var period := Pow2(poll) as real;
    var dtemp := 4.0 * PLL * Log2D(poll);
    var square := dtemp * dtemp;
    PositiveTimes(dtemp, dtemp, square);
    ShareTimes(offset * MinR(mu, Log2D(poll)), square);
  }

  /** The frequency-locked share times its interval and gain is the change of the
      offset, from a poll interval of 2^10 on. */
  lemma FllGainInNumbers(change: real, mu: real, poll: int)
    requires mu >= 0.0 && 6 <= poll <= 17
    ensures poll <= 9 ==> FllGain(change, mu, poll) == 0.0
    ensures poll >= 10 ==>
              FllGain(change, mu, poll)
              * ((if mu > 1500.0 then mu else 1500.0) * (if poll <= 14 then (18 - poll) as real else 4.0))
              == change
  {
    hide Log2D;
    PollPeriods(poll);
    var interval, gain := MaxR(mu, ALLAN), MaxR((MAXPOLL + 1 - poll) as real, AVG);
    var scale := interval * gain;
    PositiveTimes(interval, gain, scale);
    ShareTimes(change, scale);
  }

  lemma RateInNumbers(x: real, mu: uint64, junk: Junk)
    requires mu > 0
    ensures Rate(x, mu, junk) * (mu as real) == x
  {
  }

  /** Where an offset inside the step threshold takes the state machine: the
      first one starts frequency measurement, or synchronizes a client that has
      its frequency; measurement ignores samples for the stepout interval and then
      corrects the frequency, but keeps the phase. */
  lemma InlierMoves(d: State, pt: uint64, offset: real, precision: int, junk: Junk)
    requires -0.128 <= offset <= 0.128 && InRange(d)
    ensures var (d', outcome) := Update(d, pt, offset, precision, junk);
            (d.state == NSET ==>
               outcome == Ignore && d'.state == FREQ && d'.offset == offset &&
               d'.freq == d.freq && d'.poll == d.poll) &&
            (d.state == FSET ==>
               outcome == Slew && d'.state == SYNC && d'.offset == offset &&
               (-0.0005 <= d.freq <= 0.0005 ==> d'.freq == d.freq)) &&
            (d.state == FREQ ==>
               d'.state == FREQ && d'.offset == d.offset && d'.ct == d.ct &&
               (outcome == Ignore <==> (d.ct - d.st) % 0x1_0000_0000_0000_0000 < 900) &&
               (outcome == Ignore ==> d'.freq == d.freq) && (outcome != Ignore ==> outcome == Slew)) &&
            (d.state == SYNC ==> outcome == Slew && d'.state == SYNC && d'.offset == offset) &&
            (d.state != FREQ ==> d'.last == offset && d'.st == pt)
  {
    hide NewJitter, NewWander, LoopGain, PollAdjust, Rate;
  }
}
