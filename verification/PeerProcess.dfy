/** The clock filter and packet processing. */
module PeerProcess {
  import opened Words
  import opened Ntp
  import opened HalfWord
  import opened Reach
  import opened Bisection
  import opened Combine
  import opened Discipline
  import opened Association
  import opened SystemProcess
  import opened PollTimer
  import Codec

  const SGATE: real := 3.0
  const BDELAY: real := 0.004

  // ---- clock_filter ----

  /** The filter after the ascending shift: every later stage is the previous
      newest sample, one step of aging older than the stage before. */
  ghost predicate ShiftedFilter(before: seq<Stage>, after: seq<Stage>, aging: real, sample: Stage) {
    |before| == |after| == NSTAGE && after[0] == sample &&
    forall i :: 1 <= i < NSTAGE ==> after[i] == before[0].(disp := before[0].disp + i as real * aging)
  }

  method ShiftFilter(f: array<Stage>, aging: real, sample: Stage)
    requires f.Length == NSTAGE
    modifies f
    ensures ShiftedFilter(old(f[..]), f[..], aging, sample)
  {
    for i := 1 to NSTAGE
      invariant f[0] == old(f[0])
      invariant forall k :: 1 <= k < i ==> f[k] == old(f[0]).(disp := old(f[0]).disp + k as real * aging)
    {
      f[i] := f[i - 1];
      f[i] := f[i].(disp := f[i].disp + aging);
    }
    f[0] := sample;
  }

  /** Dispersion the stages add, halved once more at each stage. */
  function WeightedDisp(f: seq<Stage>): real {
    if f == [] then 0.0 else WeightedDisp(f[..|f| - 1]) + f[|f| - 1].disp / (Pow2(|f|) as real)
  }

  function SquaredOffsets(f: seq<Stage>, base: real): real {
    if f == [] then 0.0 else SquaredOffsets(f[..|f| - 1], base) + SquareOf(f[|f| - 1].offset - base)
  }

  function Half(x: real): real { x / 2.0 }

  lemma NonNegativeQuotient(x: real, d: real)
    requires x >= 0.0 && d > 0.0
    ensures x / d >= 0.0
  {
  }

  /** The sum is at least half the newest sample's dispersion. */
  lemma {:induction false} WeightedDispBound(f: seq<Stage>)
    requires forall i :: 0 <= i < |f| ==> f[i].disp >= 0.0
    ensures WeightedDisp(f) >= 0.0
    ensures |f| > 0 ==> WeightedDisp(f) >= Half(f[0].disp)
  {
    if f != [] {
      WeightedDispBound(f[..|f| - 1]);
      NonNegativeQuotient(f[|f| - 1].disp, Pow2(|f|) as real);
      if |f| == 1 {
        assert Pow2(1) == 2;
      }
    }
  }

  method AccumulateStages(p: Peer)
    requires p.f.Length == NSTAGE
    modifies p`disp, p`jitter
    ensures p.disp == old(p.disp) + WeightedDisp(p.f[..])
    ensures p.jitter == old(p.jitter) + SquaredOffsets(p.f[..], p.f[0].offset)
  {
    for i := 0 to NSTAGE
      invariant p.disp == old(p.disp) + WeightedDisp(p.f[..i])
      invariant p.jitter == old(p.jitter) + SquaredOffsets(p.f[..i], p.f[0].offset)
    {
      assert p.f[..i + 1][..i] == p.f[..i];
      var result := p.f[i].disp / (Pow2(i + 1) as real);
      p.disp := p.disp + result;
      p.jitter := p.jitter + SquareOf(p.f[i].offset - p.f[0].offset);
    }
    assert p.f[..NSTAGE] == p.f[..];
  }

  /** The offset, delay and dispersion of a sample. */
  datatype Sample = Reading(offset: real, delay: real, disp: real)

  /** How a sample fared: not newer than the last one, a spike, taken without
      selecting because a burst is on, or taken and followed by a selection. */
  datatype Filtered = NotNewer | Spike | Held | Selected(verdict: Verdict)

  /** What the clock filter keeps of a peer. */
  datatype Registers = Registers(f: seq<Stage>, t: uint64, offset: real, delay: real, disp: real, jitter: real)

  ghost function RegistersOf(p: Peer): Registers
    reads p`t, p`offset, p`delay, p`disp, p`jitter, p.f
  {
    Registers(p.f[..], p.t, p.offset, p.delay, p.disp, p.jitter)
  }

  /** The registers after sample x entered at process time ct; the peer's time
      is not yet moved. */
  ghost predicate Entered(a: Registers, b: Registers, x: Sample, ct: uint64, precision: int) {
    ShiftedFilter(a.f, b.f, Aging(ct - a.t), Stage(ct, x.offset, x.delay, x.disp)) &&
    b.t == a.t && b.offset == x.offset && b.delay == x.delay &&
    b.disp == a.disp + WeightedDisp(b.f) &&
    b.jitter == MaxR(SqrtOf(a.jitter + SquaredOffsets(b.f, x.offset)), Log2D(precision))
  }

  predicate IsSpike(a: Registers, b: Registers, now: Moment) {
    AbsR(b.offset - a.offset) > SGATE * b.jitter && now.t - a.t < 2 * now.poll
  }

  /** The whole step of the clock filter, up to the selection. */
  ghost predicate Filtering(result: Filtered, a: Registers, b: Registers, x: Sample, before: Snapshot, burst: int,
                            precision: int) {
    var now := MomentOf(before);
    Entered(a, b.(t := a.t), x, now.t, precision) &&
    (result == NotNewer <==> a.t == now.t && before.vars.leap != NOSYNC) &&
    (result == Spike <==> result != NotNewer && IsSpike(a, b, now)) &&
    (result == Held ==> burst != 0) && (result.Selected? ==> burst == 0) &&
    b.t == if result == NotNewer || result == Spike then a.t else now.t
  }

  /** Once synchronized, the client selects only on a strictly newer sample. */
  lemma FilteringAdvances(result: Filtered, a: Registers, b: Registers, x: Sample, before: Snapshot, burst: int,
                          precision: int)
    requires Filtering(result, a, b, x, before, burst, precision)
    requires result.Selected? && before.vars.leap != NOSYNC && a.t <= before.d.ct
    ensures a.t < b.t
  {
  }

  // ---- What a sample of non-negative dispersion keeps ----

  predicate Clean(a: Registers) { a.disp >= 0.0 && forall i :: 0 <= i < |a.f| ==> a.f[i].disp >= 0.0 }

  lemma StagesAge(before: seq<Stage>, after: seq<Stage>, aging: real, sample: Stage)
    requires ShiftedFilter(before, after, aging, sample) && aging >= 0.0 && sample.disp >= 0.0
    requires forall i :: 0 <= i < NSTAGE ==> before[i].disp >= 0.0
    ensures forall i :: 0 <= i < NSTAGE ==> after[i].disp >= 0.0
    ensures after[0] == sample
  {
    forall i | 1 <= i < NSTAGE
      ensures after[i].disp >= 0.0
    {
      assert i as real * aging >= 0.0;
    }
  }

  /** Such a sample only adds dispersion, at least half its own. */
  lemma EnteredClean(a: Registers, b: Registers, x: Sample, ct: uint64, precision: int)
    requires Entered(a, b, x, ct, precision) && Clean(a) && x.disp >= 0.0 && a.t <= ct
    ensures Clean(b) && b.disp >= a.disp + Half(x.disp)
  {
    hide WeightedDisp, SquaredOffsets, SqrtOf;
    AgingNonNegative(ct - a.t);
    StagesAge(a.f, b.f, Aging(ct - a.t), Stage(ct, x.offset, x.delay, x.disp));
    WeightedDispBound(b.f);
  }

  lemma FilteringClean(result: Filtered, a: Registers, b: Registers, x: Sample, before: Snapshot, burst: int,
                       precision: int)
    requires Filtering(result, a, b, x, before, burst, precision)
    requires Clean(a) && x.disp >= 0.0 && a.t <= before.d.ct
    ensures Clean(b) && b.disp >= a.disp + Half(x.disp)
  {
    hide Entered;
    EnteredClean(a, b.(t := a.t), x, before.d.ct, precision);
  }

  /** Only a sample that passed the filter reaches the selection. */
  ghost predicate SelectedBy(result: Filtered, before: Snapshot, d: State, s: Sys, peers: seq<Peer>, junk: Junk)
    reads s, s.m, s.v
    reads peers`leap, peers`stratum, peers`refid, peers`reach, peers`rootdelay, peers`delay,
          peers`rootdisp, peers`disp, peers`offset, peers`t, peers`jitter, peers`reftime
  {
    if result.Selected? then Selection(result.verdict, before, d, s, peers, junk)
    else Snapshot(d, VarsOf(s), s.p, s.v[..]) == before
  }

  lemma StageTimes(before: seq<Stage>, after: seq<Stage>, aging: real, sample: Stage, ct: uint64)
    requires ShiftedFilter(before, after, aging, sample) && sample.t <= ct
    requires forall i :: 0 <= i < NSTAGE ==> before[i].t <= ct
    ensures forall i :: 0 <= i < NSTAGE ==> after[i].t <= ct
    ensures after[0] == sample
  {
  }

  method FilterSample(c: Clock, s: Sys, p: Peer, x: Sample)
    requires c.t < TWO63 && PeerOk(p, c.t)
    modifies p`offset, p`delay, p`disp, p`jitter, p.f
    ensures PeerOk(p, c.t)
    ensures Entered(old(RegistersOf(p)), RegistersOf(p), x, c.t, s.precision)
  {
    hide SqrtOf, WeightedDisp, SquaredOffsets, ShiftedFilter, Pack, Log2D, Aging;
    DifferenceExact(c.t, p.t);
    var aging := Aging(Difference(c.t, p.t));
    var sample := Stage(c.t, x.offset, x.delay, x.disp);
    ShiftFilter(p.f, aging, sample);
    StageTimes(old(p.f[..]), p.f[..], aging, sample, c.t);
    p.offset := x.offset;
    p.delay := x.delay;
    AccumulateStages(p);
    ghost var halvings;
    var root;
    root, halvings := Sqrt(p.jitter);
    SqrtNonNegative(p.jitter);
    p.jitter := MaxR(root, Log2D(s.precision));
  }

  lemma IndexOf(peers: seq<Peer>, p: Peer) returns (k: nat)
    requires p in peers
    ensures k < |peers| && peers[k] == p
  {
    k :| 0 <= k < |peers| && peers[k] == p;
  }

  /** Everything clock_filter does to the peer before it decides. */
  method TakeSample(c: Clock, s: Sys, peers: seq<Peer>, p: Peer, x: Sample)
    requires c.t < TWO63 && PeersOk(peers, c.t) && p in peers
    modifies p`offset, p`delay, p`disp, p`jitter, p.f
    ensures PeersOk(peers, c.t)
    ensures Entered(old(RegistersOf(p)), RegistersOf(p), x, c.t, s.precision)
  {
    hide Entered;
    ghost var k := IndexOf(peers, p);
    FilterSample(c, s, p, x);
    assert forall i :: 0 <= i < NMAX && i != k ==> PeerOk(peers[i], c.t);
  }

  method RefreshTime(c: Clock, peers: seq<Peer>, p: Peer)
    requires PeersOk(peers, c.t) && p in peers
    modifies p`t
    ensures PeersOk(peers, c.t) && p.t == c.t
  {
    ghost var k := IndexOf(peers, p);
    p.t := c.t;
    assert forall i :: 0 <= i < NMAX && i != k ==> PeerOk(peers[i], c.t);
  }

  lemma TimesOrdered(peers: seq<Peer>, p: Peer, ct: uint64)
    requires PeersOk(peers, ct) && p in peers
    ensures p.t <= ct
  {
    var k :| 0 <= k < |peers| && peers[k] == p;
  }

  lemma HealthyParts(c: Clock, s: Sys, peers: seq<Peer>)
    requires Healthy(c, s, peers)
    ensures c.t < TWO63 && InRange(DisciplineOf(c, s))
  {
  }

  method ClockFilter(c: Clock, s: Sys, peers: seq<Peer>, p: Peer, x: Sample, junk: Junk) returns (result: Filtered)
    requires Healthy(c, s, peers) && c.t < TWO63 - 1 && p in peers
    modifies p`t, p`offset, p`delay, p`disp, p`jitter, p.f, c, s, s.m, s.v
    ensures Healthy(c, s, peers)
    ensures Progress(old(DisciplineOf(c, s)), DisciplineOf(c, s)) && c.t <= old(c.t) + 1
    ensures Filtering(result, old(RegistersOf(p)), RegistersOf(p), x, old(Snap(c, s)), p.burst, s.precision)
    ensures SelectedBy(result, old(Snap(c, s)), DisciplineOf(c, s), s, peers, junk)
    ensures c.lastTick == old(c.lastTick)
    ensures result.Selected? && old(s.leap) != NOSYNC ==> old(p.t) < p.t
    ensures old(c.state) == SYNC ==> result != Selected(Done(Step))
  {
    hide ShiftedFilter, WeightedDisp, SquaredOffsets, SqrtOf, SysOk, PeersOk, Selection, Log2D;
    ghost var before, a := Snap(c, s), RegistersOf(p);
    var previous := p.offset;
    HealthyParts(c, s, peers);
    TimesOrdered(peers, p, c.t);
    HistoryOpen(peers, p, c.t);
    TakeSample(c, s, peers, p, x);
    DifferenceExact(c.t, p.t);
    if Difference(c.t, p.t) <= 0 && s.leap != NOSYNC {
      return NotNewer;
    }
    if AbsR(p.offset - previous) > SGATE * p.jitter && Difference(c.t, p.t) < 2 * s.poll {
      return Spike;
    }
    ghost var b := RegistersOf(p);
    RefreshTime(c, peers, p);
    assert RegistersOf(p) == b.(t := c.t);
    if p.burst != 0 {
      return Held;
    }
    ghost var ct := c.t;
    var verdict := ClockSelect(c, s, peers, junk);
    PeersOkLater(peers, ct, c.t);
    result := Selected(verdict);
  }

  // ---- packet ----

  /** A received header with its arrival time. */
  datatype Message = Message(h: Codec.Header, dst: uint64)

  function Seconds(d: int): real { d as real / FRAC }

  function SampleDisp(m: Message, precision: int): real {
    Log2D(m.h.precision) + Log2D(precision)
    + if m.h.mode == M_BCST then PHI * 2.0 * BDELAY else Aging(Difference(m.dst, m.h.org))
  }

  function SampleOf(m: Message, precision: int): Sample {
    var h := m.h;
    if h.mode == M_BCST then
      Reading(Seconds(Difference(h.xmt, m.dst)), BDELAY, SampleDisp(m, precision))
    else
      Reading(Seconds(LossySum(Difference(h.rec, h.org), Difference(m.dst, h.xmt))) / 2.0,
              MaxR(Seconds(Difference(Wrap64(Difference(m.dst, h.org)), Wrap64(Difference(h.rec, h.xmt)))),
                   Log2D(precision)),
              SampleDisp(m, precision))
  }

  lemma SampleHasDisp(m: Message, precision: int)
    ensures SampleOf(m, precision).disp == SampleDisp(m, precision)
  {
  }

  lemma Log2DPositive(a: int)
    ensures Log2D(a) > 0.0
  {
  }

  lemma AgingOdd(d: int)
    ensures Aging(-d) == -Aging(d)
  {
  }

  /** A sample's dispersion is negative exactly when origin and arrival lie at
      least 2^63 units apart and their complement outweighs both precisions. */
  lemma SampleDispersion(m: Message, precision: int)
    ensures var distance := Abs(m.dst - m.h.org);
            SampleDisp(m, precision) < 0.0 <==>
            m.h.mode != M_BCST && distance >= TWO63 &&
            Aging(TWO64 - distance) > Log2D(m.h.precision) + Log2D(precision)
  {
    hide Log2D;
    Log2DPositive(m.h.precision);
    Log2DPositive(precision);
    var d := Difference(m.dst, m.h.org);
    if Abs(m.dst - m.h.org) < TWO63 {
      DifferenceExact(m.dst, m.h.org);
      AgingNonNegative(d);
    } else {
      assert d == Abs(m.dst - m.h.org) - TWO64;
      AgingOdd(d);
    }
  }

  /** Header checks that make packet() give up before it counts a reply. */
  predicate Accepted(h: Codec.Header) {
    h.leap != NOSYNC && h.stratum != 0 && h.stratum < MAXSTRAT &&
    Wrap32(h.rootdelay / 2 + h.rootdisp) < 16 && h.reftime <= h.xmt
  }

  function StratumOf(h: Codec.Header): int { if h.stratum == 0 then MAXSTRAT else h.stratum }

  // ---- What a negative dispersion does ----

  /** An accepted message: origin and receive time zero, arrival half the range
      later. */
  const BACKDATED: Message :=
    Message(Codec.Header(0, 4, M_SERV, 1, 6, -18, 0, 0, 0, 0, 0, 0, TWO63), TWO63)

  lemma BackdatedParts()
    ensures Difference(TWO63, 0) == Difference(0, TWO63) == -TWO63
    ensures Difference(0, 0) == Difference(TWO63, TWO63) == 0
    ensures Wrap64(-TWO63) == TWO63 && LossySum(0, 0) == 0
  {
  }

  lemma SmallPrecision()
    ensures 0.0 < Log2D(-18) <= 0.001
  {
    assert Pow2(18) == 262144 by { assert Pow2(9) == 512; assert Pow2(18) == 512 * Pow2(9); }
  }

  lemma NegativeDispersionExists()
    ensures Accepted(BACKDATED.h) && SampleDisp(BACKDATED, -18) < -32212.0
    ensures SampleOf(BACKDATED, -18).offset == 0.0
  {
    hide Difference, LossySum, Wrap64, Log2D, Pow2;
    BackdatedParts();
    SmallPrecision();
    assert Aging(-TWO63) < -32212.1;
  }

  lemma EmptyWeight()
    ensures WeightedDisp([]) == 0.0
  {
  }

  lemma PowersToEight()
    ensures Pow2(1) == 2 && Pow2(2) == 4 && Pow2(3) == 8 && Pow2(4) == 16
    ensures Pow2(5) == 32 && Pow2(6) == 64 && Pow2(7) == 128 && Pow2(8) == 256
  {
  }

  lemma OneMoreStage(f: seq<Stage>, i: nat, d: real)
    requires i < |f| && Pow2(i + 1) as real == d
    ensures WeightedDisp(f[..i + 1]) == WeightedDisp(f[..i]) + f[i].disp / d
  {
    assert f[..i + 1][..i] == f[..i];
  }

  lemma WeightedEight(f: seq<Stage>)
    requires |f| == NSTAGE
    ensures WeightedDisp(f) ==
            f[0].disp / 2.0 + f[1].disp / 4.0 + f[2].disp / 8.0 + f[3].disp / 16.0 + f[4].disp / 32.0
            + f[5].disp / 64.0 + f[6].disp / 128.0 + f[7].disp / 256.0
  {
    hide WeightedDisp, Pow2;
    PowersToEight();
    assert f[..8] == f && f[..0] == [];
    assert WeightedDisp([]) == 0.0 by { EmptyWeight(); }
    OneMoreStage(f, 0, 2.0);
    OneMoreStage(f, 1, 4.0);
    OneMoreStage(f, 2, 8.0);
    OneMoreStage(f, 3, 16.0);
    OneMoreStage(f, 4, 32.0);
    OneMoreStage(f, 5, 64.0);
    OneMoreStage(f, 6, 128.0);
    OneMoreStage(f, 7, 256.0);
  }

  /** The dispersion a sample leaves, in closed form: the ascending shift makes
      seven aged copies of the previous newest stage. */
  lemma DispersionAfter(a: Registers, b: Registers, x: Sample, ct: uint64, precision: int)
    requires Entered(a, b, x, ct, precision)
    ensures b.disp == a.disp + x.disp / 2.0 + (127.0 * a.f[0].disp + 247.0 * Aging(ct - a.t)) / 256.0
  {
    hide Aging, SqrtOf, SquaredOffsets;
    WeightedEight(b.f);
  }

  /** So the root distance falls below its floor exactly when the sample's
      dispersion is negative enough to outweigh all that is there. */
  lemma FloorFails(now: uint64, p: Peer, a: Registers, x: Sample, ct: uint64, precision: int)
    requires Entered(a, RegistersOf(p).(t := a.t), x, ct, precision)
    ensures var rest := MaxR(MINDISP, p.rootdelay + p.delay) / 2.0 + p.rootdisp + Aging(Difference(now, p.t)) + p.jitter
                        + a.disp + (127.0 * a.f[0].disp + 247.0 * Aging(ct - a.t)) / 256.0;
            RootDist(now, p) < MINDISP / 2.0 <==> x.disp < MINDISP - 2.0 * rest
  {
    hide Entered, Aging;
    DispersionAfter(a, RegistersOf(p).(t := a.t), x, ct, precision);
  }

  lemma SunkDistance(p: Peer, a: Registers, x: Sample, ct: uint64)
    requires Entered(a, RegistersOf(p).(t := a.t), x, ct, -18) && a.t == ct == p.t
    requires a.disp <= 1.0 && a.f[0].disp <= 1.0 && p.jitter <= 1.0 && Aging(0) == 0.0
    requires p.rootdelay == 0.0 && p.rootdisp == 0.0 && p.delay <= 1.0 && x.disp < -1000.0
    ensures RootDist(ct, p) < 0.0
  {
    hide Entered, Aging;
    DispersionAfter(a, RegistersOf(p).(t := a.t), x, ct, -18);
    assert Difference(ct, ct) == 0;
  }

  lemma BackdatedDelay()
    ensures SampleOf(BACKDATED, -18).delay <= 1.0
  {
    hide Difference, LossySum, Wrap64, Log2D, Pow2, SampleDisp;
    SmallPrecision();
    BackdatedParts();
  }

  lemma SmallRoot(x: real)
    requires 0.0 <= x <= 1.0
    ensures SqrtOf(x) <= 1.0
  {
    BisectNonNegative(x, 0.0, 1.0);
  }

  lemma {:induction false} NoDeviation(f: seq<Stage>)
    requires forall i :: 0 <= i < |f| ==> f[i].offset == 0.0
    ensures SquaredOffsets(f, 0.0) == 0.0
  {
    if f != [] {
      NoDeviation(f[..|f| - 1]);
    }
  }

  /** It does for a newly mobilized association and that message. */
  lemma BackdatedReplySinks(p: Peer, a: Registers, ct: uint64)
    requires a.f == seq(NSTAGE, _ => Stage(0, 0.0, 0.0, MAXDISP_ALG)) && a.t == ct == p.t && a.disp == MAXDISP_ALG
    requires a.jitter == Log2D(-18) && p.rootdelay == 0.0 && p.rootdisp == 0.0
    requires Entered(a, RegistersOf(p).(t := a.t), SampleOf(BACKDATED, -18), ct, -18)
    ensures RootDist(ct, p) < 0.0
  {
    hide Log2D, RootDist, SampleOf, SampleDisp, SqrtOf;
    var x := SampleOf(BACKDATED, -18);
    NegativeDispersionExists();
    SampleHasDisp(BACKDATED, -18);
    NoDeviation(p.f[..]);
    SmallPrecision();
    SmallRoot(Log2D(-18));
    assert Aging(0) == 0.0;
    BackdatedDelay();
    SunkDistance(p, a, x, ct);
  }

  // ---- Accepting a packet ----

  lemma HistoryOpen(peers: seq<Peer>, p: Peer, ct: uint64)
    requires PeersOk(peers, ct) && p in peers
    ensures p.replies != []
  {
    var k := IndexOf(peers, p);
  }

  /** The poll update and reach bit of an accepted packet. */
  method CountReply(c: Clock, peers: seq<Peer>, spread: Spread, p: Peer)
    requires c.t < TWO63 && PeersOk(peers, c.t) && p in peers
    modifies p`hpoll, p`nextdate, p`spaced, p`reach, p`replies, spread
    ensures PeersOk(peers, c.t)
    ensures p.hpoll == old(p.hpoll)
    ensures p.reach == SetLowest(old(p.reach)) && p.replies == old(p.replies)[0 := true]
    ensures p.burst > 0 ==>
              p.spaced == old(p.spaced) &&
              (p.nextdate, spread.lastNextdate) == InBurst(c.t, old(p.nextdate), old(spread.lastNextdate))
    ensures p.burst <= 0 ==>
              p.spaced && (p.nextdate, spread.lastNextdate) ==
              NextDate(c.t, p.outdate, p.ppoll, p.hpoll, old(spread.lastNextdate))
  {
    hide NextDate, InBurst;
    ghost var k := IndexOf(peers, p);
    PollUpdate(p, c, spread, p.hpoll);
    MarkHistory(p.replies);
    p.reach := SetLowest(p.reach);
    p.replies := p.replies[0 := true];
    assert forall i :: 0 <= i < NMAX && i != k ==> PeerOk(peers[i], c.t);
  }

  /** packet() once the header has passed. */
  method Accept(c: Clock, s: Sys, peers: seq<Peer>, spread: Spread, p: Peer, m: Message, junk: Junk)
    returns (result: Filtered)
    requires Healthy(c, s, peers) && c.t < TWO63 - 1 && p in peers
    modifies p`hpoll, p`nextdate, p`spaced, p`reach, p`replies, spread
    modifies p`t, p`offset, p`delay, p`disp, p`jitter, p.f, c, s, s.m, s.v
    ensures Healthy(c, s, peers)
    ensures Progress(old(DisciplineOf(c, s)), DisciplineOf(c, s)) && c.t <= old(c.t) + 1
    ensures p.replies == old(p.replies)[0 := true] && p.reach == SetLowest(old(p.reach)) && p.hpoll == old(p.hpoll)
    ensures Filtering(result, old(RegistersOf(p)), RegistersOf(p), SampleOf(m, s.precision), old(Snap(c, s)),
                      p.burst, s.precision)
    ensures SelectedBy(result, old(Snap(c, s)), DisciplineOf(c, s), s, peers, junk)
    ensures p.burst > 0 ==>
              p.spaced == old(p.spaced) &&
              (p.nextdate, spread.lastNextdate) == InBurst(old(c.t), old(p.nextdate), old(spread.lastNextdate))
    ensures p.burst <= 0 ==>
              p.spaced && (p.nextdate, spread.lastNextdate) ==
              NextDate(old(c.t), p.outdate, p.ppoll, p.hpoll, old(spread.lastNextdate))
    ensures result.Selected? && old(s.leap) != NOSYNC ==> old(p.t) < p.t
    ensures old(c.state) == SYNC ==> result != Selected(Done(Step))
  {
    hide NextDate, InBurst, SysOk, PeersOk, SampleOf, SampleDisp, Filtering, SelectedBy, SetLowest;
    HistoryOpen(peers, p, c.t);
    CountReply(c, peers, spread, p);
    result := ClockFilter(c, s, peers, p, SampleOf(m, s.precision), junk);
  }

  ghost predicate HeaderCopied(p: Peer, h: Codec.Header)
    reads p`leap, p`stratum, p`pmode, p`ppoll, p`rootdelay, p`rootdisp, p`refid, p`reftime
  {
    p.leap == h.leap && p.stratum == StratumOf(h) && p.pmode == h.mode && p.ppoll == h.poll &&
    p.rootdelay == h.rootdelay as real / FRIC && p.rootdisp == h.rootdisp as real / FRIC &&
    p.refid == h.refid && p.reftime == h.reftime
  }

  method CopyHeader(c: Clock, p: Peer, h: Codec.Header)
    requires PeerOk(p, c.t)
    modifies p`leap, p`stratum, p`pmode, p`ppoll, p`rootdelay, p`rootdisp, p`refid, p`reftime
    ensures PeerOk(p, c.t) && HeaderCopied(p, h)
  {
    p.leap := h.leap;
    if h.stratum == 0 {
      p.stratum := MAXSTRAT;
    } else {
      p.stratum := h.stratum;
    }
    p.pmode := h.mode;
    p.ppoll := h.poll;
    p.rootdelay := h.rootdelay as real / FRIC;
    p.rootdisp := h.rootdisp as real / FRIC;
    p.refid := h.refid;
    p.reftime := h.reftime;
  }

  /** packet() copies the header into the association. */
  method LightUp(c: Clock, peers: seq<Peer>, p: Peer, h: Codec.Header)
    requires PeersOk(peers, c.t) && p in peers
    modifies p`leap, p`stratum, p`pmode, p`ppoll, p`rootdelay, p`rootdisp, p`refid, p`reftime
    ensures PeersOk(peers, c.t)
    ensures HeaderCopied(p, h)
  {
    hide HeaderCopied;
    ghost var k := IndexOf(peers, p);
    CopyHeader(c, p, h);
    assert forall i :: 0 <= i < NMAX && i != k ==> PeerOk(peers[i], c.t);
  }

  /** The header checks, on the fields just copied. */
  method Screen(p: Peer, h: Codec.Header) returns (passed: bool)
    requires HeaderCopied(p, h)
    ensures passed <==> Accepted(h)
  {
    if p.leap == NOSYNC || p.stratum >= MAXSTRAT {
      return false;
    }
    if Wrap32(h.rootdelay / 2 + h.rootdisp) >= 16 || p.reftime > h.xmt {
      return false;
    }
    return true;
  }

  method Packet(c: Clock, s: Sys, peers: seq<Peer>, spread: Spread, p: Peer, m: Message, junk: Junk)
    returns (accepted: bool, result: Filtered)
    requires Healthy(c, s, peers) && c.t < TWO63 - 1 && p in peers
    modifies p, p.f, c, s, s.m, s.v, spread
    ensures Healthy(c, s, peers)
    ensures accepted <==> Accepted(m.h)
    ensures Progress(old(DisciplineOf(c, s)), DisciplineOf(c, s)) && c.t <= old(c.t) + 1
    ensures HeaderCopied(p, m.h)
    ensures p.burst == old(p.burst) && p.outdate == old(p.outdate) && p.unreach == old(p.unreach)
    ensures p.replies == if accepted then old(p.replies)[0 := true] else old(p.replies)
    ensures p.reach == if accepted then SetLowest(old(p.reach)) else old(p.reach)
    ensures accepted ==>
              Filtering(result, old(RegistersOf(p)), RegistersOf(p), SampleOf(m, s.precision), old(Snap(c, s)),
                        p.burst, s.precision)
    ensures accepted ==> SelectedBy(result, old(Snap(c, s)), DisciplineOf(c, s), s, peers, junk)
    ensures !accepted ==>
              RegistersOf(p) == old(RegistersOf(p)) && p.nextdate == old(p.nextdate) && p.spaced == old(p.spaced) &&
              spread.lastNextdate == old(spread.lastNextdate) && Snap(c, s) == old(Snap(c, s))
    ensures accepted && p.burst > 0 ==>
              p.spaced == old(p.spaced) &&
              (p.nextdate, spread.lastNextdate) == InBurst(old(c.t), old(p.nextdate), old(spread.lastNextdate))
    ensures accepted && p.burst <= 0 ==>
              p.spaced && (p.nextdate, spread.lastNextdate) ==
              NextDate(old(c.t), p.outdate, p.ppoll, p.hpoll, old(spread.lastNextdate))
    ensures p.hpoll == old(p.hpoll)
    ensures accepted && result.Selected? && old(s.leap) != NOSYNC ==> old(p.t) < p.t
    ensures old(c.state) == SYNC ==> result != Selected(Done(Step))
  {
    hide NextDate, InBurst, SysOk, PeersOk, SampleOf, SampleDisp, Filtering, SelectedBy, SetLowest;
    hide HeaderCopied, Accepted, RegistersOf, Snap;
    result := NotNewer;
    accepted := false;
    LightUp(c, peers, p, m.h);
    accepted := Screen(p, m.h);
    if !accepted {
      return;
    }
    result := Accept(c, s, peers, spread, p, m, junk);
  }

  // ---- The negative dispersion end to end ----

  lemma BackdatedHeader(p: Peer)
    requires HeaderCopied(p, BACKDATED.h)
    ensures p.rootdelay == p.rootdisp == 0.0
  {
  }

  /** In one go: mobilize an association and put that message's header and sample
      into it. It is still sound in all that does not depend on dispersions. */
  method SinkAssociation(c: Clock, s: Sys) returns (p: Peer)
    requires c.t < TWO63
    ensures fresh(p) && PeerOk(p, c.t) && RootDist(c.t, p) < 0.0
  {
    hide Entered, HeaderCopied, SampleOf, Pack, RootDist;
    p := new Peer(c, 0, 0, false, false);
    PackOne(32);
    Log2DPositive(-18);
    CopyHeader(c, p, BACKDATED.h);
    BackdatedHeader(p);
    ghost var a := RegistersOf(p);
    assert a.f == seq(NSTAGE, _ => Stage(0, 0.0, 0.0, MAXDISP_ALG));
    FilterSample(c, s, p, SampleOf(BACKDATED, s.precision));
    BackdatedReplySinks(p, a, c.t);
  }

  // ---- Sample and filter in the fields of message and peer ----

  lemma SignBit(x: int)
    ensures Signed32(x) < 0 <==> x % 0x1_0000_0000 >= 0x8000_0000
  {
  }

  lemma SumOfLows(a: int, b: int)
    ensures (a % 0x1_0000_0000 + b % 0x1_0000_0000) % 0x1_0000_0000 == (a + b) % 0x1_0000_0000
  {
  }

  lemma LowHalvesSum(a: nat, b: nat)
    requires a < 0x8000_0000_0000_0000 && b < 0x8000_0000_0000_0000
    ensures LowSum(a, b) >= 0 <==> (a + b) % 0x1_0000_0000 < 0x8000_0000
    ensures Signed32(a) < 0 <==> a % 0x1_0000_0000 >= 0x8000_0000
    ensures Signed32(b) < 0 <==> b % 0x1_0000_0000 >= 0x8000_0000
  {
    hide Signed32, LowSum;
    LowHalves(a, b);
    SignBit(a);
    SignBit(b);
    SignBit(a % 0x1_0000_0000 + b % 0x1_0000_0000);
    SumOfLows(a, b);
  }

  /** The sum of two magnitudes below 2^63 is exact in terms of their low halves. */
  lemma MagnitudesAdd(a: nat, b: nat)
    requires a < 0x8000_0000_0000_0000 && b < 0x8000_0000_0000_0000 && a + b < 0x8000_0000_0000_0000
    ensures LossySum(a, b) == a + b <==>
            (a + b) % 0x1_0000_0000 < 0x8000_0000 &&
            !(a % 0x1_0000_0000 >= 0x8000_0000 && b % 0x1_0000_0000 >= 0x8000_0000)
  {
    hide LossySum;
    SumExact(a, b);
    assert Signed64(a + b) == a + b;
    LowHalvesSum(a, b);
    assert Signed64(a + b) / TWO32 >= 0;
  }

  lemma HalvedUnits(d: int, sum: int)
    ensures 8589934592.0 * (Seconds(d) / 2.0) == sum as real <==> d == sum
  {
    assert 8589934592.0 * (Seconds(d) / 2.0) == d as real;
  }

  /** The offset of a unicast message from its four stamps: half the sum of the
      two one-way magnitudes, exactly when that sum fits the signed halves. */
  lemma OffsetFromStamps(m: Message, precision: int)
    requires m.h.mode != 5 && Abs(m.h.rec - m.h.org) + Abs(m.dst - m.h.xmt) < 0x8000_0000_0000_0000
    ensures var out, back := Abs(m.h.rec - m.h.org), Abs(m.dst - m.h.xmt);
            8589934592.0 * SampleOf(m, precision).offset == (out + back) as real <==>
            (out + back) % 0x1_0000_0000 < 0x8000_0000 &&
            !(out % 0x1_0000_0000 >= 0x8000_0000 && back % 0x1_0000_0000 >= 0x8000_0000)
  {
    hide Log2D, LossySum, SampleDisp, Seconds;
    var out, back := Abs(m.h.rec - m.h.org), Abs(m.dst - m.h.xmt);
    DifferenceExact(m.h.rec, m.h.org);
    DifferenceExact(m.dst, m.h.xmt);
    MagnitudesAdd(out, back);
    HalvedUnits(LossySum(out, back), out + back);
  }

  /** Its delay is the difference of the two spans, not below the precision, and
      its dispersion ages with the whole round trip. */
  lemma DelayFromStamps(m: Message, precision: int)
    requires m.h.mode != 5 && Abs(m.dst - m.h.org) < 0x8000_0000_0000_0000
    requires Abs(m.h.rec - m.h.xmt) < 0x8000_0000_0000_0000
    ensures var total, held := Abs(m.dst - m.h.org), Abs(m.h.rec - m.h.xmt);
            var span := Abs(total - held) as real / 4294967296.0;
            SampleOf(m, precision).delay == (if span < Log2D(precision) then Log2D(precision) else span) &&
            SampleOf(m, precision).disp
            == Log2D(m.h.precision) + Log2D(precision) + 0.000015 * (total as real / 4294967296.0)
  {
    hide Log2D, LossySum;
    var total, held := Abs(m.dst - m.h.org), Abs(m.h.rec - m.h.xmt);
    DifferenceExact(m.dst, m.h.org);
    DifferenceExact(m.h.rec, m.h.xmt);
    DifferenceExact(total, held);
  }

  lemma BroadcastSample(m: Message, precision: int)
    requires m.h.mode == 5 && Abs(m.h.xmt - m.dst) < 0x8000_0000_0000_0000
    ensures var x := SampleOf(m, precision);
            4294967296.0 * x.offset == Abs(m.h.xmt - m.dst) as real && x.delay == 0.004 &&
            x.disp == Log2D(m.h.precision) + Log2D(precision) + 0.00000012
  {
    hide Log2D;
    DifferenceExact(m.h.xmt, m.dst);
  }

  lemma {:induction false} SquaresSoFar(f: seq<Stage>, base: real, square: real, n: nat)
    requires 1 <= n <= |f| && f[0].offset == base
    requires forall i :: 1 <= i < |f| ==> SquareOf(f[i].offset - base) == square
    ensures SquaredOffsets(f[..n], base) == (n - 1) as real * square
  {
    hide SquareOf;
    assert f[..n][..n - 1] == f[..n - 1];
    if n == 1 {
      SquareIsProduct(f[0].offset - base);
      assert f[..0] == [];
    } else {
      SquaresSoFar(f, base, square, n - 1);
      assert (n - 1) as real == (n - 2) as real + 1.0;
      assert ((n - 2) as real + 1.0) * square == (n - 2) as real * square + square;
    }
  }

  lemma SevenTimes(gap: real, square: real, squares: real)
    requires square == gap * gap && squares == (8 - 1) as real * square
    ensures squares == 7.0 * gap * gap
  {
  }

  /** The peer's jitter after a sample, in closed form: the seven older stages all
      hold the previous newest offset. */
  lemma JitterAfter(a: Registers, b: Registers, x: Sample, ct: uint64, precision: int) returns (sum: real)
    requires Entered(a, b, x, ct, precision)
    ensures sum == a.jitter + 7.0 * (a.f[0].offset - x.offset) * (a.f[0].offset - x.offset)
    ensures b.jitter == if SqrtOf(sum) < Log2D(precision) then Log2D(precision) else SqrtOf(sum)
  {
    hide Log2D, SqrtOf, Aging, WeightedDisp, SquareOf, SquaredOffsets;
    sum := a.jitter + SquaredOffsets(b.f, x.offset);
    var gap := a.f[0].offset - x.offset;
    SquareIsProduct(gap);
    var f, square := b.f, SquareOf(gap);
    SquaresSoFar(f, x.offset, square, 8);
    assert f[..8] == f;
    SevenTimes(gap, square, SquaredOffsets(f, x.offset));
  }

  /** The decisions of the filter in numbers. */
  lemma FilteringInNumbers(result: Filtered, a: Registers, b: Registers, x: Sample, before: Snapshot, burst: int,
                           precision: int)
    requires Filtering(result, a, b, x, before, burst, precision)
    ensures b.offset == x.offset && b.delay == x.delay
    ensures result == NotNewer <==> a.t == before.d.ct && before.vars.leap != 3
    ensures var move := if x.offset < a.offset then a.offset - x.offset else x.offset - a.offset;
            result == Spike <==>
            !(a.t == before.d.ct && before.vars.leap != 3) &&
            move > 3.0 * b.jitter && before.d.ct - a.t < 2 * before.d.poll
    ensures result == Held ==> burst != 0 && b.t == before.d.ct
    ensures result.Selected? ==> burst == 0 && b.t == before.d.ct
    ensures result == NotNewer || result == Spike ==> b.t == a.t
  {
    hide ShiftedFilter, WeightedDisp, SquaredOffsets, SqrtOf;
  }

  /** An accepted unicast packet leaves the peer with the offset its stamps give. */
  lemma PacketOffset(result: Filtered, a: Registers, b: Registers, m: Message, before: Snapshot, burst: int,
                     precision: int)
    requires Filtering(result, a, b, SampleOf(m, precision), before, burst, precision) && m.h.mode != 5
    requires var out, back := Abs(m.h.rec - m.h.org), Abs(m.dst - m.h.xmt);
             out + back < 0x8000_0000_0000_0000 && (out + back) % 0x1_0000_0000 < 0x8000_0000 &&
             !(out % 0x1_0000_0000 >= 0x8000_0000 && back % 0x1_0000_0000 >= 0x8000_0000)
    ensures 8589934592.0 * b.offset == (Abs(m.h.rec - m.h.org) + Abs(m.dst - m.h.xmt)) as real
  {
    hide SampleOf, SampleDisp;
    FilteringInNumbers(result, a, b, SampleOf(m, precision), before, burst, precision);
    OffsetFromStamps(m, precision);
  }

  /** The header checks in numbers. */
  lemma AcceptedInNumbers(p: Peer, h: Codec.Header)
    requires HeaderCopied(p, h)
    ensures Accepted(h) <==>
            p.leap != 3 && 1 <= h.stratum <= 15 && p.reftime <= h.xmt &&
            (h.rootdelay / 2 + h.rootdisp) % 0x1_0000_0000 < 16
    ensures 65536.0 * p.rootdelay == h.rootdelay as real && 65536.0 * p.rootdisp == h.rootdisp as real
    ensures p.stratum == if h.stratum == 0 then 16 else h.stratum
  {
  }
}
