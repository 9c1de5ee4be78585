/** What every run keeps of a single peer, packet by packet and poll by poll. */
module Upkeep {
  import opened Words
  import opened Ntp
  import opened Reach
  import opened Discipline
  import opened Association
  import opened SystemProcess
  import opened PollTimer
  import opened PeerProcess
  import opened PollProcess

  /** A message whose sample has a dispersion the root distance can bear. */
  predicate Plausible(m: Message) { Accepted(m.h) ==> SampleDisp(m, -18) >= 0.0 }

  // ---- Dispersion and history ----

  /** No dispersion is negative, and a peer that let two neighbouring intervals
      pass in silence has that of a dummy sample. */
  ghost predicate Sound(p: Peer)
    reads p`t, p`offset, p`delay, p`disp, p`jitter, p`replies, p.f
  {
    Clean(RegistersOf(p)) && p.replies != [] && (p.disp >= Half(MAXDISP) || Steady(p.replies))
  }

  ghost predicate AllSound(peers: seq<Peer>)
    reads peers`t, peers`offset, peers`delay, peers`disp, peers`jitter, peers`replies
    reads set i | 0 <= i < |peers| :: peers[i].f
  {
    forall i :: 0 <= i < |peers| ==> Sound(peers[i])
  }

  lemma SoundDisps(peers: seq<Peer>)
    requires AllSound(peers)
    ensures DispsOk(peers)
  {
    forall i | 0 <= i < |peers|
      ensures peers[i].disp >= 0.0
    {
      assert Sound(peers[i]);
    }
  }

  /** A sound peer that is fit has a steady history. */
  lemma FitIsSteady(now: Moment, p: Peer)
    requires Sound(p) && Fit(now, p)
    requires PeerOk(p, now.t) && now.t < TWO63 && MINPOLL <= now.poll <= MAXPOLL
    ensures Steady(p.replies)
  {
    hide Fit, PeerOk, Steady;
    if p.disp >= 8.0 {
      DispersionEight(now, p);
    }
  }

  /** A poll that opens an interval keeps the peer sound. */
  lemma SoundAfterPoll(p: Peer, ct: uint64, a: Registers, replies: seq<bool>)
    requires Clean(a) && replies != [] && (a.disp >= Half(MAXDISP) || Steady(replies))
    requires PeerOk(p, ct) && p.replies == [false] + replies && Clean(RegistersOf(p))
    requires p.disp >= a.disp + if p.reach % 8 == 0 then Half(MAXDISP) else 0.0
    ensures Sound(p)
  {
    hide Steady;
    if a.disp < Half(MAXDISP) {
      SteadyUnlessSilent(replies);
    }
  }

  /** So does a packet, as long as it adds no negative dispersion. */
  lemma SoundAfterPacket(p: Peer, a: Registers, replies: seq<bool>)
    requires Clean(a) && replies != [] && (a.disp >= Half(MAXDISP) || Steady(replies))
    requires p.replies == replies || p.replies == replies[0 := true]
    requires Clean(RegistersOf(p)) && p.disp >= a.disp
    ensures Sound(p)
  {
    hide Steady;
    if Steady(replies) {
      MarkKeepsSteady(replies);
    }
  }

  lemma SoundUnfolds(p: Peer)
    requires Sound(p)
    ensures Clean(RegistersOf(p)) && p.replies != [] && (p.disp >= Half(MAXDISP) || Steady(p.replies))
  {
  }

  // ---- Dates and back-off ----

  /** What decides when a peer is polled. */
  datatype Timing = Timing(mayBurst: bool, burst: int, outdate: int32, nextdate: int32, spaced: bool,
                           replies: seq<bool>, unreach: int, hpoll: int)

  ghost function TimingOf(p: Peer): Timing
    reads p`burst, p`outdate, p`nextdate, p`spaced, p`replies, p`unreach, p`hpoll
  {
    Timing(p.iburstFlag || p.burstFlag, p.burst, p.outdate, p.nextdate, p.spaced, p.replies, p.unreach, p.hpoll)
  }

  /** A configured unicast peer: no bursts, and dates that lie between the
      minimum interval and the longest one while they fit an int. */
  ghost predicate DatesOk(g: Timing, ct: uint64) {
    !g.mayBurst && g.burst == 0 &&
    (ct + REACH_AHEAD < TWO31 ==>
       0 <= g.outdate <= ct && g.outdate <= g.nextdate <= MaxI(ct + 1, g.outdate + REACH_AHEAD) &&
       (g.spaced ==> g.outdate + 64 <= g.nextdate))
  }

  /** After n polls that found the register empty the unreach counter has
      reached twice n and the poll exponent n, up to their limits. */
  ghost predicate BackedOff(h: seq<bool>, unreach: int, hpoll: int) {
    forall n: nat :: n < |h| && Quiet(h, n) ==> unreach >= MinI(UNREACH, 2 * n) && hpoll >= MinI(MAXPOLL, n)
  }

  ghost predicate TimingOk(g: Timing, ct: uint64) {
    DatesOk(g, ct) && BackedOff(g.replies, g.unreach, g.hpoll)
  }

  ghost predicate TimerOk(p: Peer, ct: uint64)
    reads p`burst, p`outdate, p`nextdate, p`spaced, p`replies, p`unreach, p`hpoll
  {
    TimingOk(TimingOf(p), ct)
  }

  ghost predicate AllTimersOk(peers: seq<Peer>, ct: uint64)
    reads peers`burst, peers`outdate, peers`nextdate, peers`spaced, peers`replies, peers`unreach, peers`hpoll
  {
    forall i :: 0 <= i < |peers| ==> TimerOk(peers[i], ct)
  }

  lemma TimersLater(peers: seq<Peer>, earlier: uint64, later: uint64)
    requires AllTimersOk(peers, earlier) && earlier <= later
    ensures AllTimersOk(peers, later)
  {
  }

  lemma TimerLater(p: Peer, earlier: uint64, later: uint64)
    requires TimerOk(p, earlier) && earlier <= later
    ensures TimerOk(p, later)
  {
  }

  /** A fresh date respects both bounds. */
  lemma DateKept(g: Timing, ppoll: int, at: uint64, now: uint64, last: int, last': int)
    requires MINPOLL <= g.hpoll <= MAXPOLL && at <= now < TWO63 && 0 <= last <= 30
    requires !g.mayBurst && g.burst == 0
    requires now + REACH_AHEAD < TWO31 ==> 0 <= g.outdate <= at
    requires (g.nextdate, last') == NextDate(at, g.outdate, ppoll, g.hpoll, last)
    ensures DatesOk(g, now)
  {
    hide NextDate;
    if now + REACH_AHEAD < TWO31 {
      Schedule(at, g.outdate, ppoll, g.hpoll, last);
    }
  }

  lemma {:induction false} BackedOffAfterPoll(h: seq<bool>, unreach: int, hpoll: int, unreach': int, hpoll': int)
    requires BackedOff(h, unreach, hpoll) && unreach >= 0 && MINPOLL <= hpoll <= MAXPOLL
    requires unreach' >= 0 && MINPOLL <= hpoll' <= MAXPOLL
    requires Pack([false] + h, 32) == 0 ==> (unreach', hpoll') == SilentPoll(unreach, hpoll)
    ensures BackedOff([false] + h, unreach', hpoll')
  {
    hide Quiet, Pack;
    forall n: nat | n < |[false] + h| && Quiet([false] + h, n)
      ensures unreach' >= MinI(UNREACH, 2 * n) && hpoll' >= MinI(MAXPOLL, n)
    {
      if n > 0 {
        QuietUnfolds(h, n - 1);
      }
    }
  }

  lemma MarkedIsNotQuiet(h: seq<bool>, n: nat)
    requires h != []
    ensures !Quiet(h[0 := true], n)
  {
    assert h[0 := true][0];
  }

  lemma BackedOffAfterPacket(h: seq<bool>, unreach: int, hpoll: int)
    requires h != [] && BackedOff(h, unreach, hpoll)
    ensures BackedOff(h[0 := true], unreach, hpoll)
  {
    var g := h[0 := true];
    forall n: nat
      ensures !Quiet(g, n)
    {
      MarkedIsNotQuiet(h, n);
    }
  }

  /** Silent over the last seventeen polls and the 31 intervals before them. */
  predicate LongSilent(h: seq<bool>) { |h| > 17 && forall i :: 0 <= i < 48 && i < |h| ==> !h[i] }

  /** Such a peer is polled at the longest interval. */
  lemma SilentPeerBacksOff(p: Peer, ct: uint64)
    requires TimerOk(p, ct) && PeerOk(p, ct) && LongSilent(p.replies)
    ensures p.hpoll == MAXPOLL
  {
    assert Quiet(p.replies, 17);
  }

  /** A timing just before its peer is polled. */
  lemma TimerDue(p: Peer, ct: uint64)
    requires TimerOk(p, ct) && DueNow(ct, p)
    ensures !p.iburstFlag && !p.burstFlag && p.burst == 0
    ensures ct + REACH_AHEAD < TWO31 && p.spaced ==> Signed32(ct) == ct && p.outdate + 64 <= ct
  {
    if ct + REACH_AHEAD < TWO31 && p.spaced {
      DueMeansApart(p, ct);
    }
  }

  lemma NoBursts(p: Peer, ct: uint64)
    requires TimerOk(p, ct)
    ensures p.burst == 0
  {
  }

  /** The timing after the poll at process time at; the new date is computed
      when process time is from. */
  lemma TimingAfterPoll(a: Timing, b: Timing, reach: uint32, ppoll: int, at: uint64, from: uint64, last: int,
                        last': int)
    requires TimingOk(a, at) && a.unreach >= 0 && MINPOLL <= a.hpoll <= MAXPOLL
    requires b.unreach >= 0 && MINPOLL <= b.hpoll <= MAXPOLL && b.mayBurst == a.mayBurst && b.burst == 0
    requires at <= from < TWO63 && 0 <= last <= 30 && last % 5 == 0
    requires b.outdate == Signed32(at) && b.replies == [false] + a.replies && reach == Pack(b.replies, 32)
    requires reach == 0 ==> (b.unreach, b.hpoll) == SilentPoll(a.unreach, a.hpoll)
    requires (b.nextdate, last') == NextDate(from, b.outdate, ppoll, b.hpoll, last)
    ensures TimingOk(b, from) && 0 <= last' <= 30 && last' % 5 == 0
  {
    hide NextDate, BackedOff, SilentPoll, Signed32, Pack;
    SpreadStaysSmall(from, b.outdate, ppoll, b.hpoll, last);
    if from + REACH_AHEAD < TWO31 {
      SmallStays(at);
    }
    DateKept(b, ppoll, from, from, last, last');
    BackedOffAfterPoll(a.replies, a.unreach, a.hpoll, b.unreach, b.hpoll);
  }

  /** The timing after a packet that was counted at process time at. */
  lemma TimingAfterPacket(a: Timing, b: Timing, ppoll: int, at: uint64, now: uint64, last: int, last': int)
    requires TimingOk(a, at) && a.replies != [] && MINPOLL <= a.hpoll <= MAXPOLL
    requires at <= now < TWO63 && 0 <= last <= 30 && last % 5 == 0
    requires b == a.(nextdate := b.nextdate, spaced := b.spaced, replies := a.replies[0 := true])
    requires (b.nextdate, last') == NextDate(at, b.outdate, ppoll, b.hpoll, last)
    ensures TimingOk(b, now) && 0 <= last' <= 30 && last' % 5 == 0
  {
    hide NextDate, BackedOff;
    SpreadStaysSmall(at, b.outdate, ppoll, b.hpoll, last);
    DateKept(b, ppoll, at, now, last, last');
    BackedOffAfterPacket(a.replies, a.unreach, a.hpoll);
  }

  // ---- Falling due ----

  /** The comparison in clock_adjust, on the low word of process time. */
  predicate DueNow(ct: uint64, p: Peer)
    reads p`nextdate
  {
    Wrap32(ct) >= Wrap32(p.nextdate)
  }

  /** A due peer whose date was set by a poll update was last polled at least
      64 units ago. */
  lemma DueMeansApart(p: Peer, ct: uint64)
    requires TimerOk(p, ct) && p.spaced && DueNow(ct, p) && ct + REACH_AHEAD < TWO31
    ensures Signed32(ct) == ct && p.outdate + 64 <= ct
  {
    SmallStays(ct);
    SmallStays(p.nextdate);
  }

  /** The longest interval and spread have passed since the last poll. */
  predicate Overdue(ct: uint64, outdate: int32) {
    outdate + REACH_AHEAD <= ct && ct + REACH_AHEAD < TWO31
  }

  /** At the next tick such a peer is due. */
  lemma OverdueIsDue(p: Peer, ct: uint64)
    requires ct < TWO63 - 1 && TimerOk(p, ct) && Overdue(ct + 1, p.outdate)
    ensures DueNow(ct + 1, p) && Wrap32(ct + 1) + 11 < TWO32
  {
    SmallStays(ct + 1);
    SmallStays(p.nextdate);
  }

  // ---- One peer's poll and packet ----

  ghost predicate SpreadOk(spread: Spread)
    reads spread
  {
    0 <= spread.lastNextdate <= 30 && spread.lastNextdate % 5 == 0
  }

  lemma PeerInTable(c: Clock, s: Sys, peers: seq<Peer>, p: Peer)
    requires Healthy(c, s, peers) && p in peers
    ensures PeerOk(p, c.t) && c.t < TWO63
    ensures p.t <= c.t && p.replies != [] && p.unreach >= 0 && MINPOLL <= p.hpoll <= MAXPOLL
  {
    var k := IndexOf(peers, p);
  }

  lemma PeerParts(c: Clock, s: Sys, p: Peer)
    ensures RegistersOf(p).t == p.t && RegistersOf(p).disp == p.disp
    ensures Snap(c, s).d == DisciplineOf(c, s)
  {
  }

  lemma NonNegativeHalf(x: real)
    requires x >= 0.0
    ensures Half(x) >= 0.0
  {
  }

  lemma ProgressTime(a: State, b: State)
    requires Progress(a, b)
    ensures a.ct <= b.ct
  {
  }

  lemma RegisterIs(p: Peer, ct: uint64)
    requires PeerOk(p, ct)
    ensures p.reach == Pack(p.replies, 32)
  {
  }

  /** A poll of a due peer, as that peer sees it; clean says whether its
      dispersion is still sound. */
  method PollPeer(c: Clock, s: Sys, peers: seq<Peer>, spread: Spread, p: Peer, sending: Sending, junk: Junk,
                  ghost clean: bool) returns (exited: bool)
    requires Healthy(c, s, peers) && c.t < TWO63 - 1 && p in peers
    requires TimerOk(p, c.t) && DueNow(c.t, p) && SpreadOk(spread) && (clean ==> Sound(p))
    modifies p, p.f, c, s, s.m, s.v, spread
    ensures Healthy(c, s, peers)
    ensures Progress(old(DisciplineOf(c, s)), DisciplineOf(c, s)) && c.t <= old(c.t) + 1
    ensures clean ==> Sound(p) && p.disp >= old(p.disp) + if p.reach % 8 == 0 then Half(MAXDISP) else 0.0
    ensures !exited ==> TimerOk(p, c.t) && SpreadOk(spread)
    ensures p.outdate == Signed32(old(c.t)) && p.replies == [false] + old(p.replies)
    ensures old(p.spaced) && old(c.t) + REACH_AHEAD < TWO31 ==> p.outdate >= old(p.outdate) + 64
    ensures p.reach == 0 && !exited ==> (p.unreach, p.hpoll) == SilentPoll(old(p.unreach), old(p.hpoll))
  {
    hide Healthy, PeerOk, NextDate, SilentPoll, Probed, Sound, Progress, Clean, TimingOk, RegistersOf, Snap;
    PeerInTable(c, s, peers, p);
    PeerParts(c, s, p);
    TimerDue(p, c.t);
    ghost var last, a, before, g := spread.lastNextdate, RegistersOf(p), Snap(c, s), TimingOf(p);
    if clean {
      SoundUnfolds(p);
    }
    ghost var filtered, mid;
    exited, filtered, mid := PollUnicast(c, s, peers, spread, p, sending, junk);
    ProgressTime(before.d, DisciplineOf(c, s));
    PeerInTable(c, s, peers, p);
    PeerParts(c, s, p);
    if clean {
      ProbedClean(exited, filtered, a, RegistersOf(p), before, mid, s, peers, p, junk);
      SoundAfterPoll(p, c.t, a, g.replies);
    }
    if !exited {
      RegisterIs(p, c.t);
      TimingAfterPoll(g, TimingOf(p), p.reach, p.ppoll, before.d.ct, c.t, last, spread.lastNextdate);
    }
  }

  /** A packet to a peer, likewise. */
  method AnswerPeer(c: Clock, s: Sys, peers: seq<Peer>, spread: Spread, p: Peer, m: Message, junk: Junk,
                    ghost clean: bool) returns (exited: bool)
    requires Healthy(c, s, peers) && c.t < TWO63 - 1 && p in peers
    requires TimerOk(p, c.t) && SpreadOk(spread) && (clean ==> Sound(p))
    modifies p, p.f, c, s, s.m, s.v, spread
    ensures Healthy(c, s, peers)
    ensures Progress(old(DisciplineOf(c, s)), DisciplineOf(c, s)) && c.t <= old(c.t) + 1
    ensures clean && Plausible(m) ==> Sound(p) && p.disp >= old(p.disp)
    ensures !exited ==> TimerOk(p, c.t) && SpreadOk(spread)
    ensures p.outdate == old(p.outdate)
    ensures p.replies == if Accepted(m.h) then old(p.replies)[0 := true] else old(p.replies)
  {
    hide Healthy, PeerOk, NextDate, InBurst, SetLowest, Accepted, SampleOf, SampleDisp, HeaderCopied;
    hide Filtering, SelectedBy, Sound, Progress, Clean, TimingOk, Half, RegistersOf, Snap;
    PeerInTable(c, s, peers, p);
    PeerParts(c, s, p);
    NoBursts(p, c.t);
    ghost var last, a, before, g := spread.lastNextdate, RegistersOf(p), Snap(c, s), TimingOf(p);
    if clean {
      SoundUnfolds(p);
    }
    var accepted, result := Packet(c, s, peers, spread, p, m, junk);
    exited := result == Selected(Done(Panic));
    ProgressTime(before.d, DisciplineOf(c, s));
    PeerInTable(c, s, peers, p);
    PeerParts(c, s, p);
    if clean && Plausible(m) {
      if accepted {
        SampleHasDisp(m, s.precision);
        FilteringClean(result, a, RegistersOf(p), SampleOf(m, s.precision), before, p.burst, s.precision);
        NonNegativeHalf(SampleDisp(m, s.precision));
      }
      SoundAfterPacket(p, a, g.replies);
    }
    if accepted {
      TimingAfterPacket(g, TimingOf(p), p.ppoll, before.d.ct, c.t, last, spread.lastNextdate);
    } else {
      TimerLater(p, before.d.ct, c.t);
    }
  }
}
