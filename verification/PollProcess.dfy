/** The poll process of a unicast association. */
module PollProcess {
  import opened Words
  import opened Ntp
  import opened Reach
  import opened LocalTime
  import opened Discipline
  import opened Association
  import opened SystemProcess
  import opened PollTimer
  import opened PeerProcess

  const BCOUNT: int := 8

  /** Open a new interval in the reach register. */
  method ShiftReach(c: Clock, peers: seq<Peer>, p: Peer)
    requires PeersOk(peers, c.t) && p in peers
    modifies p`outdate, p`reach, p`replies
    ensures PeersOk(peers, c.t)
    ensures p.outdate == Signed32(c.t)
    ensures p.reach == Shift(old(p.reach)) && p.replies == [false] + old(p.replies)
  {
    hide Shift, Pack;
    ghost var k := IndexOf(peers, p);
    p.outdate := Signed32(c.t);
    ShiftHistory(p.replies);
    p.reach := Shift(p.reach);
    p.replies := [false] + p.replies;
    assert forall i :: 0 <= i < NMAX && i != k ==> PeerOk(peers[i], c.t);
  }

  /** The reachable and unreachable branches: counters, burst and the host poll
      interval asked for. */
  method Reachability(c: Clock, s: Sys, peers: seq<Peer>, p: Peer) returns (hpoll: int)
    requires SysOk(c, s, peers) && PeersOk(peers, c.t) && p in peers
    modifies p`unreach, p`burst
    ensures PeersOk(peers, c.t)
    ensures p.reach == 0 && !(p.iburstFlag && old(p.unreach) == 0) ==>
              (p.unreach, ClampPoll(hpoll)) == SilentPoll(old(p.unreach), p.hpoll) && p.burst == old(p.burst)
    ensures p.reach == 0 && p.iburstFlag && old(p.unreach) == 0 ==>
              p.burst == BCOUNT && p.unreach == 1 && hpoll == p.hpoll
    ensures p.reach != 0 ==> p.unreach == 0 && hpoll == s.poll
    ensures p.reach != 0 ==> p.burst == if p.burstFlag && Fit(Now(c, s), p) then BCOUNT else old(p.burst)
    ensures !p.iburstFlag && !p.burstFlag ==> p.burst == old(p.burst)
  {
    hide Fit, SysOk, Pack;
    ghost var k := IndexOf(peers, p);
    hpoll := p.hpoll;
    if p.reach == 0 {
      if p.iburstFlag && p.unreach == 0 {
        p.burst := BCOUNT;
      } else if p.unreach < UNREACH {
        p.unreach := p.unreach + 1;
      } else {
        hpoll := hpoll + 1;
      }
      p.unreach := p.unreach + 1;
    } else {
      p.unreach := 0;
      hpoll := s.poll;
      if p.burstFlag && Fit(Now(c, s), p) {
        p.burst := BCOUNT;
      }
    }
    assert forall i :: 0 <= i < NMAX && i != k ==> PeerOk(peers[i], c.t);
  }

  method CountDown(c: Clock, peers: seq<Peer>, p: Peer)
    requires PeersOk(peers, c.t) && p in peers
    modifies p`burst
    ensures PeersOk(peers, c.t) && p.burst == old(p.burst) - 1
  {
    ghost var k := IndexOf(peers, p);
    p.burst := p.burst - 1;
    assert forall i :: 0 <= i < NMAX && i != k ==> PeerOk(peers[i], c.t);
  }

  method Reschedule(c: Clock, peers: seq<Peer>, spread: Spread, p: Peer, hpoll: int)
    requires c.t < TWO63 && PeersOk(peers, c.t) && p in peers
    modifies p`hpoll, p`nextdate, p`spaced, spread
    ensures PeersOk(peers, c.t) && p.hpoll == ClampPoll(hpoll)
    ensures p.burst > 0 ==>
              p.spaced == old(p.spaced) &&
              (p.nextdate, spread.lastNextdate) == InBurst(c.t, old(p.nextdate), old(spread.lastNextdate))
    ensures p.burst <= 0 ==>
              p.spaced && (p.nextdate, spread.lastNextdate) ==
              NextDate(c.t, p.outdate, p.ppoll, p.hpoll, old(spread.lastNextdate))
  {
    hide NextDate, InBurst;
    ghost var k := IndexOf(peers, p);
    PollUpdate(p, c, spread, hpoll);
    assert forall i :: 0 <= i < NMAX && i != k ==> PeerOk(peers[i], c.t);
  }

  /** What became of the dummy sample, up to discipline state d. */
  ghost predicate Probed(exited: bool, filtered: Filtered, a: Registers, b: Registers, before: Snapshot,
                         d: State, s: Sys, peers: seq<Peer>, p: Peer, junk: Junk)
    reads s, s.m, s.v, p`reach
    reads peers`leap, peers`stratum, peers`refid, peers`reach, peers`rootdelay, peers`delay,
          peers`rootdisp, peers`disp, peers`offset, peers`t, peers`jitter, peers`reftime
  {
    (exited <==> filtered == Selected(Done(Panic))) &&
    if p.reach % 8 == 0 then
      Filtering(filtered, a, b, Reading(0.0, 0.0, MAXDISP), before, 0, s.precision) &&
      SelectedBy(filtered, before, d, s, peers, junk)
    else filtered == NotNewer && b == a && Snapshot(d, VarsOf(s), s.p, s.v[..]) == before
  }

  /** What a poll makes of the unreach counter, the burst and the host poll
      exponent. */
  datatype Reaching = Reaching(unreach: int, burst: int, hpoll: int)

  ghost predicate Reached(a: Reaching, b: Reaching, now: Moment, p: Peer)
    reads p`leap, p`stratum, p`refid, p`reach, p`rootdelay, p`delay, p`rootdisp, p`disp, p`t, p`jitter
  {
    if p.reach != 0 then
      b == Reaching(0, if p.burstFlag && Fit(now, p) then BCOUNT else a.burst, ClampPoll(now.poll))
    else if p.iburstFlag && a.unreach == 0 then b == Reaching(1, BCOUNT, a.hpoll)
    else (b.unreach, b.hpoll) == SilentPoll(a.unreach, a.hpoll) && b.burst == a.burst
  }

  lemma ReachedSilently(a: Reaching, b: Reaching, now: Moment, p: Peer)
    requires Reached(a, b, now, p) && !p.iburstFlag && !p.burstFlag && a.burst == 0
    ensures b.burst == 0
    ensures p.reach == 0 ==> (b.unreach, b.hpoll) == SilentPoll(a.unreach, a.hpoll)
  {
  }

  lemma ProgressReflexive(d: State)
    ensures Progress(d, d)
  {
  }

  /** The first half of poll() outside a burst: open a new interval and, after
      three without a reply, feed the filter a dummy sample. */
  method OpenInterval(c: Clock, s: Sys, peers: seq<Peer>, p: Peer, junk: Junk)
    returns (exited: bool, ghost filtered: Filtered)
    requires Healthy(c, s, peers) && c.t < TWO63 - 1 && p in peers && p.burst == 0
    modifies p`outdate, p`reach, p`replies, p`t, p`offset, p`delay, p`disp, p`jitter, p.f, c, s, s.m, s.v
    ensures Healthy(c, s, peers)
    ensures Progress(old(DisciplineOf(c, s)), DisciplineOf(c, s)) && c.t <= old(c.t) + 1
    ensures c.lastTick == old(c.lastTick)
    ensures p.outdate == Signed32(old(c.t)) && p.reach == Shift(old(p.reach)) && p.replies == [false] + old(p.replies)
    ensures Probed(exited, filtered, old(RegistersOf(p)), RegistersOf(p), old(Snap(c, s)), DisciplineOf(c, s),
                   s, peers, p, junk)
  {
    hide Shift, Filtering, SelectedBy, PeersOk, SysOk;
    exited, filtered := false, NotNewer;
    ProgressReflexive(DisciplineOf(c, s));
    ShiftReach(c, peers, p);
    if p.reach % 8 == 0 {
      var result := ClockFilter(c, s, peers, p, Reading(0.0, 0.0, MAXDISP), junk);
      exited, filtered := result == Selected(Done(Panic)), result;
    }
  }

  lemma ProbedClean(exited: bool, filtered: Filtered, a: Registers, b: Registers, before: Snapshot,
                    d: State, s: Sys, peers: seq<Peer>, p: Peer, junk: Junk)
    requires Probed(exited, filtered, a, b, before, d, s, peers, p, junk) && Clean(a) && a.t <= before.d.ct
    ensures Clean(b) && b.disp >= a.disp + if p.reach % 8 == 0 then Half(MAXDISP) else 0.0
  {
    hide Filtering, SelectedBy;
    if p.reach % 8 == 0 {
      FilteringClean(filtered, a, b, Reading(0.0, 0.0, MAXDISP), before, 0, s.precision);
    }
  }

  /** The tick counts that the two clock readings of a transmission see. */
  datatype Sending = Sending(first: uint32, second: uint32)

  function Sent(st: Stamp, sending: Sending): Stamp {
    AfterCall(AfterCall(st, Call(sending.first, false)), Call(sending.second, false))
  }

  /** peer_xmit, as far as it changes the clock: it and the transmission routine
      each bring the local time up to the tick count. */
  method Transmit(c: Clock, s: Sys, peers: seq<Peer>, sending: Sending)
    requires SysOk(c, s, peers)
    modifies c`localTime, c`lastTick
    ensures SysOk(c, s, peers)
    ensures StampOf(c) == Sent(old(StampOf(c)), sending)
  {
    GetTime(c, sending.first, false);
    GetTime(c, sending.second, false);
  }

  function ReachingOf(p: Peer): Reaching
    reads p`unreach, p`burst, p`hpoll
  {
    Reaching(p.unreach, p.burst, p.hpoll)
  }

  lemma InTableHpoll(peers: seq<Peer>, p: Peer, ct: uint64)
    requires PeersOk(peers, ct) && p in peers
    ensures ClampPoll(p.hpoll) == p.hpoll
  {
    var k := IndexOf(peers, p);
  }

  /** poll() outside a burst, up to the transmission. */
  method PollOutsideBurst(c: Clock, s: Sys, peers: seq<Peer>, p: Peer, junk: Junk)
    returns (exited: bool, hpoll: int, ghost filtered: Filtered)
    requires Healthy(c, s, peers) && c.t < TWO63 - 1 && p in peers && p.burst == 0
    modifies p`outdate, p`reach, p`replies, p`unreach, p`burst
    modifies p`t, p`offset, p`delay, p`disp, p`jitter, p.f, c, s, s.m, s.v
    ensures Healthy(c, s, peers) && c.lastTick == old(c.lastTick)
    ensures Progress(old(DisciplineOf(c, s)), DisciplineOf(c, s)) && c.t <= old(c.t) + 1
    ensures p.outdate == Signed32(old(c.t)) && p.reach == Shift(old(p.reach)) && p.replies == [false] + old(p.replies)
    ensures Probed(exited, filtered, old(RegistersOf(p)), RegistersOf(p), old(Snap(c, s)), DisciplineOf(c, s),
                   s, peers, p, junk)
    ensures exited ==> p.burst == 0 && p.unreach == old(p.unreach)
    ensures !exited ==>
              Reached(old(ReachingOf(p)), ReachingOf(p).(hpoll := ClampPoll(hpoll)), Now(c, s), p)
  {
    hide Shift, SilentPoll, PeersOk, SysOk, Probed, Fit;
    InTableHpoll(peers, p, c.t);
    hpoll := p.hpoll;
    exited, filtered := OpenInterval(c, s, peers, p, junk);
    if !exited {
      hpoll := Reachability(c, s, peers, p);
    }
  }

  /** Inside a burst a poll only counts it down. */
  ghost predicate Counted(a: Reaching, b: Reaching) { b == a.(burst := a.burst - 1) }

  lemma TimeBelow(c: Clock, s: Sys, peers: seq<Peer>)
    requires SysOk(c, s, peers)
    ensures c.t < TWO63
  {
  }

  /** The common end of poll(): transmit, and set the next date. */
  method Finish(c: Clock, s: Sys, peers: seq<Peer>, spread: Spread, p: Peer, sending: Sending, hpoll: int)
    requires Healthy(c, s, peers) && p in peers
    modifies p`hpoll, p`nextdate, p`spaced, spread, c`localTime, c`lastTick
    ensures Healthy(c, s, peers) && p.hpoll == ClampPoll(hpoll)
    ensures StampOf(c) == Sent(old(StampOf(c)), sending)
    ensures p.burst > 0 ==>
              p.spaced == old(p.spaced) &&
              (p.nextdate, spread.lastNextdate) == InBurst(c.t, old(p.nextdate), old(spread.lastNextdate))
    ensures p.burst <= 0 ==>
              p.spaced && (p.nextdate, spread.lastNextdate) ==
              NextDate(c.t, p.outdate, p.ppoll, p.hpoll, old(spread.lastNextdate))
  {
    hide NextDate, InBurst, PeersOk, SysOk, Sent, ClampPoll;
    TimeBelow(c, s, peers);
    Transmit(c, s, peers, sending);
    Reschedule(c, peers, spread, p, hpoll);
  }

  /** poll(). A panic in the selection it may trigger ends the program, which
      exited reports; nothing after it is then done. The discipline state up to
      the transmission is mid. */
  method Poll(c: Clock, s: Sys, peers: seq<Peer>, spread: Spread, p: Peer, sending: Sending, junk: Junk)
    returns (exited: bool, ghost filtered: Filtered, ghost mid: State)
    requires Healthy(c, s, peers) && c.t < TWO63 - 1 && p in peers
    modifies p, p.f, c, s, s.m, s.v, spread
    ensures Healthy(c, s, peers)
    ensures Progress(old(DisciplineOf(c, s)), DisciplineOf(c, s)) && c.t <= old(c.t) + 1
    ensures DisciplineOf(c, s) == mid.(localTime := c.localTime)
    ensures exited ==> DisciplineOf(c, s) == mid && c.lastTick == old(c.lastTick)
    ensures !exited ==> StampOf(c) == Sent(Stamp(mid.localTime, old(c.lastTick)), sending)
    ensures old(p.burst) == 0 ==>
              p.outdate == Signed32(old(c.t)) && p.reach == Shift(old(p.reach)) && p.replies == [false] + old(p.replies)
    ensures old(p.burst) == 0 ==>
              Probed(exited, filtered, old(RegistersOf(p)), RegistersOf(p), old(Snap(c, s)), mid, s, peers, p, junk)
    ensures old(p.burst) == 0 && !exited ==> Reached(old(ReachingOf(p)), ReachingOf(p), Now(c, s), p)
    ensures old(p.burst) != 0 ==> !exited && Counted(old(ReachingOf(p)), ReachingOf(p))
    ensures old(p.burst) != 0 ==>
              p.reach == old(p.reach) && p.replies == old(p.replies) && p.outdate == old(p.outdate) &&
              RegistersOf(p) == old(RegistersOf(p)) && Snapshot(mid, VarsOf(s), s.p, s.v[..]) == old(Snap(c, s))
    ensures p.burst > 0 && !exited ==>
              p.spaced == old(p.spaced) &&
              (p.nextdate, spread.lastNextdate) == InBurst(c.t, old(p.nextdate), old(spread.lastNextdate))
    ensures p.burst <= 0 && !exited ==>
              p.spaced && (p.nextdate, spread.lastNextdate) ==
              NextDate(c.t, p.outdate, p.ppoll, p.hpoll, old(spread.lastNextdate))
    ensures exited ==> spread.lastNextdate == old(spread.lastNextdate) && ReachingOf(p) == old(ReachingOf(p))
    ensures p.ppoll == old(p.ppoll)
  {
    hide NextDate, InBurst, Shift, PeersOk, SysOk, Probed, Reached, Sent, ClampPoll;
    exited, filtered := false, NotNewer;
    mid := DisciplineOf(c, s);
    var hpoll := p.hpoll;
    ProgressReflexive(mid);
    InTableHpoll(peers, p, c.t);
    if p.burst == 0 {
      exited, hpoll, filtered := PollOutsideBurst(c, s, peers, p, junk);
      mid := DisciplineOf(c, s);
      if exited {
        return;
      }
    } else {
      CountDown(c, peers, p);
    }
    Finish(c, s, peers, spread, p, sending, hpoll);
  }

  /** poll() of a configured unicast peer, which never bursts. */
  method PollUnicast(c: Clock, s: Sys, peers: seq<Peer>, spread: Spread, p: Peer, sending: Sending, junk: Junk)
    returns (exited: bool, ghost filtered: Filtered, ghost mid: State)
    requires Healthy(c, s, peers) && c.t < TWO63 - 1 && p in peers
    requires !p.iburstFlag && !p.burstFlag && p.burst == 0
    modifies p, p.f, c, s, s.m, s.v, spread
    ensures Healthy(c, s, peers)
    ensures Progress(old(DisciplineOf(c, s)), DisciplineOf(c, s)) && c.t <= old(c.t) + 1
    ensures p.burst == 0 && p.outdate == Signed32(old(c.t)) && p.replies == [false] + old(p.replies)
    ensures Probed(exited, filtered, old(RegistersOf(p)), RegistersOf(p), old(Snap(c, s)), mid, s, peers, p, junk)
    ensures !exited && p.reach == 0 ==> (p.unreach, p.hpoll) == SilentPoll(old(p.unreach), old(p.hpoll))
    ensures !exited ==>
              (p.nextdate, spread.lastNextdate) ==
              NextDate(c.t, p.outdate, p.ppoll, p.hpoll, old(spread.lastNextdate))
  {
    hide NextDate, InBurst, Shift, PeersOk, SysOk, Probed, Reached, Sent, SilentPoll, Counted, RegistersOf, Snap;
    ghost var before := ReachingOf(p);
    exited, filtered, mid := Poll(c, s, peers, spread, p, sending, junk);
    if !exited {
      ReachedSilently(before, ReachingOf(p), Now(c, s), p);
    }
  }

  // ---- The poll in terms of history and fields ----

  /** The dummy sample enters the filter exactly after three silent intervals; a
      reply in any of them leaves filter, clock and system alone. */
  lemma ProbeByHistory(exited: bool, filtered: Filtered, a: Registers, b: Registers, before: Snapshot,
                       d: State, s: Sys, peers: seq<Peer>, p: Peer, junk: Junk)
    requires Probed(exited, filtered, a, b, before, d, s, peers, p, junk) && p.reach == Pack(p.replies, 32)
    ensures (exists i :: 0 <= i < 3 && i < |p.replies| && p.replies[i]) ==>
              !exited && b == a && d == before.d && VarsOf(s) == before.vars && s.p == before.p
    ensures (forall i :: 0 <= i < 3 && i < |p.replies| ==> !p.replies[i]) ==>
              |b.f| == 8 && b.f[0] == Stage(before.d.ct, 0.0, 0.0, 16.0) && b.offset == 0.0 && b.delay == 0.0
  {
    hide SelectedBy, Pack, WeightedDisp, SquaredOffsets;
    ThreeSilentIntervals(p.replies);
  }

  /** What a poll outside a burst makes of counter, burst and interval. */
  lemma ReachedInFields(a: Reaching, b: Reaching, now: Moment, p: Peer)
    requires Reached(a, b, now, p)
    ensures p.reach != 0 ==>
              b.unreach == 0 && b.hpoll == (if now.poll < 6 then 6 else if now.poll > 17 then 17 else now.poll) &&
              b.burst == if p.burstFlag && Fit(now, p) then 8 else a.burst
    ensures p.reach == 0 && p.iburstFlag && a.unreach == 0 ==> b == Reaching(1, 8, a.hpoll)
    ensures p.reach == 0 && !(p.iburstFlag && a.unreach == 0) && 6 <= a.hpoll <= 17 ==>
              b.burst == a.burst &&
              (a.unreach < 12 ==> b.unreach == a.unreach + 2 && b.hpoll == a.hpoll) &&
              (a.unreach >= 12 ==>
                 b.unreach == a.unreach + 1 && b.hpoll == if a.hpoll < 17 then a.hpoll + 1 else 17)
  {
    hide Fit;
  }
}
