/** The whole client: initialization, the clock-adjust loop, and every run. */
module Client {
  import opened Words
  import opened Ntp
  import LocalTime
  import opened Reach
  import opened Discipline
  import opened Association
  import opened SystemProcess
  import opened PollTimer
  import opened PeerProcess
  import opened PollProcess
  import opened Upkeep
  import opened Rounds
  import Vfo

  /** An external event: a tick of clock_adjust, turn by turn; a packet during
      initialization; or settime. */
  datatype Event =
    | Tick(turns: seq<Turn>, junk: Junk)
    | Arrive(reply: Reply)
    | SetTime(time: uint64, tick: uint32)

  predicate EventOk(e: Event) {
    match e
    case Tick(turns, _) => TurnsOk(turns)
    case Arrive(reply) => reply.index < NMAX
    case SetTime(_, _) => true
  }

  predicate EventPlausible(e: Event) {
    match e
    case Tick(turns, _) => forall k :: 0 <= k < |turns| ==> TurnPlausible(turns[k])
    case Arrive(reply) => Plausible(reply.message)
    case SetTime(_, _) => true
  }

  class NtpClient {
    const c: Clock
    const s: Sys
    const peers: seq<Peer>
    const spread: Spread

    /** Set when an offset beyond the panic threshold ended the program. */
    var exited: bool

    /** Were all packets so far plausible? */
    ghost var clean: bool

    /** What holds between events. Dispersions are only sound while packets were
        plausible, and dates only matter while running. */
    ghost predicate Valid()
      reads this, c, s, s.v, spread, peers, set i | 0 <= i < |peers| :: peers[i].f
    {
      Healthy(c, s, peers) && (clean ==> AllSound(peers)) &&
      (!exited ==> SpreadOk(spread) && AllTimersOk(peers, c.t))
    }

    constructor (c: Clock, s: Sys, peers: seq<Peer>, spread: Spread)
      requires Healthy(c, s, peers) && AllSound(peers) && SpreadOk(spread) && AllTimersOk(peers, c.t)
      ensures Valid() && !exited && clean
      ensures this.c == c && this.s == s && this.peers == peers && this.spread == spread
    {
      this.c, this.s, this.peers, this.spread, exited := c, s, peers, spread, false;
      clean := true;
    }

    ghost function View(): Round
      reads this, c, s`t, s`poll, peers
    {
      Round(DisciplineOf(c, s), clean, DispsOf(peers), IntervalsOf(peers), DatesOf(peers))
    }

    // ---- One peer ----

    /** Where a peer of the table stands, apart from all others. */
    lemma Known(p: Peer) returns (k: nat)
      requires Valid() && p in peers
      ensures |peers| == NMAX && k < NMAX && peers[k] == p
      ensures forall i :: 0 <= i < NMAX && i != k ==> peers[i] != p && peers[i].f != p.f
      ensures p.t <= c.t && p.replies != [] && p.unreach >= 0 && MINPOLL <= p.hpoll <= MAXPOLL
      ensures clean ==> Sound(p)
      ensures !exited ==> TimerOk(p, c.t)
    {
      hide SysOk, Sound, TimerOk;
      k := IndexOf(peers, p);
      assert PeerOk(peers[k], c.t);
      forall i | 0 <= i < NMAX && i != k
        ensures peers[i] != p && peers[i].f != p.f
      {
        if i < k {
          assert peers[i] != peers[k];
        } else {
          assert peers[k] != peers[i];
        }
      }
    }

    /** The other peers' timers only see time pass. */
    lemma OthersLater(k: nat, at: uint64)
      requires k < |peers| && at <= c.t && TimerOk(peers[k], c.t)
      requires forall i :: 0 <= i < |peers| && i != k ==> TimerOk(peers[i], at)
      ensures AllTimersOk(peers, c.t)
    {
      hide TimerOk;
      forall i | 0 <= i < |peers|
        ensures TimerOk(peers[i], c.t)
      {
        if i != k {
          TimerLater(peers[i], at, c.t);
        }
      }
    }

    /** poll() for a peer that is due. */
    method PollDue(p: Peer, sending: Sending, junk: Junk)
      requires Valid() && !exited && p in peers && c.t < TWO63 - 1 && DueNow(c.t, p)
      modifies `exited, p, p.f, c, s, s.m, s.v, spread
      ensures Valid() && clean == old(clean)
      ensures Progress(old(DisciplineOf(c, s)), DisciplineOf(c, s)) && c.t <= old(c.t) + 1
      ensures clean ==> p.disp >= old(p.disp) + if p.reach % 8 == 0 then Half(MAXDISP) else 0.0
      ensures p.outdate == Signed32(old(c.t)) && p.replies == [false] + old(p.replies)
      ensures old(p.spaced) && old(c.t) + REACH_AHEAD < TWO31 ==> p.outdate >= old(p.outdate) + 64
      ensures p.reach == 0 && !exited ==> (p.unreach, p.hpoll) == SilentPoll(old(p.unreach), old(p.hpoll))
    {
      hide Healthy, SilentPoll, Sound, TimerOk, Progress, Signed32, SpreadOk;
      ghost var k := Known(p);
      ghost var d := DisciplineOf(c, s);
      exited := PollPeer(c, s, peers, spread, p, sending, junk, clean);
      ProgressTime(d, DisciplineOf(c, s));
      if !exited {
        OthersLater(k, d.ct);
      }
    }

    /** packet() for a peer; the checks of receive() only filter what gets
        here. */
    method Answer(p: Peer, m: Message, junk: Junk)
      requires Valid() && !exited && p in peers && c.t < TWO63 - 1
      modifies `exited, `clean, p, p.f, c, s, s.m, s.v, spread
      ensures Valid() && (clean <==> old(clean) && Plausible(m))
      ensures Progress(old(DisciplineOf(c, s)), DisciplineOf(c, s)) && c.t <= old(c.t) + 1
      ensures clean ==> p.disp >= old(p.disp)
      ensures p.outdate == old(p.outdate)
      ensures p.replies == if Accepted(m.h) then old(p.replies)[0 := true] else old(p.replies)
    {
      hide Healthy, Plausible, Accepted, Sound, TimerOk, Progress, SpreadOk;
      ghost var k := Known(p);
      ghost var d := DisciplineOf(c, s);
      exited := AnswerPeer(c, s, peers, spread, p, m, junk, clean);
      clean := clean && Plausible(m);
      ProgressTime(d, DisciplineOf(c, s));
      if !exited {
        OthersLater(k, d.ct);
      }
    }

    // ---- One turn ----

    lemma TableSize()
      requires Valid()
      ensures |peers| == NMAX
    {
    }

    /** What recv_packet does to the clock: it brings the local time up to the
        tick count and then sets it to the server's receive time. */
    method Read(tick: uint32, rec: uint64)
      requires Valid()
      modifies c`localTime, c`lastTick
      ensures Valid()
      ensures DisciplineOf(c, s) == old(DisciplineOf(c, s)).(localTime := rec)
      ensures View() == old(View()).(d := old(View()).d.(localTime := rec))
      ensures c.lastTick == LocalTime.AfterCall(old(LocalTime.StampOf(c)), LocalTime.Call(tick, false)).lastTick
    {
      hide AllSound, AllTimersOk, PeersOk, ListOk, DispsOf, IntervalsOf, DatesOf, LocalTime.AfterCall;
      LocalTime.GetTime(c, tick, false);
      c.localTime := rec;
    }

    /** packet() for the association a packet belongs to. */
    method AnswerAt(reply: Reply)
      requires Valid() && !exited && c.t < TWO63 - 1 && reply.index < NMAX == |peers|
      modifies `exited, `clean, peers, set i | 0 <= i < |peers| :: peers[i].f, c, s, s.m, s.v, spread
      ensures Valid() && c.t <= old(c.t) + 1
      ensures Delivered(old(View()), View(), reply)
      ensures RepliesMarked(old(RepliesOf(peers)), RepliesOf(peers), reply)
      ensures OutdatesOf(peers) == old(OutdatesOf(peers))
    {
      hide Healthy, AllSound, AllTimersOk, Plausible, Progress, Accepted, DispsOf, IntervalsOf, DatesOf;
      hide OutdatesOf, RepliesOf;
      ghost var k := Known(peers[reply.index]);
      Answer(peers[reply.index], reply.message, reply.junk);
    }

    /** Hand a packet to its association. */
    method Deliver(reply: Reply)
      requires Valid() && !exited && c.t < TWO63 - 1 && reply.index < NMAX
      modifies `exited, `clean, peers, set i | 0 <= i < |peers| :: peers[i].f, c, s, s.m, s.v, spread
      ensures Valid() && c.t <= old(c.t) + 1 && |peers| == NMAX
      ensures Delivered(old(View()), View(), reply)
      ensures RepliesMarked(old(RepliesOf(peers)), RepliesOf(peers), reply)
      ensures OutdatesOf(peers) == old(OutdatesOf(peers))
    {
      hide Valid, View, Delivered, RepliesMarked, OutdatesOf, RepliesOf;
      TableSize();
      ghost var start := View();
      Read(reply.tick, reply.message.h.rec);
      ghost var mid := View();
      AnswerAt(reply);
      DeliveredLocal(start, mid, View(), reply);
    }

    method PollTurn(i: nat, sending: Sending, junk: Junk)
      requires Valid() && !exited && i < |peers| && c.t < TWO63 - 2 && DueNow(c.t, peers[i])
      modifies `exited, peers[i], peers[i].f, c, s, s.m, s.v, spread
      ensures Valid() && c.t <= old(c.t) + 1
      ensures Polled(old(View()), View(), i)
      ensures peers[i].outdate == Signed32(old(c.t))
    {
      hide Healthy, AllSound, AllTimersOk, Progress, DispsOf, IntervalsOf, DatesOf;
      ghost var k := Known(peers[i]);
      PollDue(peers[i], sending, junk);
    }

    /** Poll a due peer and hand on the packet read after it. */
    method Visit(i: nat, turn: Turn)
      requires Valid() && !exited && i < |peers| && c.t < TWO63 - 2 && DueNow(c.t, peers[i])
      requires turn.reply.Some? ==> turn.reply.value.index < NMAX
      modifies `exited, `clean, peers, set i | 0 <= i < |peers| :: peers[i].f, c, s, s.m, s.v, spread
      ensures Valid() && c.t <= old(c.t) + 2
      ensures Served(old(View()), View(), i, turn, true)
      ensures peers[i].outdate == Signed32(old(c.t))
    {
      hide Valid, View, Polled, Delivered, Served;
      ghost var start := View();
      PollTurn(i, turn.sending, turn.junk);
      ghost var mid := View();
      if !exited && turn.reply.Some? {
        Deliver(turn.reply.value);
        PolledAndDelivered(start, mid, View(), i, turn);
      } else {
        PolledAlone(start, mid, i, turn);
      }
    }

    /** One turn of the peer loop: the peer is polled if and only if it is due,
        and only then a packet is read. */
    method Serve(i: nat, turn: Turn)
      requires Valid() && !exited && i < |peers| && c.t < TWO63 - 2
      requires turn.reply.Some? ==> turn.reply.value.index < NMAX
      modifies `exited, `clean, peers, set i | 0 <= i < |peers| :: peers[i].f, c, s, s.m, s.v, spread
      ensures Valid() && c.t <= old(c.t) + 2
      ensures Served(old(View()), View(), i, turn, old(DueNow(c.t, peers[i])))
      ensures old(DueNow(c.t, peers[i])) ==> peers[i].outdate == Signed32(old(c.t))
      ensures !old(DueNow(c.t, peers[i])) ==> unchanged(peers) && Snap(c, s) == old(Snap(c, s)) && !exited
    {
      hide Valid, View, DueNow, Served;
      ViewParts();
      if DueNow(c.t, peers[i]) {
        Visit(i, turn);
      } else {
        NotServed(View(), i, turn);
      }
    }

    // ---- One tick ----

    method StartTick(junk: Junk)
      requires Valid() && !exited && c.t < TWO63 - 12
      modifies c`t, c`offset, c`localTime, s`rootdisp
      ensures Valid() && |peers| == NMAX
      ensures Progress(old(DisciplineOf(c, s)), DisciplineOf(c, s)) && c.t == old(c.t) + 1
      ensures DisciplineOf(c, s) == Discipline.Tick(old(DisciplineOf(c, s)), junk)
      ensures s.rootdisp == old(s.rootdisp) + PHI
      ensures View() == old(View()).(d := DisciplineOf(c, s))
    {
      hide AllSound, AllTimersOk, PeersOk, ListOk, DispsOf, IntervalsOf, DatesOf;
      ghost var d := DisciplineOf(c, s);
      Vfo.AdjustPhase(c, s, junk);
      PeersOkLater(peers, d.ct, c.t);
      TimersLater(peers, d.ct, c.t);
    }

    /** A peer is polled again within the longest interval and spread: the tick
        that finds them elapsed polls it, unless a packet read earlier in the
        tick moved its date. */
    ghost predicate OverduePolled(ct: uint64, outdates: seq<int32>, turns: seq<Turn>, a: Round, b: Round) {
      |outdates| == |a.intervals| == |b.intervals| &&
      forall j :: 0 <= j < |outdates| && Overdue(ct, outdates[j]) && !Addressed(turns, j, j) ==>
        b.intervals[j] == a.intervals[j] + 1
    }

    /** Overdue peers are due, with room in the low word of process time. */
    ghost predicate OverdueDates(ct: uint64, dates: seq<int32>, outdates: seq<int32>) {
      |dates| == |outdates| &&
      forall j :: 0 <= j < |outdates| && Overdue(ct, outdates[j]) ==>
        Wrap32(ct) + 11 < TWO32 && Wrap32(ct) >= Wrap32(dates[j])
    }

    lemma OverdueAreDue(ct: uint64, a: Round, b: Round, turns: seq<Turn>, outdates: seq<int32>)
      requires AllDuePolled(ct, a.dates, turns, a.intervals, b.intervals, |a.intervals|)
      requires OverdueDates(ct, a.dates, outdates)
      ensures OverduePolled(ct, outdates, turns, a, b)
    {
      hide Overdue, Addressed, Wrap32;
    }

    /** The overdue peers of the table, just before a tick. */
    lemma OverdueNow()
      requires Valid() && !exited && c.t < TWO63 - 1
      ensures OverdueDates(c.t + 1, View().dates, OutdatesOf(peers))
    {
      var dates, outdates := DatesOf(peers), OutdatesOf(peers);
      hide Healthy, AllSound, Overdue, TimerOk, Wrap32;
      forall j | 0 <= j < |outdates| && Overdue(c.t + 1, outdates[j])
        ensures Wrap32(c.t + 1) + 11 < TWO32 && Wrap32(c.t + 1) >= Wrap32(dates[j])
      {
        OverdueIsDue(peers[j], c.t);
      }
    }

    lemma TickBegins(turns: seq<Turn>)
      ensures Ticking(View(), View(), turns, 0) && View().d.ct == c.t
    {
      hide Ticking;
      TickStarts(View(), turns);
    }

    lemma TimeOf()
      ensures View().d == DisciplineOf(c, s) && View().d.ct == c.t && |View().intervals| == |peers|
    {
    }

    lemma ViewParts()
      ensures View().d.ct == c.t && View().clean == clean && View().d == DisciplineOf(c, s)
      ensures View().intervals == IntervalsOf(peers) && View().dates == DatesOf(peers)
      ensures |View().intervals| == |peers| && |View().dates| == |peers|
    {
    }

    /** The turn of the peer at an index of the table. */
    method TakeTurn(turns: seq<Turn>, n: nat, ghost start: Round)
      requires Valid() && !exited && TurnsOk(turns) && n < NMAX == |peers|
      requires Ticking(start, View(), turns, n) && start.d.ct <= c.t < TWO63 - 2
      modifies `exited, `clean, peers, set i | 0 <= i < |peers| :: peers[i].f, c, s, s.m, s.v, spread
      ensures Valid() && Ticking(start, View(), turns, n + 1)
      ensures start.d.ct <= c.t <= old(c.t) + 2
    {
      hide Valid, View, DueNow, Served, Ticking;
      ViewParts();
      ghost var mid, due := View(), DueNow(c.t, peers[n]);
      DueByDate(c.t, peers, n);
      Serve(n, turns[n]);
      ViewParts();
      TickStep(start, mid, View(), turns, n, due);
      TickTime(start, View(), turns, n + 1);
    }

    /** The peer loop; n is how many turns were taken. */
    method Turns(turns: seq<Turn>) returns (n: nat)
      requires Valid() && !exited && c.t < TWO63 - 11 && TurnsOk(turns) && |peers| == NMAX
      modifies `exited, `clean, peers, set i | 0 <= i < |peers| :: peers[i].f, c, s, s.m, s.v, spread
      ensures Valid() && Ticking(old(View()), View(), turns, n) && c.t <= old(c.t) + 10
      ensures !exited ==> n == NMAX
    {
      hide Valid, View, Ticking, TurnsOk;
      ghost var start := View();
      TickBegins(turns);
      n := 0;
      while n < NMAX && !exited
        invariant n <= NMAX
        invariant Valid() && Ticking(start, View(), turns, n)
        invariant start.d.ct <= c.t <= start.d.ct + 2 * n
        decreases NMAX - n
      {
        TakeTurn(turns, n, start);
        n := n + 1;
      }
    }

    /** clock_adjust: process time and phase, then every due peer in turn. */
    method Adjust(turns: seq<Turn>, junk: Junk)
      requires Valid() && !exited && c.t < TWO63 - 12 && TurnsOk(turns)
      modifies `exited, `clean, peers, set i | 0 <= i < |peers| :: peers[i].f, c, s, s.m, s.v, spread
      ensures Valid() && old(c.t) < c.t <= old(c.t) + 11 && |peers| == NMAX
      ensures Progress(old(DisciplineOf(c, s)), DisciplineOf(c, s))
      ensures Ticked(old(c.t) + 1, old(View()), View(), turns, exited)
      ensures !exited ==>
                OverduePolled(old(c.t) + 1, old(OutdatesOf(peers)), turns, old(View()), View())
    {
      hide Valid, View, Progress, Ticking, Ticked, OverduePolled, OverdueDates, OutdatesOf, AllDuePolled, TurnsOk;
      ghost var before, outdates := View(), OutdatesOf(peers);
      TimeOf();
      OverdueNow();
      StartTick(junk);
      TimeOf();
      ghost var start := View();
      var i := Turns(turns);
      TimeOf();
      TickEnds(before, start, View(), turns, i, exited);
      if !exited {
        OverdueAreDue(start.d.ct, before, View(), turns, outdates);
      }
    }

    // ---- Runs ----

    /** settime. */
    method Settle(time: uint64, tick: uint32)
      requires Valid() && !exited && c.t < TWO63 - 12
      modifies c`t, c`localTime, c`lastTick
      ensures Valid()
      ensures Progress(old(DisciplineOf(c, s)), DisciplineOf(c, s)) && c.t == old(c.t) + 1
      ensures c.localTime == time && c.lastTick == tick
      ensures View() == old(View()).(d := DisciplineOf(c, s))
    {
      hide AllSound, AllTimersOk, PeersOk, ListOk, DispsOf, IntervalsOf, DatesOf;
      ghost var ct := c.t;
      c.t := c.t + 1;
      c.localTime := time;
      c.lastTick := tick;
      PeersOkLater(peers, ct, c.t);
      TimersLater(peers, ct, c.t);
    }

    /** One external event. */
    method Handle(e: Event)
      requires Valid() && !exited && c.t < TWO63 - 12 && EventOk(e)
      modifies `exited, `clean, peers, set i | 0 <= i < |peers| :: peers[i].f, c, s, s.m, s.v, spread
      ensures Valid() && c.t <= old(c.t) + 11
      ensures Handled(old(View()), View(), e)
    {
      hide Valid, View, Progress, Ticked, Delivered, OverduePolled, StaysClean, EventPlausible, OutdatesOf;
      ghost var before := View();
      ViewParts();
      TableSize();
      match e {
        case Tick(turns, junk) =>
          Adjust(turns, junk);
          TickStaysClean(before.d.ct + 1, before, View(), e, exited);
        case Arrive(reply) =>
          Deliver(reply);
          DeliveredTime(before, View(), reply);
          ReplyStaysClean(before, View(), e);
        case SetTime(time, tick) =>
          Settle(time, tick);
          SameStaysClean(before, View(), EventPlausible(e));
      }
      ViewParts();
      OneUnit(e);
    }

    /** The event at an index of a run. */
    method Advance(events: seq<Event>, i: nat, ghost start: Round)
      requires Valid() && !exited && c.t < TWO63 - 12 && i < |events| && EventOk(events[i])
      requires Ran(start, View(), events, i)
      modifies `exited, `clean, peers, set i | 0 <= i < |peers| :: peers[i].f, c, s, s.m, s.v, spread
      ensures Valid() && c.t <= old(c.t) + 11
      ensures Ran(start, View(), events, i + 1)
    {
      hide Valid, View, EventOk, Handled, Ran;
      ghost var mid := View();
      Handle(events[i]);
      RunStep(start, mid, View(), events, i);
    }

    method Loop(events: seq<Event>) returns (ghost n: nat)
      requires Valid() && !exited
      requires c.t + 11 * |events| < TWO63 - 12
      requires forall i :: 0 <= i < |events| ==> EventOk(events[i])
      modifies `exited, `clean, peers, set i | 0 <= i < |peers| :: peers[i].f, c, s, s.m, s.v, spread
      ensures Valid()
      ensures n <= |events| && (!exited ==> n == |events|) && Ran(old(View()), View(), events, n)
    {
      hide Valid, View, EventOk, Ran;
      ghost var start, time := View(), c.t;
      RunStarts(start, events);
      var i := 0;
      while i < |events| && !exited
        invariant 0 <= i <= |events|
        invariant Valid()
        invariant Ran(start, View(), events, i) && c.t <= time + 11 * i
      {
        Advance(events, i, start);
        i := i + 1;
      }
      n := i;
    }

    lemma Bounds()
      requires Valid()
      ensures 2 <= s.stratum <= MAXSTRAT && MINPOLL <= s.poll <= MAXPOLL && -LIMIT <= c.count <= LIMIT
      ensures s.t <= c.t && forall p :: p in peers ==> p.t <= c.t
    {
      hide Sound, TimerOk;
      forall p | p in peers
        ensures p.t <= c.t
      {
        TimesOrdered(peers, p, c.t);
      }
    }

    lemma Distances(before: seq<real>)
      requires Valid() && clean && NoLess(before, DispsOf(peers))
      ensures forall p :: p in peers ==> RootDist(c.t, p) >= MINDISP / 2.0
      ensures forall i :: 0 <= i < |peers| && before[i] >= 8.0 ==> !Fit(Now(c, s), peers[i])
      ensures forall p :: p in peers && Fit(Now(c, s), p) ==> Steady(p.replies)
    {
      hide RootDist, Fit, Sound, TimerOk, Steady;
      SoundDisps(peers);
      Bounds();
      forall p | p in peers
        ensures RootDist(c.t, p) >= MINDISP / 2.0
      {
        PeerInTable(c, s, peers, p);
        var k := IndexOf(peers, p);
        assert peers[k].disp >= 0.0;
        RootDistFloor(c.t, p);
      }
      forall i | 0 <= i < |peers| && before[i] >= 8.0
        ensures !Fit(Now(c, s), peers[i])
      {
        assert before[i] <= DispsOf(peers)[i];
        PeerInTable(c, s, peers, peers[i]);
        DispersionEight(Now(c, s), peers[i]);
      }
      forall p | p in peers && Fit(Now(c, s), p)
        ensures Steady(p.replies)
      {
        PeerInTable(c, s, peers, p);
        var k := IndexOf(peers, p);
        assert Sound(peers[k]);
        FitIsSteady(Now(c, s), p);
      }
    }

    lemma SilentPeers()
      requires Valid() && !exited
      ensures forall p :: p in peers && LongSilent(p.replies) ==> p.hpoll == MAXPOLL
    {
      hide Sound, TimerOk, PeerOk, LongSilent;
      forall p | p in peers && LongSilent(p.replies)
        ensures p.hpoll == MAXPOLL
      {
        PeerInTable(c, s, peers, p);
        var k := IndexOf(peers, p);
        assert TimerOk(peers[k], c.t);
        SilentPeerBacksOff(p, c.t);
      }
    }

    /** Every run: whatever ticks, packets and unspecified values come, the
        structures stay healthy, and time and the state machine only advance.
        While the packets are plausible no peer's dispersion falls, every peer
        keeps a positive root distance, a peer whose dispersion had reached 8 s
        is never fit again, and every fit peer has a steady history. */
    method Run(events: seq<Event>)
      requires Valid() && !exited
      requires c.t + 11 * |events| < TWO63 - 12
      requires forall i :: 0 <= i < |events| ==> EventOk(events[i])
      modifies `exited, `clean, peers, set i | 0 <= i < |peers| :: peers[i].f, c, s, s.m, s.v, spread
      ensures Valid()
      ensures Progress(old(DisciplineOf(c, s)), DisciplineOf(c, s))
      ensures !exited ==> c.t >= old(c.t) + TimeUnits(events)
      ensures 2 <= s.stratum <= MAXSTRAT && MINPOLL <= s.poll <= MAXPOLL && -LIMIT <= c.count <= LIMIT
      ensures s.t <= c.t && forall p :: p in peers ==> p.t <= c.t
      ensures old(clean) && (forall i :: 0 <= i < |events| ==> EventPlausible(events[i])) ==> clean
      ensures clean ==> NoLess(old(DispsOf(peers)), DispsOf(peers))
      ensures clean ==> forall p :: p in peers ==> RootDist(c.t, p) >= MINDISP / 2.0
      ensures clean ==>
                forall i :: 0 <= i < |peers| && old(peers[i].disp) >= 8.0 ==> !Fit(Now(c, s), peers[i])
      ensures clean ==> forall p :: p in peers && Fit(Now(c, s), p) ==> Steady(p.replies)
      ensures !exited ==>
                forall p :: p in peers && LongSilent(p.replies) ==> p.hpoll == MAXPOLL
    {
      hide Valid, EventOk, EventPlausible, TimeUnits, Progress, Ran, DispsOf;
      ghost var start := View();
      ghost var n := Loop(events);
      RunEnds(start, View(), events, n);
      Bounds();
      if clean {
        Distances(old(DispsOf(peers)));
      }
      if !exited {
        SilentPeers();
      }
    }
  }

  // ---- Plausible runs ----

  /** A lower bound on the process time a run takes: packets may take none. */
  function TimeUnits(events: seq<Event>): nat {
    if events == [] then 0
    else TimeUnits(events[..|events| - 1]) + if events[|events| - 1].Arrive? then 0 else 1
  }

  lemma OneUnit(e: Event)
    ensures TimeUnits([e]) == if e.Arrive? then 0 else 1
  {
    assert [e][..0] == [];
    assert TimeUnits([]) == 0;
  }

  lemma OneMoreUnit(events: seq<Event>, i: nat)
    requires i < |events|
    ensures TimeUnits(events[..i + 1]) == TimeUnits(events[..i]) + TimeUnits([events[i]])
    ensures events[..|events|] == events
  {
    assert events[..i + 1][..i] == events[..i];
    assert [events[i]][..0] == [];
    assert TimeUnits([]) == 0;
  }

  /** Plausible packets keep the client clean, and while it is clean dispersions
      only grow. */
  ghost predicate StaysClean(a: Round, b: Round, plausible: bool) {
    (a.clean && plausible ==> b.clean) && (b.clean ==> a.clean && NoLess(a.disps, b.disps))
  }

  lemma SameStaysClean(a: Round, b: Round, plausible: bool)
    requires b.clean == a.clean && b.disps == a.disps
    ensures StaysClean(a, b, plausible)
  {
  }

  lemma TickStaysClean(ct: uint64, a: Round, b: Round, e: Event, exited: bool)
    requires e.Tick? && Ticked(ct, a, b, e.turns, exited)
    ensures StaysClean(a, b, EventPlausible(e))
  {
    hide TurnPlausible;
  }

  lemma ReplyStaysClean(a: Round, b: Round, e: Event)
    requires e.Arrive? && Delivered(a, b, e.reply)
    ensures StaysClean(a, b, EventPlausible(e))
  {
    hide Plausible;
  }

  /** What one event does. */
  ghost predicate Handled(a: Round, b: Round, e: Event) {
    Progress(a.d, b.d) && a.d.ct + TimeUnits([e]) <= b.d.ct && StaysClean(a, b, EventPlausible(e))
  }

  predicate AllPlausible(events: seq<Event>, n: nat)
    requires n <= |events|
  {
    forall k :: 0 <= k < n ==> EventPlausible(events[k])
  }

  /** What the first n events of a run have done. */
  ghost predicate Ran(a: Round, b: Round, events: seq<Event>, n: nat) {
    n <= |events| && Progress(a.d, b.d) && a.d.ct + TimeUnits(events[..n]) <= b.d.ct &&
    StaysClean(a, b, AllPlausible(events, n))
  }

  lemma RunStarts(a: Round, events: seq<Event>)
    ensures Ran(a, a, events, 0)
  {
  }

  lemma RunStep(a: Round, mid: Round, b: Round, events: seq<Event>, i: nat)
    requires i < |events| && Ran(a, mid, events, i) && Handled(mid, b, events[i])
    ensures Ran(a, b, events, i + 1)
  {
    hide Progress, EventPlausible, TimeUnits, NoLess;
    ProgressTransitive(a.d, mid.d, b.d);
    OneMoreUnit(events, i);
    if b.clean {
      NoLessTransitive(a.disps, mid.disps, b.disps);
    }
  }

  lemma RunEnds(a: Round, b: Round, events: seq<Event>, n: nat)
    requires n <= |events| && Ran(a, b, events, n)
    ensures Progress(a.d, b.d) && (b.clean ==> a.clean && NoLess(a.disps, b.disps))
    ensures n == |events| ==> a.d.ct + TimeUnits(events) <= b.d.ct
    ensures a.clean && (forall k :: 0 <= k < |events| ==> EventPlausible(events[k])) ==> b.clean
  {
    hide Progress, EventPlausible, TimeUnits, NoLess;
    assert events[..|events|] == events;
  }

  // ---- Start ----

  method StartClock(frequencyKnown: bool) returns (c: Clock, s: Sys)
    ensures fresh(c) && fresh(s) && fresh(s.m) && fresh(s.v)
    ensures c.t == 1 && s.t == 0 && InRange(DisciplineOf(c, s))
    ensures c.state == if frequencyKnown then FSET else NSET
    ensures c.freq == (if frequencyKnown then 1000.0 else 0.0) && c.offset == 0.0
    ensures s.stratum == MAXSTRAT && s.leap == NOSYNC && s.mark == 0 && s.p == null
    ensures s.m.Length == s.v.Length == LISTSIZE && forall k :: 0 <= k < LISTSIZE ==> s.v[k].p == null
  {
    hide Log2D;
    c := new Clock();
    s := new Sys();
    if frequencyKnown {
      c.freq := 1000.0;
      Vfo.RstClock(c, s, FSET, 0, 0.0);
    } else {
      Vfo.RstClock(c, s, NSET, 0, 0.0);
    }
    c.jitter := Log2D(s.precision);
  }

  lemma FreshPeer(p: Peer, ct: uint64)
    requires ct < 0x1000 && p.t == ct && p.outdate == ct && p.outdate <= p.nextdate < p.outdate + 64
    requires !p.iburstFlag && !p.burstFlag && p.burst == 0 && p.unreach == 0 && p.hpoll == MINPOLL
    requires p.replies == [false] && p.reach == 0 && !p.spaced && p.stratum == MAXSTRAT && p.ppoll == MAXPOLL
    requires p.disp == MAXDISP_ALG && p.jitter == Log2D(-18) && p.rootdisp == 0.0
    requires p.f.Length == NSTAGE && forall i :: 0 <= i < NSTAGE ==> p.f[i] == Stage(0, 0.0, 0.0, MAXDISP_ALG)
    ensures PeerOk(p, ct) && TimerOk(p, ct) && Sound(p)
  {
    PackOne(32);
    Log2DPositive(-18);
  }

  method Mobilize(c: Clock, randoms: seq<nat>) returns (peers: seq<Peer>)
    requires |randoms| == NMAX && c.t == 1
    ensures PeersOk(peers, c.t) && AllTimersOk(peers, c.t) && AllSound(peers)
    ensures fresh(peers) && forall i :: 0 <= i < |peers| ==> fresh(peers[i].f)
    ensures forall p :: p in peers ==> p.stratum == MAXSTRAT && p.reach == 0
  {
    hide TimerOk, Sound, PeerOk;
    peers := [];
    for i := 0 to NMAX
      invariant |peers| == i && Distinct(peers)
      invariant forall k :: 0 <= k < i ==> fresh(peers[k]) && fresh(peers[k].f)
      invariant forall k :: 0 <= k < i ==> PeerOk(peers[k], c.t) && TimerOk(peers[k], c.t) && Sound(peers[k])
      invariant forall k :: 0 <= k < i ==> peers[k].stratum == MAXSTRAT && peers[k].reach == 0
    {
      var p := new Peer(c, 0, randoms[i], false, false);
      FreshPeer(p, c.t);
      peers := peers + [p];
    }
  }

  /** Initialization, up to the association table. */
  method Start(frequencyKnown: bool, randoms: seq<nat>) returns (client: NtpClient)
    requires |randoms| == NMAX
    ensures client.Valid() && !client.exited && client.clean
    ensures client.c.state == if frequencyKnown then FSET else NSET
    ensures client.c.freq == (if frequencyKnown then 1000.0 else 0.0) && client.c.offset == 0.0 && client.c.t == 1
    ensures client.s.stratum == MAXSTRAT && client.s.leap == NOSYNC && client.s.mark == 0
    ensures forall p :: p in client.peers ==> p.stratum == MAXSTRAT && p.reach == 0
  {
    hide PeerOk, TimerOk, Sound, InRange, Log2D;
    var c, s := StartClock(frequencyKnown);
    var peers := Mobilize(c, randoms);
    var spread := new Spread();
    client := new NtpClient(c, s, peers, spread);
  }
}
