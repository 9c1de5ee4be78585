/** poll_update: the host poll interval and the date of the next poll. */
module PollTimer {
  import opened Words
  import opened Ntp
  import opened HalfWord

  const BTIME: int := 2

  /** The static last_nextdate, which spreads the first polls apart. */
  class Spread {
    var lastNextdate: int

    constructor ()
      ensures lastNextdate == 0
    {
      lastNextdate := 0;
    }
  }

  function ClampPoll(poll: int): int { MaxI(MinI(MAXPOLL, poll), MINPOLL) }

  function Interval(ppoll: int, hpoll: int): nat
    requires hpoll <= MAXPOLL
  {
    Pow2(MaxI(MinI(ppoll, hpoll), MINPOLL))
  }

  /** The spreading step on a date; it moves at most the first six. */
  function Spaced(date: int32, last: int): (int32, int) {
    if date <= Signed32(date + 5) && last <= 5 * NMAX then (Signed32(date + last), last + 5) else (date, last)
  }

  /** A date already past moves to one unit from now. An int compared with the
      64-bit process time is converted to unsigned first. */
  function NotPast(date: int32, ct: uint64): int32
    requires ct < TWO63
  {
    if Wrap64(date) <= ct then Signed32(LossySum(ct, 1)) else date
  }

  /** The next date outside a burst, and the new spread. */
  function NextDate(ct: uint64, outdate: int32, ppoll: int, hpoll: int, last: int): (int32, int)
    requires ct < TWO63 && hpoll <= MAXPOLL
  {
    var (date, last') := Spaced(Signed32(outdate + Interval(ppoll, hpoll)), last);
    (NotPast(date, ct), last')
  }

  /** The next date inside a burst, when the peer is due at ct. */
  function BurstDate(ct: uint64, last: int): (int32, int)
    requires ct < TWO63
  {
    var (date, last') := Spaced(Signed32(ct + BTIME), last);
    (NotPast(date, ct), last')
  }

  /** Inside a burst only a peer that is due right now gets a new date. */
  function InBurst(ct: uint64, date: int32, last: int): (int32, int)
    requires ct < TWO63
  {
    if date == ct then BurstDate(ct, last) else (date, last)
  }

  method PollUpdate(p: Peer, c: Clock, spread: Spread, poll: int)
    requires c.t < TWO63
    modifies p`hpoll, p`nextdate, p`spaced, spread
    ensures p.hpoll == ClampPoll(poll)
    ensures p.burst > 0 ==>
              p.spaced == old(p.spaced) &&
              (p.nextdate, spread.lastNextdate) == InBurst(c.t, old(p.nextdate), old(spread.lastNextdate))
    ensures p.burst <= 0 ==>
              p.spaced && (p.nextdate, spread.lastNextdate) ==
              NextDate(c.t, p.outdate, p.ppoll, p.hpoll, old(spread.lastNextdate))
  {
    hide LossySum, Pow2;
    p.hpoll := MaxI(MinI(MAXPOLL, poll), MINPOLL);
    if p.burst > 0 {
      if p.nextdate != c.t {
        return;
      }
      p.nextdate := Signed32(p.nextdate + BTIME);
    } else {
      p.nextdate := Signed32(p.outdate + Pow2(MaxI(MinI(p.ppoll, p.hpoll), MINPOLL)));
      p.spaced := true;
    }
    if p.nextdate <= Signed32(p.nextdate + 5) && spread.lastNextdate <= 5 * NMAX {
      p.nextdate := Signed32(p.nextdate + spread.lastNextdate);
      spread.lastNextdate := spread.lastNextdate + 5;
    }
    if Wrap64(p.nextdate) <= c.t {
      p.nextdate := Signed32(LossySum(c.t, 1));
    }
  }

  /** Longest interval plus the largest spread. */
  const REACH_AHEAD: int := 131072 + 25

  lemma IntervalRange(ppoll: int, hpoll: int)
    requires MINPOLL <= hpoll <= MAXPOLL
    ensures 64 <= Interval(ppoll, hpoll) <= 131072
  {
    var k := MaxI(MinI(ppoll, hpoll), MINPOLL);
    Pow2Monotone(6, k);
    Pow2Monotone(k, 17);
    assert Pow2(6) == 64;
    assert Pow2(17) == 2048 * Pow2(6) by { assert Pow2(11) == 32 * Pow2(6); assert Pow2(17) == 64 * Pow2(11); }
  }

  lemma SmallStays(x: int)
    requires 0 <= x < TWO31
    ensures Signed32(x) == x && Wrap64(x) == x
  {
  }

  lemma SpacedExact(date: int32, last: int)
    requires 0 <= date < TWO31 - 25 && 0 <= last <= 30
    ensures Spaced(date, last) == if last <= 25 then (date + last, last + 5) else (date, last)
  {
    SmallStays(date + 5);
    if last <= 25 {
      SmallStays(date + last);
    }
  }

  lemma NotPastExact(date: int32, ct: uint64)
    requires 0 <= date && ct < TWO31 - 1
    ensures NotPast(date, ct) == if date <= ct then ct + 1 else date
  {
    SuccessorExact(ct);
    SmallStays(ct + 1);
    SmallStays(date);
  }

  /** As long as dates fit an int, the next poll lies in the future, at least
      64 units after the last one and at most the longest interval and spread
      after it. */
  lemma Schedule(ct: uint64, outdate: int32, ppoll: int, hpoll: int, last: int)
    requires ct + REACH_AHEAD < TWO31 && 0 <= outdate <= ct
    requires MINPOLL <= hpoll <= MAXPOLL && 0 <= last <= 30
    ensures var (date, last') := NextDate(ct, outdate, ppoll, hpoll, last);
            ct < date && outdate + 64 <= date <= MaxI(ct + 1, outdate + REACH_AHEAD) &&
            last <= last' <= 30
  {
    hide NotPast, Spaced, Interval;
    IntervalRange(ppoll, hpoll);
    SmallStays(outdate + Interval(ppoll, hpoll));
    SpacedExact(outdate + Interval(ppoll, hpoll), last);
    NotPastExact(Spaced(outdate + Interval(ppoll, hpoll), last).0, ct);
  }

  /** Inside a burst the next poll follows after at least two units. */
  lemma BurstSchedule(ct: uint64, last: int)
    requires ct + REACH_AHEAD < TWO31 && 0 <= last <= 30
    ensures var (date, last') := BurstDate(ct, last);
            ct + 2 <= date <= ct + 27 && last <= last' <= 30
  {
    hide NotPast, Spaced;
    SmallStays(ct + BTIME);
    SpacedExact(ct + BTIME, last);
    NotPastExact(Spaced(ct + BTIME, last).0, ct);
  }

  lemma SpreadStaysSmall(ct: uint64, outdate: int32, ppoll: int, hpoll: int, last: int)
    requires ct < TWO63 && hpoll <= MAXPOLL && 0 <= last <= 30 && last % 5 == 0
    ensures var last' := NextDate(ct, outdate, ppoll, hpoll, last).1; 0 <= last' <= 30 && last' % 5 == 0
  {
    hide NotPast, Interval, Signed32;
  }

  // ---- One peer's polls over time ----

  /** The part of the client that decides when one peer is polled. Other peers
      share the spread, so it may move on its own. */
  datatype Timer = Timer(ct: uint64, outdate: int32, nextdate: int32, ppoll: int, hpoll: int, last: int)

  /** Time passes, another peer takes a share of the spread, a packet updates
      the peer's poll interval, one that fails the header checks leaves its poll
      field but no new date, or the timer expires and the peer is polled with
      some new host interval. */
  datatype Event = Pass(dt: nat) | Share(last: int) | Answer(ppoll: int) | Reject(ppoll: int) | Poll(hpoll: int)

  function Updated(t: Timer, poll: int): Timer
    requires t.ct < TWO63
  {
    var hpoll := ClampPoll(poll);
    var (date, last') := NextDate(t.ct, t.outdate, t.ppoll, hpoll, t.last);
    t.(nextdate := date, hpoll := hpoll, last := last')
  }

  predicate Due(t: Timer) { Wrap32(t.ct) >= Wrap32(t.nextdate) }

  function Apply(t: Timer, e: Event): Timer
    requires t.ct < TWO63
  {
    match e
    case Pass(dt) => if t.ct + dt < TWO63 then t.(ct := t.ct + dt) else t
    case Share(last) => if 0 <= last <= 30 then t.(last := last) else t
    case Answer(ppoll) => Updated(t.(ppoll := ppoll), t.hpoll)
    case Reject(ppoll) => t.(ppoll := ppoll)
    case Poll(hpoll) => if Due(t) then Updated(t.(outdate := Signed32(t.ct)), hpoll) else t
  }

  function After(t: Timer, events: seq<Event>): (t': Timer)
    requires t.ct < TWO63
    ensures t'.ct < TWO63
  {
    if events == [] then t else Apply(After(t, events[..|events| - 1]), events[|events| - 1])
  }

  /** Process times at which the peer is polled during a run. */
  function PollTimes(t: Timer, events: seq<Event>): seq<uint64>
    requires t.ct < TWO63
  {
    if events == [] then []
    else
      var init, e := events[..|events| - 1], events[|events| - 1];
      PollTimes(t, init) + (if e.Poll? && Due(After(t, init)) then [After(t, init).ct] else [])
  }

  predicate Sane(t: Timer) {
    0 <= t.outdate <= t.ct && MINPOLL <= t.hpoll <= MAXPOLL && 0 <= t.last <= 30
  }

  lemma UpdateSpaces(t: Timer, poll: int)
    requires t.ct + REACH_AHEAD < TWO31 && Sane(t)
    ensures var u := Updated(t, poll);
            Sane(u) && u.ct == t.ct && u.outdate == t.outdate &&
            t.outdate + 64 <= u.nextdate && t.ct < u.nextdate <= MaxI(t.ct + 1, t.outdate + REACH_AHEAD)
  {
    hide NextDate;
    Schedule(t.ct, t.outdate, t.ppoll, ClampPoll(poll), t.last);
  }

  /** The dates of a timer lie within the bounds. */
  ghost predicate Bounded(t: Timer) {
    t.outdate + 64 <= t.nextdate <= MaxI(t.ct + 1, t.outdate + REACH_AHEAD)
  }

  /** Consecutive polls lie at least 64 units apart, the last of them is the
      date on record, and the next one is due no sooner than 64 units after it
      and no later than the longest interval and spread, or the very next unit. */
  ghost predicate Apart(times: seq<uint64>, t: Timer) {
    (forall i :: 0 <= i < |times| - 1 ==> times[i] as int + 64 <= times[i + 1]) &&
    (times != [] ==> times[|times| - 1] == t.outdate && Bounded(t))
  }

  lemma StartApart(t: Timer)
    ensures Apart([], t)
  {
  }

  lemma SamePolls(times: seq<uint64>, t: Timer, u: Timer)
    requires Apart(times, t) && u.outdate == t.outdate && (times != [] && Bounded(t) ==> Bounded(u))
    ensures Apart(times + [], u)
  {
    assert times + [] == times;
  }

  lemma OneMorePoll(times: seq<uint64>, t: Timer, u: Timer)
    requires Apart(times, t) && (times != [] ==> t.outdate + 64 <= t.ct)
    requires u.outdate == t.ct && Bounded(u)
    ensures Apart(times + [t.ct], u)
  {
  }

  lemma DueApart(t: Timer, times: seq<uint64>)
    requires Due(t) && Apart(times, t) && Sane(t) && t.ct + REACH_AHEAD < TWO31
    ensures times != [] ==> t.outdate + 64 <= t.ct
  {
    if times != [] {
      SmallStays(t.nextdate);
    }
  }

  lemma StepApart(t: Timer, e: Event, times: seq<uint64>)
    requires t.ct < TWO63 && Sane(t) && Apart(times, t)
    requires t.ct <= Apply(t, e).ct && Apply(t, e).ct + REACH_AHEAD < TWO31
    ensures Sane(Apply(t, e))
    ensures Apart(times + (if e.Poll? && Due(t) then [t.ct] else []), Apply(t, e))
  {
    hide NextDate, Updated, Apart;
    match e {
      case Answer(ppoll) =>
        UpdateSpaces(t.(ppoll := ppoll), t.hpoll);
        SamePolls(times, t, Apply(t, e));
      case Poll(hpoll) =>
        SmallStays(t.ct);
        UpdateSpaces(t.(outdate := t.ct), hpoll);
        if Due(t) {
          DueApart(t, times);
          OneMorePoll(times, t, Apply(t, e));
        } else {
          SamePolls(times, t, Apply(t, e));
        }
      case _ =>
        SamePolls(times, t, Apply(t, e));
    }
  }

  lemma StepGrows(t: Timer, e: Event)
    requires t.ct < TWO63
    ensures t.ct <= Apply(t, e).ct < TWO63
  {
    hide NextDate;
  }

  /** Over every run of ticks, packets and polls, as long as dates fit an int,
      two polls of a peer are never less than 64 process-time units apart, and
      the next date never lies beyond the upper bound. */
  lemma {:induction false} PollsApart(t: Timer, events: seq<Event>)
    requires t.ct < TWO63 && Sane(t)
    requires After(t, events).ct + REACH_AHEAD < TWO31
    ensures Sane(After(t, events))
    ensures Apart(PollTimes(t, events), After(t, events))
  {
    hide Apply, Sane, Apart;
    if events == [] {
      StartApart(t);
    } else {
      var init, e := events[..|events| - 1], events[|events| - 1];
      StepGrows(After(t, init), e);
      PollsApart(t, init);
      StepApart(After(t, init), e, PollTimes(t, init));
    }
  }

  // ---- Back-off of a silent peer ----

  const UNREACH: int := 12

  /** Unreach counter and host poll interval after a poll that finds the
      register empty, with no burst enabled. */
  function SilentPoll(unreach: int, hpoll: int): (int, int) {
    (if unreach < UNREACH then unreach + 2 else unreach + 1,
     ClampPoll(if unreach < UNREACH then hpoll else hpoll + 1))
  }

  function SilentPolls(n: nat, unreach: int, hpoll: int): (int, int) {
    if n == 0 then (unreach, hpoll)
    else
      var (u, h) := SilentPolls(n - 1, unreach, hpoll);
      SilentPoll(u, h)
  }

  lemma {:induction false} BackOffRate(n: nat, unreach: int, hpoll: int)
    requires unreach >= 0 && MINPOLL <= hpoll <= MAXPOLL
    ensures var (u, h) := SilentPolls(n, unreach, hpoll);
            hpoll <= h <= MAXPOLL && u >= MinI(UNREACH, unreach + 2 * n) &&
            h >= MinI(MAXPOLL, hpoll + n - 6)
  {
    if n > 0 {
      BackOffRate(n - 1, unreach, hpoll);
    }
  }

  /** A silent peer's poll interval never falls and reaches the maximum within
      seventeen polls. */
  lemma BackOffReachesMaximum(n: nat, unreach: int, hpoll: int)
    requires unreach >= 0 && MINPOLL <= hpoll <= MAXPOLL
    ensures hpoll <= SilentPolls(n, unreach, hpoll).1
    ensures n >= 17 ==> SilentPolls(n, unreach, hpoll).1 == MAXPOLL
  {
    BackOffRate(n, unreach, hpoll);
  }

  // ---- The schedule in numbers ----

  lemma ClampInNumbers(poll: int)
    ensures ClampPoll(poll) == if poll < 6 then 6 else if poll > 17 then 17 else poll
  {
  }

  /** The next date as long as dates fit an int: the last poll plus two to the
      smaller poll exponent, but at least 64, spread by what the first six
      updates leave, and one unit from now when that is past. */
  lemma NextDateInNumbers(ct: uint64, outdate: int32, ppoll: int, hpoll: int, last: int)
    requires ct + 131097 < 0x8000_0000 && 0 <= outdate <= ct && 6 <= hpoll <= 17 && 0 <= last <= 30
    ensures var k := if ppoll < hpoll then (if ppoll < 6 then 6 else ppoll) else hpoll;
            var date := outdate + Pow2(k) + if last <= 25 then last else 0;
            NextDate(ct, outdate, ppoll, hpoll, last)
            == (if date <= ct then ct + 1 else date, if last <= 25 then last + 5 else last)
  {
    hide NotPast, Spaced, Pow2;
    IntervalRange(ppoll, hpoll);
    SmallStays(outdate + Interval(ppoll, hpoll));
    SpacedExact(outdate + Interval(ppoll, hpoll), last);
    NotPastExact(Spaced(outdate + Interval(ppoll, hpoll), last).0, ct);
  }

  /** A shorter peer interval brings the next date forward, by the difference of
      the intervals when neither date is past. */
  lemma ShorterIntervalIsSooner(ct: uint64, outdate: int32, short: int, long: int, hpoll: int, last: int)
    requires ct + 131097 < 0x8000_0000 && 0 <= outdate <= ct && 0 <= last <= 30
    requires 6 <= short <= long <= hpoll <= 17
    ensures var sooner := NextDate(ct, outdate, short, hpoll, last).0;
            var later := NextDate(ct, outdate, long, hpoll, last).0;
            sooner <= later && (ct < outdate + Pow2(short) ==> later - sooner == Pow2(long) - Pow2(short))
  {
    hide NextDate;
    NextDateInNumbers(ct, outdate, short, hpoll, last);
    NextDateInNumbers(ct, outdate, long, hpoll, last);
    Pow2Monotone(short, long);
  }

  /** From the first silent poll on, the poll exponent stays for six polls and
      then rises by one a poll up to the longest. */
  lemma {:induction false} SilentPollsInNumbers(n: nat, hpoll: int)
    requires 6 <= hpoll <= 17
    ensures SilentPolls(n, 0, hpoll)
            == (if n <= 6 then 2 * n else n + 6,
                if n <= 6 then hpoll else if hpoll + n - 6 < 17 then hpoll + n - 6 else 17)
  {
    if n > 0 {
      SilentPollsInNumbers(n - 1, hpoll);
    }
  }
}
