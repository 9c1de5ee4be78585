/** One tick of the client, turn by turn: whom it polls and whom packets touch. */
module Rounds {
  import opened Words
  import opened Ntp
  import opened Discipline
  import opened SystemProcess
  import opened PeerProcess
  import opened PollProcess
  import opened Upkeep

  datatype Option<T> = None | Some(value: T)

  /** A packet that reached packet() for the peer at an index of the table, with
      the tick count at its arrival. */
  datatype Reply = Reply(index: nat, message: Message, tick: uint32, junk: Junk)

  /** One turn of the peer loop: what a poll sees, and the packet read after it. */
  datatype Turn = Turn(sending: Sending, junk: Junk, reply: Option<Reply>)

  predicate TurnsOk(turns: seq<Turn>) {
    |turns| == NMAX && forall i :: 0 <= i < NMAX && turns[i].reply.Some? ==> turns[i].reply.value.index < NMAX
  }

  predicate TurnPlausible(turn: Turn) { turn.reply.Some? ==> Plausible(turn.reply.value.message) }

  lemma ProgressTransitive(a: State, b: State, c: State)
    requires Progress(a, b) && Progress(b, c)
    ensures Progress(a, c)
  {
  }

  // ---- Views of the peer table ----

  ghost function DispsOf(peers: seq<Peer>): (ds: seq<real>)
    reads peers`disp
    ensures |ds| == |peers| && forall i :: 0 <= i < |peers| ==> ds[i] == peers[i].disp
  {
    if peers == [] then [] else DispsOf(peers[..|peers| - 1]) + [peers[|peers| - 1].disp]
  }

  /** How many poll intervals each peer has opened. */
  ghost function IntervalsOf(peers: seq<Peer>): (ns: seq<nat>)
    reads peers`replies
    ensures |ns| == |peers| && forall i :: 0 <= i < |peers| ==> ns[i] == |peers[i].replies|
  {
    if peers == [] then [] else IntervalsOf(peers[..|peers| - 1]) + [|peers[|peers| - 1].replies|]
  }

  ghost function OutdatesOf(peers: seq<Peer>): (ds: seq<int32>)
    reads peers`outdate
    ensures |ds| == |peers| && forall i :: 0 <= i < |peers| ==> ds[i] == peers[i].outdate
  {
    if peers == [] then [] else OutdatesOf(peers[..|peers| - 1]) + [peers[|peers| - 1].outdate]
  }

  ghost function RepliesOf(peers: seq<Peer>): (hs: seq<seq<bool>>)
    reads peers`replies
    ensures |hs| == |peers| && forall i :: 0 <= i < |peers| ==> hs[i] == peers[i].replies
  {
    if peers == [] then [] else RepliesOf(peers[..|peers| - 1]) + [peers[|peers| - 1].replies]
  }

  ghost function DatesOf(peers: seq<Peer>): (ds: seq<int32>)
    reads peers`nextdate
    ensures |ds| == |peers| && forall i :: 0 <= i < |peers| ==> ds[i] == peers[i].nextdate
  {
    if peers == [] then [] else DatesOf(peers[..|peers| - 1]) + [peers[|peers| - 1].nextdate]
  }

  /** The discipline state, whether all packets so far were plausible, and, by
      peer, dispersions, interval counts and dates. */
  datatype Round = Round(d: State, clean: bool, disps: seq<real>, intervals: seq<nat>, dates: seq<int32>)

  ghost predicate NoLess(before: seq<real>, after: seq<real>) {
    |before| == |after| && forall i :: 0 <= i < |before| ==> before[i] <= after[i]
  }

  lemma NoLessTransitive(a: seq<real>, b: seq<real>, c: seq<real>)
    requires NoLess(a, b) && NoLess(b, c)
    ensures NoLess(a, c)
  {
  }

  /** Dispersions only grow as long as packets are plausible. */
  ghost predicate Cleanly(a: Round, b: Round, plausible: bool) {
    (b.clean <==> a.clean && plausible) && (b.clean ==> NoLess(a.disps, b.disps))
  }

  lemma CleanlyTransitive(a: Round, b: Round, c: Round, first: bool, second: bool)
    requires Cleanly(a, b, first) && Cleanly(b, c, second)
    ensures Cleanly(a, c, first && second)
  {
    if c.clean {
      NoLessTransitive(a.disps, b.disps, c.disps);
    }
  }

  // ---- One turn ----

  /** Only the peer served and the peer a packet goes to get new dates. */
  ghost predicate DatesKept(before: seq<int32>, after: seq<int32>, i: nat, reply: Option<Reply>) {
    |before| == |after| &&
    forall j :: 0 <= j < |before| && j != i && (reply.Some? ==> reply.value.index != j) ==> after[j] == before[j]
  }

  /** What one turn of the peer loop does. */
  ghost predicate Served(a: Round, b: Round, i: nat, turn: Turn, due: bool) {
    Progress(a.d, b.d) && b.d.ct <= a.d.ct + 2 && i < |a.intervals| &&
    (b.clean ==> a.clean && NoLess(a.disps, b.disps)) && (a.clean && TurnPlausible(turn) ==> b.clean) &&
    b.intervals == (if due then a.intervals[i := a.intervals[i] + 1] else a.intervals) &&
    DatesKept(a.dates, b.dates, i, turn.reply)
  }

  /** What the poll of a turn does. */
  ghost predicate Polled(a: Round, b: Round, i: nat) {
    Progress(a.d, b.d) && b.d.ct <= a.d.ct + 1 && i < |a.intervals| && Cleanly(a, b, true) &&
    b.intervals == a.intervals[i := a.intervals[i] + 1] && DatesKept(a.dates, b.dates, i, None)
  }

  /** What a packet does: one peer may get a new date, none is polled. */
  ghost predicate Delivered(a: Round, b: Round, reply: Reply) {
    Progress(a.d, b.d) && b.d.ct <= a.d.ct + 1 && Cleanly(a, b, Plausible(reply.message)) &&
    b.intervals == a.intervals &&
    |a.dates| == |b.dates| && forall j :: 0 <= j < |a.dates| && j != reply.index ==> b.dates[j] == a.dates[j]
  }

  lemma DeliveredTime(a: Round, b: Round, reply: Reply)
    requires Delivered(a, b, reply)
    ensures Progress(a.d, b.d) && a.d.ct <= b.d.ct
  {
  }

  /** A change of the local time alone in front of it makes no difference. */
  lemma DeliveredLocal(a: Round, mid: Round, b: Round, reply: Reply)
    requires mid == a.(d := a.d.(localTime := mid.d.localTime)) && Delivered(mid, b, reply)
    ensures Delivered(a, b, reply)
  {
  }

  lemma NotServed(a: Round, i: nat, turn: Turn)
    requires i < |a.intervals|
    ensures Served(a, a, i, turn, false)
  {
  }

  /** An accepted packet marks the open interval of its own peer only. */
  ghost predicate RepliesMarked(before: seq<seq<bool>>, after: seq<seq<bool>>, reply: Reply) {
    |before| == |after| &&
    forall i :: 0 <= i < |before| ==>
      after[i] ==
      if i == reply.index && Accepted(reply.message.h) && before[i] != [] then before[i][0 := true] else before[i]
  }

  lemma PolledAlone(a: Round, b: Round, i: nat, turn: Turn)
    requires Polled(a, b, i)
    ensures Served(a, b, i, turn, true)
  {
  }

  lemma PolledAndDelivered(a: Round, mid: Round, b: Round, i: nat, turn: Turn)
    requires turn.reply.Some? && Polled(a, mid, i) && Delivered(mid, b, turn.reply.value)
    ensures Served(a, b, i, turn, true)
  {
    hide Progress, NoLess, Plausible;
    ProgressTransitive(a.d, mid.d, b.d);
    CleanlyTransitive(a, mid, b, true, Plausible(turn.reply.value.message));
  }

  // ---- The turns of a tick ----

  /** No peer was polled twice. */
  ghost predicate AtMostOneMore(before: seq<nat>, after: seq<nat>, n: nat) {
    |before| == |after| && n <= |before| &&
    (forall i :: 0 <= i < n ==> before[i] <= after[i] <= before[i] + 1) &&
    (forall i :: n <= i < |before| ==> after[i] == before[i])
  }

  lemma OneMoreStep(before: seq<nat>, mid: seq<nat>, i: nat, due: bool)
    requires AtMostOneMore(before, mid, i) && i < |mid|
    ensures AtMostOneMore(before, if due then mid[i := mid[i] + 1] else mid, i + 1)
  {
  }

  lemma MoreWidens(before: seq<nat>, after: seq<nat>, n: nat)
    requires AtMostOneMore(before, after, n)
    ensures AtMostOneMore(before, after, |before|)
  {
  }

  /** A packet read in the first n turns went to peer j. */
  ghost predicate Addressed(turns: seq<Turn>, n: nat, j: nat) {
    exists k :: 0 <= k < n && k < |turns| && turns[k].reply.Some? && turns[k].reply.value.index == j
  }

  /** From the n-th peer on, dates that no packet has touched are as they were. */
  ghost predicate DatesStand(before: seq<int32>, after: seq<int32>, turns: seq<Turn>, n: nat) {
    |before| == |after| &&
    forall j :: n <= j < |before| && !Addressed(turns, n, j) ==> after[j] == before[j]
  }

  lemma DatesStandStep(before: seq<int32>, mid: seq<int32>, after: seq<int32>, turns: seq<Turn>, i: nat)
    requires DatesStand(before, mid, turns, i) && i < |turns| && DatesKept(mid, after, i, turns[i].reply)
    ensures DatesStand(before, after, turns, i + 1)
  {
  }

  /** Of the first n peers, each that was due at process time ct and that no
      packet touched before its turn has been polled, unless the low word of
      process time is about to wrap. */
  ghost predicate AllDuePolled(ct: uint64, dates: seq<int32>, turns: seq<Turn>, before: seq<nat>, after: seq<nat>,
                               n: nat) {
    |dates| == |before| == |after| && n <= |before| &&
    (Wrap32(ct) + 11 < TWO32 ==>
       forall j :: 0 <= j < n && !Addressed(turns, j, j) && Wrap32(ct) >= Wrap32(dates[j]) ==>
         after[j] == before[j] + 1)
  }

  lemma LowWordMoves(ct: uint64, now: uint64)
    requires ct <= now <= ct + 10 && Wrap32(ct) + 11 < TWO32
    ensures Wrap32(now) == Wrap32(ct) + (now - ct)
  {
  }

  /** What is due at the start of a tick is due at its turn. */
  lemma DueStep(ct: uint64, now: uint64, dates: seq<int32>, later: seq<int32>, turns: seq<Turn>,
                before: seq<nat>, mid: seq<nat>, i: nat, due: bool)
    requires ct <= now <= ct + 10 && i < |later| && DatesStand(dates, later, turns, i)
    requires AtMostOneMore(before, mid, i) && AllDuePolled(ct, dates, turns, before, mid, i)
    requires due <==> Wrap32(now) >= Wrap32(later[i])
    ensures AllDuePolled(ct, dates, turns, before, if due then mid[i := mid[i] + 1] else mid, i + 1)
  {
    hide Wrap32, Addressed;
    if Wrap32(ct) + 11 < TWO32 {
      LowWordMoves(ct, now);
    }
  }

  lemma DueByDate(ct: uint64, peers: seq<Peer>, i: nat)
    requires i < |peers|
    ensures DueNow(ct, peers[i]) <==> Wrap32(ct) >= Wrap32(DatesOf(peers)[i])
  {
  }

  /** What the first n turns have done since the tick started. */
  ghost predicate Ticking(a: Round, b: Round, turns: seq<Turn>, n: nat) {
    Progress(a.d, b.d) && b.d.ct <= a.d.ct + 2 * n && n <= |turns| &&
    (b.clean ==> a.clean && NoLess(a.disps, b.disps)) &&
    (a.clean && (forall k :: 0 <= k < n ==> TurnPlausible(turns[k])) ==> b.clean) &&
    AtMostOneMore(a.intervals, b.intervals, n) && DatesStand(a.dates, b.dates, turns, n) &&
    AllDuePolled(a.d.ct, a.dates, turns, a.intervals, b.intervals, n)
  }

  lemma TickStarts(a: Round, turns: seq<Turn>)
    requires |a.dates| == |a.intervals|
    ensures Ticking(a, a, turns, 0)
  {
  }

  lemma TickStep(a: Round, mid: Round, b: Round, turns: seq<Turn>, i: nat, due: bool)
    requires Ticking(a, mid, turns, i) && i < NMAX && i < |mid.dates| && i < |turns|
    requires Served(mid, b, i, turns[i], due)
    requires due <==> Wrap32(mid.d.ct) >= Wrap32(mid.dates[i])
    ensures Ticking(a, b, turns, i + 1)
  {
    hide AtMostOneMore, AllDuePolled, DatesStand, DatesKept, NoLess, Progress, TurnPlausible;
    ProgressTransitive(a.d, mid.d, b.d);
    ProgressTime(a.d, mid.d);
    if b.clean {
      NoLessTransitive(a.disps, mid.disps, b.disps);
    }
    OneMoreStep(a.intervals, mid.intervals, i, due);
    DatesStandStep(a.dates, mid.dates, b.dates, turns, i);
    DueStep(a.d.ct, mid.d.ct, a.dates, mid.dates, turns, a.intervals, mid.intervals, i, due);
  }

  lemma TickTime(a: Round, b: Round, turns: seq<Turn>, n: nat)
    requires Ticking(a, b, turns, n)
    ensures a.d.ct <= b.d.ct
  {
  }

  /** A whole tick, or the part of it before the program ended; ct is the process
      time at which it polls. */
  ghost predicate Ticked(ct: uint64, a: Round, b: Round, turns: seq<Turn>, exited: bool) {
    (a.clean && (forall k :: 0 <= k < |turns| ==> TurnPlausible(turns[k])) ==> b.clean) &&
    (b.clean ==> a.clean && NoLess(a.disps, b.disps)) &&
    AtMostOneMore(a.intervals, b.intervals, |a.intervals|) &&
    (!exited ==> AllDuePolled(ct, a.dates, turns, a.intervals, b.intervals, |a.intervals|))
  }

  lemma TickEnds(before: Round, a: Round, b: Round, turns: seq<Turn>, n: nat, exited: bool)
    requires a == before.(d := a.d) && Progress(before.d, a.d) && Ticking(a, b, turns, n)
    requires !exited ==> n == |a.intervals|
    ensures Progress(before.d, b.d) && a.d.ct <= b.d.ct && Ticked(a.d.ct, before, b, turns, exited)
    ensures !exited ==> AllDuePolled(a.d.ct, a.dates, turns, a.intervals, b.intervals, |a.intervals|)
  {
    hide AllDuePolled, DatesStand, NoLess, TurnPlausible;
    ProgressTransitive(before.d, a.d, b.d);
    MoreWidens(a.intervals, b.intervals, n);
  }
}
