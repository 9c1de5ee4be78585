/** Root distance, fitness, and what stays true of the client's structures. */
module Association {
  import opened Words
  import opened Ntp
  import opened HalfWord
  import opened Reach
  import opened Discipline

  /** LFP2D of a magnitude, times the frequency tolerance. */
  function Aging(d: int): real { PHI * (d as real / FRAC) }

  function RootDist(ct: uint64, p: Peer): real
    reads p`rootdelay, p`delay, p`rootdisp, p`disp, p`t, p`jitter
  {
    MaxR(MINDISP, p.rootdelay + p.delay) / 2.0 + p.rootdisp + p.disp + Aging(Difference(ct, p.t)) + p.jitter
  }

  /** What accept() reads besides the peer: process time, the system poll
      exponent and the system reference id. */
  datatype Moment = Moment(t: uint64, poll: int, refid: uint32)

  function Now(c: Clock, s: Sys): Moment
    reads c`t, s`poll, s`refid
  {
    Moment(c.t, s.poll, s.refid)
  }

  predicate Fit(now: Moment, p: Peer)
    reads p`leap, p`stratum, p`refid, p`reach, p`rootdelay, p`delay, p`rootdisp, p`disp, p`t, p`jitter
  {
    p.leap != NOSYNC && p.stratum < MAXSTRAT &&
    RootDist(now.t, p) <= MAXDIST + PHI * Log2D(now.poll) &&
    !(p.stratum != 1 && (p.refid == p.dstaddr || p.refid == now.refid)) &&
    p.reach != 0
  }

  function DisciplineOf(c: Clock, s: Sys): State
    reads c, s`t, s`poll
  {
    State(c.state, c.offset, c.last, c.freq, c.count, c.jitter, c.wander, c.localTime, c.t, s.t, s.poll)
  }

  /** What holds of every peer at process time ct. */
  ghost predicate PeerOk(p: Peer, ct: uint64)
    reads p, p.f
  {
    p.f.Length == NSTAGE && p.t <= ct &&
    (forall i :: 0 <= i < NSTAGE ==> p.f[i].t <= ct) &&
    p.rootdisp >= 0.0 && p.jitter >= 0.0 &&
    1 <= p.stratum && 0 <= p.ppoll && MINPOLL <= p.hpoll <= MAXPOLL &&
    p.unreach >= 0 && |p.replies| >= 1 && p.reach == Pack(p.replies, 32)
  }

  ghost predicate Distinct(peers: seq<Peer>) {
    forall i, j :: 0 <= i < j < |peers| ==> peers[i] != peers[j] && peers[i].f != peers[j].f
  }

  ghost predicate PeersOk(peers: seq<Peer>, ct: uint64)
    reads peers, set i | 0 <= i < |peers| :: peers[i].f
  {
    |peers| == NMAX && Distinct(peers) && forall i :: 0 <= i < NMAX ==> PeerOk(peers[i], ct)
  }

  /** No dispersion is negative. That holds only as long as no accepted packet
      carries a sample with a negative one. */
  ghost predicate DispsOk(peers: seq<Peer>)
    reads peers`disp
  {
    forall i :: 0 <= i < |peers| ==> peers[i].disp >= 0.0
  }

  /** The survivor list is non-null exactly below its high-water mark. */
  ghost predicate ListOk(s: Sys, peers: seq<Peer>)
    reads s`mark, s.v
  {
    s.m.Length == s.v.Length == LISTSIZE && s.mark <= 3 * NMAX &&
    (forall k :: 0 <= k < LISTSIZE ==> (s.v[k].p != null <==> k < s.mark)) &&
    (forall k :: 0 <= k < s.mark ==> s.v[k].p in peers)
  }

  ghost predicate SysOk(c: Clock, s: Sys, peers: seq<Peer>)
    reads c, s, s.v
  {
    c.t < TWO63 && s.t <= c.t && InRange(DisciplineOf(c, s)) &&
    2 <= s.stratum <= MAXSTRAT && (s.p == null || s.p in peers) && ListOk(s, peers)
  }

  ghost predicate Healthy(c: Clock, s: Sys, peers: seq<Peer>)
    reads c, s, s.v, peers, set i | 0 <= i < |peers| :: peers[i].f
  {
    SysOk(c, s, peers) && PeersOk(peers, c.t)
  }

  lemma PeersOkLater(peers: seq<Peer>, earlier: uint64, later: uint64)
    requires PeersOk(peers, earlier) && earlier <= later
    ensures PeersOk(peers, later)
  {
  }

  lemma AgingNonNegative(d: int)
    requires d >= 0
    ensures Aging(d) >= 0.0
  {
  }

  /** A peer of non-negative dispersion is at least half the minimum dispersion
      away, which is what keeps the correctness intervals proper and the weights
      finite. */
  lemma RootDistFloor(ct: uint64, p: Peer)
    requires PeerOk(p, ct) && ct < TWO63 && p.disp >= 0.0
    ensures RootDist(ct, p) >= MINDISP / 2.0
  {
    DifferenceExact(ct, p.t);
    AgingNonNegative(Difference(ct, p.t));
  }

  /** A peer whose dispersion has reached 8 s fails the distance test at every
      poll interval the system can have. */
  lemma DispersionEight(now: Moment, p: Peer)
    requires PeerOk(p, now.t) && now.t < TWO63 && MINPOLL <= now.poll <= MAXPOLL
    requires p.disp >= 8.0
    ensures !Fit(now, p)
  {
    DifferenceExact(now.t, p.t);
    AgingNonNegative(Difference(now.t, p.t));
    Pow2Monotone(now.poll, 17);
    assert Pow2(17) == 131072 by {
      assert Pow2(9) == 512;
      assert Pow2(17) == 256 * Pow2(9);
    }
    assert PHI * Log2D(now.poll) <= PHI * 131072.0 < 2.0;
  }
}
