/** Constants and the three structures the client works on: a peer
    association, the local clock and the system variables. */
module Ntp {
  import opened Words

  const MINDISP: real := 0.01
  const MAXDISP: real := 16.0
  const MAXDISP_ALG: real := 0.5
  const MAXDIST: real := 5.0
  const NOSYNC: int := 3
  const MAXSTRAT: int := 16
  const MINPOLL: int := 6
  const MAXPOLL: int := 17
  const PHI: real := 0.000015
  const NSTAGE: int := 8
  const NMAX: int := 5
  const NSANE: int := 1
  const NMIN: int := 3
  const LISTSIZE: int := 25
  const FRAC: real := 4294967296.0
  const FRIC: real := 65536.0

  // Packet modes.
  const M_SERV: int := 4

  const M_BCST: int := 5

  // Clock discipline states.
  const NSET: int := 0

  class Clock {
    var localTime: uint64
    var lastTick: uint32
    var t: uint64
    var state: int
    var offset: real
    var last: real
    var count: int
    var freq: real
    var jitter: real
    var wander: real

    constructor ()
      ensures localTime == 0 && lastTick == 0 && t == 0 && state == NSET
      ensures offset == last == freq == jitter == wander == 0.0 && count == 0
    {
      localTime, lastTick, t, state, count := 0, 0, 0, NSET, 0;
      offset, last, freq, jitter, wander := 0.0, 0.0, 0.0, 0.0, 0.0;
    }
  }

  const FSET: int := 1
  const SPIK: int := 2
  const FREQ: int := 3
  const SYNC: int := 4

  /** One stage of the clock filter. */
  datatype Stage = Stage(t: uint64, offset: real, delay: real, disp: real)

  /** One entry of the chime list: a peer, an edge type (-1 lower, 0 midpoint,
      +1 upper) and the edge itself. */
  datatype Chime<P> = Chime(p: P, kind: int, edge: real)

  class Peer {
    const dstaddr: uint32
    const iburstFlag: bool
    const burstFlag: bool
    var leap: int
    var pmode: int
    var stratum: int
    var ppoll: int
    var rootdelay: real
    var rootdisp: real
    var refid: uint32
    var reftime: uint64
    var t: uint64
    const f: array<Stage>
    var offset: real
    var delay: real
    var disp: real
    var jitter: real
    var hpoll: int
    var burst: int
    var reach: uint32
    var unreach: int
    var outdate: int32
    var nextdate: int32
    /** For each poll interval, most recent first: did a packet pass? */
    ghost var replies: seq<bool>
    /** Has poll_update set the next date yet? */
    ghost var spaced: bool

    /** mobilize followed by clear for a new association; random is the
        value drawn for the first poll. */
    constructor (c: Clock, dst: uint32, random: nat, iburst: bool, burstOn: bool)
      ensures dstaddr == dst && iburstFlag == iburst && burstFlag == burstOn
      ensures leap == NOSYNC && stratum == MAXSTRAT && ppoll == MAXPOLL && hpoll == MINPOLL
      ensures disp == MAXDISP_ALG && jitter == Log2D(-18) && refid == 0
      ensures pmode == 0 && rootdelay == rootdisp == offset == delay == 0.0 && reftime == 0
      ensures t == c.t && outdate == Signed32(c.t) && nextdate == Signed32(outdate + random % 64)
      ensures burst == unreach == 0 && reach == 0 && replies == [false] && !spaced
      ensures fresh(f) && f.Length == NSTAGE
      ensures forall i :: 0 <= i < NSTAGE ==> f[i] == Stage(0, 0.0, 0.0, MAXDISP_ALG)
    {
      dstaddr, iburstFlag, burstFlag := dst, iburst, burstOn;
      leap, stratum, ppoll, hpoll := NOSYNC, MAXSTRAT, MAXPOLL, MINPOLL;
      disp, jitter, refid := MAXDISP_ALG, Log2D(-18), 0;
      pmode, rootdelay, rootdisp, offset, delay, reftime := 0, 0.0, 0.0, 0.0, 0.0, 0;
      t, outdate, nextdate := c.t, Signed32(c.t), Signed32(Signed32(c.t) + random % 64);
      burst, unreach, reach, replies, spaced := 0, 0, 0, [false], false;
      f := new Stage[NSTAGE](_ => Stage(0, 0.0, 0.0, MAXDISP_ALG));
    }
  }

  /** One entry of the survivor list; a null peer is the sentinel. */
  datatype Survivor = Survivor(p: Peer?, metric: real)

  /** What a read leaves unspecified in the C program: locals that are never
      set, a quotient by zero, a field read through the null pointer, the edge
      read before the chime list, and the conversion of an out-of-range
      double. */
  datatype Junk = Junk(found: int, state: int, quotient: real, nullOffset: real, edge: real, fraction: uint32)

  class Sys {
    var t: uint64
    var leap: int
    var stratum: int
    var poll: int
    const precision: int := -18
    var rootdelay: real
    var rootdisp: real
    var refid: uint32
    var reftime: uint64
    const m: array<Chime<Peer?>>
    const v: array<Survivor>
    var p: Peer?
    var offset: real
    var jitter: real
    var n: int
    /** High-water mark of the survivor list over all selections so far. */
    ghost var mark: nat

    constructor ()
      ensures t == 0 && leap == NOSYNC && stratum == MAXSTRAT && poll == MINPOLL
      ensures rootdelay == rootdisp == offset == jitter == 0.0 && refid == 0 && reftime == 0
      ensures p == null && n == 0 && mark == 0
      ensures fresh(m) && m.Length == LISTSIZE
      ensures fresh(v) && v.Length == LISTSIZE
      ensures forall k :: 0 <= k < v.Length ==> v[k].p == null
    {
      t, leap, stratum, poll, refid, reftime := 0, NOSYNC, MAXSTRAT, MINPOLL, 0, 0;
      rootdelay, rootdisp, offset, jitter := 0.0, 0.0, 0.0, 0.0;
      p, n, mark := null, 0, 0;
      m := new Chime<Peer?>[LISTSIZE](_ => Chime(null, 0, 0.0));
      v := new Survivor[LISTSIZE](_ => Survivor(null, 0.0));
    }
  }
}
