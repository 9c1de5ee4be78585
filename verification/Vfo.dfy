/** local_clock and rstclock on the clock and system structures. */
module Vfo {
  import opened Words
  import opened Ntp
  import opened LocalTime
  import opened Bisection
  import opened Discipline
  import opened Association

  method RstClock(c: Clock, s: Sys, state: int, t: uint64, offset: real)
    requires c.t < TWO63
    modifies c`state, c`offset, c`last, c`t, s`t
    ensures DisciplineOf(c, s) == Reset(old(DisciplineOf(c, s)), state, t, offset)
    ensures c.t == old(c.t) + 1
  {
    c.state := state;
    c.offset := offset;
    c.last := c.offset;
    s.t := t;
    c.t := c.t + 1;
  }

  method SetJitter(c: Clock, s: Sys, offset: real)
    modifies c`jitter
    ensures c.jitter == NewJitter(old(DisciplineOf(c, s)), offset, s.precision)
  {
    var etemp := Square(c.jitter);
    var dtemp := Square(MaxR(AbsR(offset - c.last), Log2D(s.precision)));
    ghost var halvings;
    c.jitter, halvings := Sqrt((etemp + (dtemp - etemp)) / AVG);
  }

  method SetWander(c: Clock, freq: real)
    modifies c`wander
    ensures c.wander == NewWander(old(c.wander), freq)
  {
    var etemp := Square(c.wander);
    var dtemp := Square(freq);
    ghost var halvings;
    c.wander, halvings := Sqrt(etemp + (dtemp - etemp) / AVG);
  }

  method AdjustPoll(c: Clock, s: Sys, inGate: bool)
    modifies c`count, s`poll
    ensures (s.poll, c.count) == PollAdjust(old(s.poll), old(c.count), inGate)
  {
    if inGate {
      c.count := c.count + s.poll;
      if c.count > LIMIT {
        c.count := LIMIT;
        if s.poll < MAXPOLL {
          c.count := 0;
          s.poll := s.poll + 1;
        }
      }
    } else {
      c.count := c.count - 2 * s.poll;
      if c.count < -LIMIT {
        c.count := -LIMIT;
        if s.poll > MINPOLL {
          c.count := 0;
          s.poll := s.poll - 1;
        }
      }
    }
  }

  /** The common tail: clamp, wander and poll hysteresis. */
  method AdjustFrequency(c: Clock, s: Sys, freq0: real)
    modifies c`freq, c`wander, c`count, s`poll
    ensures DisciplineOf(c, s) == Tune(old(DisciplineOf(c, s)), freq0)
  {
    var freq := freq0 + c.freq;
    c.freq := MaxR(MinR(MAXFREQ, freq), -MAXFREQ);
    SetWander(c, freq);
    AdjustPoll(c, s, AbsR(c.offset) < PGATE * c.jitter);
  }

  method LocalClock(c: Clock, s: Sys, pt: uint64, offset: real, junk: Junk) returns (rval: Outcome)
    requires c.t < TWO63
    modifies c, s`t, s`poll
    ensures (DisciplineOf(c, s), rval) == Update(old(DisciplineOf(c, s)), pt, offset, s.precision, junk)
    ensures c.lastTick == old(c.lastTick)
    ensures old(c.t) <= c.t <= old(c.t) + 1
    ensures s.t == old(s.t) || s.t == pt
    ensures rval != Step ==> c.localTime == old(c.localTime)
    ensures rval == Step && 0.0 <= offset < 1.0 ==>
              c.localTime == (old(c.localTime) - (offset * 4294967296.0).Floor) % 0x1_0000_0000_0000_0000
    ensures rval == Step ==> c.offset == 0.0 && (c.state == FREQ ==> c.count == 0 && s.poll == 6)
  {
    hide NewJitter, NewWander, LoopGain, PollAdjust, Fraction, Rate, Tune;
    StepMovesClock(DisciplineOf(c, s), pt, offset, s.precision, junk);
    if AbsR(offset) > PANICT {
      return Panic;
    }
    rval := Slew;
    var mu := Interval(pt, s.t);
    var freq := 0.0;
    if AbsR(offset) > STEPT {
      if c.state == SYNC {
        return rval;
      }
      if c.state == FREQ {
        if mu < WATCH {
          return Ignore;
        }
        freq := Rate(offset - c.offset, mu, junk);
      }
      if c.state == FREQ || c.state == SPIK {
        if mu < WATCH {
          return Ignore;
        }
      }
      StepTime(c, offset, junk.fraction);
      c.count := 0;
      s.poll := MINPOLL;
      rval := Step;
      if junk.state == NSET {
        RstClock(c, s, FREQ, pt, 0.0);
        return rval;
      }
      RstClock(c, s, SYNC, pt, 0.0);
    } else {
      SetJitter(c, s, offset);
      if c.state == NSET {
        RstClock(c, s, FREQ, pt, offset);
        return Ignore;
      } else if c.state == FSET {
        RstClock(c, s, SYNC, pt, offset);
      } else if c.state == FREQ {
        if Interval(c.t, s.t) < WATCH {
          return Ignore;
        }
        freq := Rate(offset - c.offset, mu, junk);
      } else {
        freq := LoopGain(DisciplineOf(c, s), offset, mu);
        RstClock(c, s, SYNC, pt, offset);
      }
    }
    AdjustFrequency(c, s, freq);
  }

  /** The first half of clock_adjust: process time, dispersion, phase. */
  method AdjustPhase(c: Clock, s: Sys, junk: Junk)
    requires c.t < TWO63
    modifies c`t, c`offset, c`localTime, s`rootdisp
    ensures DisciplineOf(c, s) == Tick(old(DisciplineOf(c, s)), junk)
    ensures c.t == old(c.t) + 1
    ensures s.rootdisp == old(s.rootdisp) + 0.000015
    ensures 0.0 <= c.freq + (old(c.offset) - c.offset) < 1.0 ==>
              c.localTime
              == (old(c.localTime) + ((c.freq + (old(c.offset) - c.offset)) * 4294967296.0).Floor)
                 % 0x1_0000_0000_0000_0000
  {
    hide Fraction;
    c.t := c.t + 1;
    s.rootdisp := s.rootdisp + PHI;
    var dtemp := c.offset / (PLL * MinR(Log2D(s.poll), ALLAN));
    c.offset := c.offset - dtemp;
    FractionBelowOne(c.freq + dtemp, junk.fraction);
    assert old(c.offset) - c.offset == dtemp;
    AdjustTime(c, c.freq + dtemp, junk.fraction);
  }
}
