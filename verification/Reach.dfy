/** The reachability register as a picture of the reply history. */
module Reach {
  import opened Words

  /** A poll opens a new interval; a reply marks the current one. */
  datatype Event = Poll | Reply

  /** poll() shifts the register left, packet() sets its lowest bit. */
  function Shift(reach: uint32): uint32 { Wrap32(2 * reach) }

  function SetLowest(reach: uint32): uint32 { if reach % 2 == 1 then reach else reach + 1 }

  function Register(events: seq<Event>): uint32 {
    if events == [] then 0
    else
      var before := Register(events[..|events| - 1]);
      if events[|events| - 1].Poll? then Shift(before) else SetLowest(before)
  }

  /** Reply history by interval, most recent first. */
  function Replies(events: seq<Event>): (h: seq<bool>)
    ensures |h| >= 1
  {
    if events == [] then [false]
    else
      var before := Replies(events[..|events| - 1]);
      if events[|events| - 1].Poll? then [false] + before else before[0 := true]
  }

  /** The number whose n lowest bits are the first n entries of h. */
  function Pack(h: seq<bool>, n: nat): nat {
    if n == 0 || h == [] then 0
    else (if h[0] then 1 else 0) + 2 * Pack(h[1..], n - 1)
  }

  lemma {:induction false} PackBound(h: seq<bool>, n: nat)
    ensures Pack(h, n) < Pow2(n)
  {
    if n > 0 && h != [] {
      PackBound(h[1..], n - 1);
    }
  }

  lemma SmallMod(x: nat, d: nat)
    requires x < d
    ensures x % d == x
  {
  }

  lemma MulAtLeast(d: nat, k: int)
    requires k >= 1
    ensures d * k >= d
  {
  }

  lemma ModUnique(x: int, d: int, q: int, r: int)
    requires 0 <= r < d && x == d * q + r
    ensures x % d == r
  {
    var q', r' := x / d, x % d;
    assert x == d * q' + r';
    assert d * (q - q') == r' - r;
    if q - q' >= 1 {
      MulAtLeast(d, q - q');
    } else if q - q' <= -1 {
      MulAtLeast(d, q' - q);
    }
  }

  lemma DoubleMod(x: nat, d: nat, b: nat)
    requires d > 0 && b <= 1
    ensures (b + 2 * x) % (2 * d) == b + 2 * (x % d)
  {
    var q, r := x / d, x % d;
    assert x == d * q + r;
    var s := b + 2 * r;
    assert b + 2 * x == (2 * d) * q + s;
    ModUnique(b + 2 * x, 2 * d, q, s);
  }

  lemma {:induction false} PackMore(h: seq<bool>, n: nat)
    ensures Pack(h, n + 1) % Pow2(n) == Pack(h, n)
  {
    PackBound(h, n);
    if n == 0 {
    } else if h == [] {
      SmallMod(0, Pow2(n));
    } else {
      PackMore(h[1..], n - 1);
      DoubleMod(Pack(h[1..], n), Pow2(n - 1), if h[0] then 1 else 0);
    }
  }

  lemma PackHead(h: seq<bool>, n: nat)
    requires h != []
    ensures Pack(h, n + 1) == (if h[0] then 1 else 0) + 2 * Pack(h[1..], n)
  {
  }

  lemma ShiftHistory(h: seq<bool>)
    ensures Pack(h, 32) < TWO32
    ensures Shift(Pack(h, 32)) == Pack([false] + h, 32)
  {
    hide Pow2;
    PackBound(h, 32);
    Pow2Of32();
    PackMore([false] + h, 32);
    PackHead([false] + h, 32);
    assert ([false] + h)[1..] == h;
  }

  lemma LowestSet(b: nat, x: nat)
    requires b <= 1 && b + 2 * x < TWO32
    ensures SetLowest(b + 2 * x) == 1 + 2 * x
  {
  }

  lemma MarkHistory(h: seq<bool>)
    requires |h| >= 1
    ensures Pack(h, 32) < TWO32
    ensures SetLowest(Pack(h, 32)) == Pack(h[0 := true], 32)
  {
    hide Pack, Pow2, SetLowest;
    PackBound(h, 32);
    Pow2Of32();
    assert h[0 := true][1..] == h[1..];
    PackHead(h, 31);
    PackHead(h[0 := true], 31);
    LowestSet(if h[0] then 1 else 0, Pack(h[1..], 31));
  }

  lemma PackOne(n: nat)
    ensures Pack([false], n) == 0
  {
  }

  /** After any sequence of polls and accepted packets the register is the
      packed history of the last 32 intervals. */
  lemma {:induction false} RegisterIsHistory(events: seq<Event>)
    ensures Register(events) == Pack(Replies(events), 32)
  {
    if events == [] {
      assert Replies([]) == [false];
      PackOne(32);
    } else {
      var before := events[..|events| - 1];
      RegisterIsHistory(before);
      ShiftHistory(Replies(before));
      MarkHistory(Replies(before));
    }
  }

  function Bit(x: nat, i: nat): bool { x / Pow2(i) % 2 == 1 }

  lemma CancelFactor(d: nat, a: int, b: int)
    requires d > 0 && d * a == d * b
    ensures a == b
  {
    if a > b {
      MulAtLeast(d, a - b);
    } else if a < b {
      MulAtLeast(d, b - a);
    }
  }

  lemma HalfShift(x: nat, d: nat, b: nat)
    requires d > 0 && b <= 1
    ensures (b + 2 * x) / (2 * d) == x / d
  {
    DoubleMod(x, d, b);
    var y := b + 2 * x;
    assert y == (2 * d) * (y / (2 * d)) + y % (2 * d);
    assert x == d * (x / d) + x % d;
    assert (2 * d) * (y / (2 * d)) == (2 * d) * (x / d);
    CancelFactor(2 * d, y / (2 * d), x / d);
  }

  lemma BitOfSum(x: nat, b: nat, i: nat)
    requires b <= 1
    ensures Bit(b + 2 * x, i) <==> if i == 0 then b == 1 else Bit(x, i - 1)
  {
    if i > 0 {
      HalfShift(x, Pow2(i - 1), b);
    }
  }

  lemma ZeroBit(i: nat)
    ensures !Bit(0, i)
  {
  }

  lemma {:induction false} PackBit(h: seq<bool>, n: nat, i: nat)
    requires i < n
    ensures Bit(Pack(h, n), i) <==> i < |h| && h[i]
  {
    if h == [] {
      ZeroBit(i);
    } else {
      var b := if h[0] then 1 else 0;
      assert Pack(h, n) == b + 2 * Pack(h[1..], n - 1);
      BitOfSum(Pack(h[1..], n - 1), b, i);
      if i > 0 {
        PackBit(h[1..], n - 1, i - 1);
      }
    }
  }

  /** Bit i is set exactly when a packet passed the checks in the i-th most
      recent poll interval. */
  lemma BitMeansReply(events: seq<Event>, i: nat)
    requires i < 32
    ensures Bit(Register(events), i) <==> i < |Replies(events)| && Replies(events)[i]
  {
    RegisterIsHistory(events);
    PackBit(Replies(events), 32, i);
  }

  lemma {:induction false} PackZero(h: seq<bool>, n: nat)
    ensures Pack(h, n) == 0 <==> forall i :: 0 <= i < n && i < |h| ==> !h[i]
  {
    if n > 0 && h != [] {
      PackZero(h[1..], n - 1);
      if Pack(h, n) == 0 {
        forall i | 0 <= i < n && i < |h|
          ensures !h[i]
        {
          assert i > 0 ==> h[i] == h[1..][i - 1];
        }
      }
      assert forall i :: 0 <= i < |h| - 1 ==> h[1..][i] == h[i + 1];
    }
  }

  /** The server counts as unreachable exactly when none of the last 32
      intervals saw an accepted packet. */
  lemma UnreachableMeansSilence(events: seq<Event>)
    ensures Register(events) == 0 <==>
            forall i :: 0 <= i < 32 && i < |Replies(events)| ==> !Replies(events)[i]
  {
    RegisterIsHistory(events);
    PackZero(Replies(events), 32);
  }

  lemma {:induction false} PackLow(h: seq<bool>, extra: nat, n: nat)
    ensures Pack(h, n + extra) % Pow2(n) == Pack(h, n)
  {
    PackBound(h, n);
    if n == 0 {
    } else if h == [] {
      SmallMod(0, Pow2(n));
    } else {
      PackLow(h[1..], extra, n - 1);
      DoubleMod(Pack(h[1..], n - 1 + extra), Pow2(n - 1), if h[0] then 1 else 0);
    }
  }

  /** The three lowest bits, which decide whether poll() feeds the filter a
      dummy sample, are clear exactly when the last three intervals were
      silent. */
  lemma ThreeSilentIntervals(h: seq<bool>)
    ensures Pack(h, 32) % 8 == 0 <==> forall i :: 0 <= i < 3 && i < |h| ==> !h[i]
  {
    PackLow(h, 29, 3);
    PackZero(h, 3);
    assert Pow2(3) == 8;
  }

  predicate AnsweredNear(h: seq<bool>, j: nat)
    requires j < |h|
  {
    h[j] || (j + 1 < |h| && h[j + 1])
  }

  /** Of every two neighbouring closed intervals at least one was answered;
      index 0 is the interval still open, and silence precedes the first. */
  ghost predicate Steady(h: seq<bool>) {
    forall j :: 1 <= j < |h| ==> AnsweredNear(h, j)
  }

  /** Opening an interval ends a steady history exactly when it clears the three
      lowest bits of the register. */
  lemma SteadyUnlessSilent(h: seq<bool>)
    requires h != [] && Steady(h)
    ensures Steady([false] + h) <==> Pack([false] + h, 32) % 8 != 0
  {
    hide Pack;
    var g := [false] + h;
    ThreeSilentIntervals(g);
    if Pack(g, 32) % 8 != 0 {
      var i :| 0 <= i < 3 && i < |g| && g[i];
      assert AnsweredNear(g, 1);
      forall j | 2 <= j < |g|
        ensures AnsweredNear(g, j)
      {
        assert AnsweredNear(h, j - 1);
      }
    } else {
      assert !AnsweredNear(g, 1);
    }
  }

  lemma MarkKeepsSteady(h: seq<bool>)
    requires h != [] && Steady(h)
    ensures Steady(h[0 := true])
  {
    var g := h[0 := true];
    forall j | 1 <= j < |g|
      ensures AnsweredNear(g, j)
    {
      assert AnsweredNear(h, j);
    }
  }

  /** No packet passed since the n-th last poll, nor in the 31 intervals before
      it: the register was empty at each of the last n polls. */
  ghost predicate Quiet(h: seq<bool>, n: nat) {
    forall i :: 0 <= i < n + 31 && i < |h| ==> !h[i]
  }

  lemma QuietUnfolds(h: seq<bool>, n: nat)
    requires Quiet([false] + h, n + 1)
    ensures Pack([false] + h, 32) == 0 && Quiet(h, n)
  {
    var g := [false] + h;
    PackZero(g, 32);
    forall i | 0 <= i < n + 31 && i < |h|
      ensures !h[i]
    {
      assert !g[i + 1];
    }
  }
}
