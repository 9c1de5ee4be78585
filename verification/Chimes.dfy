/** The intersection algorithm as a statement about sorted chime lists. */
module Chimes {
  import opened Ntp

  /** A fit peer as the selection sees it. */
  datatype Source<P> = Source(p: P, offset: real, dist: real) {
    function Lower(): real { offset - dist }
    function Upper(): real { offset + dist }
    predicate Covers(x: real) { Lower() <= x <= Upper() }
  }

  function EdgesOf<P>(f: Source<P>): seq<Chime<P>> {
    [Chime(f.p, -1, f.Lower()), Chime(f.p, 0, f.offset), Chime(f.p, 1, f.Upper())]
  }

  /** The chime list before sorting: three entries a source, in order. */
  function ChimeList<P>(fs: seq<Source<P>>): (ms: seq<Chime<P>>)
    ensures |ms| == 3 * |fs|
  {
    if fs == [] then [] else ChimeList(fs[..|fs| - 1]) + EdgesOf(fs[|fs| - 1])
  }

  ghost predicate Sorted<P>(ms: seq<Chime<P>>) {
    forall i, j :: 0 <= i < j < |ms| ==> ms[i].edge <= ms[j].edge
  }

  /** Any outcome of qsort on the chime list of some sources; ties may come out
      in any order. */
  ghost predicate Arranged<P>(ms: seq<Chime<P>>, fs: seq<Source<P>>) {
    Sorted(ms) && multiset(ms) == multiset(ChimeList(fs))
  }

  /** The list the algorithm is meant for: every source has a positive
      distance, so its three edges come in order. */
  ghost predicate SortedChimes<P>(ms: seq<Chime<P>>, fs: seq<Source<P>>) {
    Sorted(ms) && multiset(ms) == multiset(ChimeList(fs)) && forall f :: f in fs ==> f.dist > 0.0
  }

  ghost predicate EdgeOf<P>(c: Chime<P>, f: Source<P>) { c in EdgesOf(f) }

  lemma {:induction false} ChimeListMembers<P>(fs: seq<Source<P>>, c: Chime<P>)
    ensures c in ChimeList(fs) <==> exists f :: f in fs && EdgeOf(c, f)
  {
    if fs != [] {
      var last := fs[|fs| - 1];
      ChimeListMembers(fs[..|fs| - 1], c);
      assert fs == fs[..|fs| - 1] + [last];
      assert c in ChimeList(fs) <==> c in ChimeList(fs[..|fs| - 1]) || EdgeOf(c, last);
    }
  }

  lemma SortedMembers<P>(ms: seq<Chime<P>>, fs: seq<Source<P>>, c: Chime<P>)
    requires Arranged(ms, fs)
    ensures c in ms <==> exists f :: f in fs && EdgeOf(c, f)
  {
    ChimeListMembers(fs, c);
    assert c in ms <==> c in multiset(ms);
    assert c in ChimeList(fs) <==> c in multiset(ChimeList(fs));
  }

  /** The source behind a chime, and where one of its edges stands. */
  lemma SourceOf<P>(ms: seq<Chime<P>>, fs: seq<Source<P>>, i: nat) returns (f: Source<P>)
    requires Arranged(ms, fs) && i < |ms|
    ensures f in fs && EdgeOf(ms[i], f)
  {
    SortedMembers(ms, fs, ms[i]);
    f :| f in fs && EdgeOf(ms[i], f);
  }

  lemma PlaceOf<P>(ms: seq<Chime<P>>, fs: seq<Source<P>>, f: Source<P>, c: Chime<P>) returns (i: nat)
    requires Arranged(ms, fs) && f in fs && EdgeOf(c, f)
    ensures i < |ms| && ms[i] == c
  {
    SortedMembers(ms, fs, c);
    i :| 0 <= i < |ms| && ms[i] == c;
  }

  // ---- Where the two scans stop ----

  const HUGE: real := 2000000000.0

  /** Index of the first chime of a kind, or the length when there is none. */
  function FirstOf<P>(ms: seq<Chime<P>>, kind: int): (i: nat)
    ensures i <= |ms|
    ensures i < |ms| ==> ms[i].kind == kind
    ensures forall k :: 0 <= k < i ==> ms[k].kind != kind
  {
    if ms == [] then 0 else if ms[0].kind == kind then 0 else 1 + FirstOf(ms[1..], kind)
  }

  lemma FirstIsUnique<P>(ms: seq<Chime<P>>, kind: int, i: nat)
    requires i < |ms| && ms[i].kind == kind
    requires forall k :: 0 <= k < i ==> ms[k].kind != kind
    ensures FirstOf(ms, kind) == i
  {
  }

  /** A chime of a later kind comes strictly after its source's earlier one. */
  lemma EdgesInOrder<P>(ms: seq<Chime<P>>, fs: seq<Source<P>>, i: nat) returns (j: nat)
    requires SortedChimes(ms, fs) && i < |ms| && ms[i].kind != -1
    ensures j < i && ms[j].p == ms[i].p && ms[j].kind == ms[i].kind - 1
  {
    var f := SourceOf(ms, fs, i);
    var before := if ms[i].kind == 0 then EdgesOf(f)[0] else EdgesOf(f)[1];
    j := PlaceOf(ms, fs, f, before);
    assert ms[j].edge < ms[i].edge;
  }

  lemma KindsOf<P>(ms: seq<Chime<P>>, fs: seq<Source<P>>, i: nat)
    requires Arranged(ms, fs) && i < |ms|
    ensures -1 <= ms[i].kind <= 1
  {
    hide Arranged;
    var f := SourceOf(ms, fs, i);
  }

  /** The scans stop at real entries: the first midpoint has a predecessor,
      only lower edges precede it, and the first upper edge comes after it. */
  lemma ScansStop<P>(ms: seq<Chime<P>>, fs: seq<Source<P>>)
    requires SortedChimes(ms, fs) && fs != []
    ensures 0 < FirstOf(ms, 0) < FirstOf(ms, 1) < |ms|
    ensures forall i :: 0 <= i < FirstOf(ms, 0) ==> ms[i].kind == -1
  {
    hide Sorted, ChimeList, FirstOf;
    var top := PlaceOf(ms, fs, fs[0], EdgesOf(fs[0])[2]);
    var up := FirstOf(ms, 1);
    assert up <= top;
    var mid := EdgesInOrder(ms, fs, up);
    var first := FirstOf(ms, 0);
    assert first <= mid;
    var low := EdgesInOrder(ms, fs, first);
    forall i | 0 <= i < first
      ensures ms[i].kind == -1
    {
      KindsOf(ms, fs, i);
    }
  }

  /** What intersection() reports as the ends, whatever the distances: the start
      values when there is no source, and the entry before the list when the
      first midpoint leads it. */
  function LowOf<P>(ms: seq<Chime<P>>, before: real): real {
    var i := FirstOf(ms, 0);
    if i == |ms| then HUGE else if i == 0 then before else ms[i - 1].edge
  }

  function HighOf<P>(ms: seq<Chime<P>>): real {
    var i := FirstOf(ms, 1);
    if i == |ms| then -HUGE else ms[i].edge
  }

  /** The two ends on a list with at least one source. */
  function LowEnd<P>(ms: seq<Chime<P>>): real
    requires 0 < FirstOf(ms, 0) <= |ms|
  {
    ms[FirstOf(ms, 0) - 1].edge
  }

  function HighEnd<P>(ms: seq<Chime<P>>): real
    requires FirstOf(ms, 1) < |ms|
  {
    ms[FirstOf(ms, 1)].edge
  }

  /** With positive distances these are edges of the list. */
  lemma EndsAreEdges<P>(ms: seq<Chime<P>>, fs: seq<Source<P>>, before: real)
    requires SortedChimes(ms, fs) && fs != []
    ensures 0 < FirstOf(ms, 0) < |ms| && FirstOf(ms, 1) < |ms|
    ensures LowOf(ms, before) == LowEnd(ms) && HighOf(ms) == HighEnd(ms)
  {
    ScansStop(ms, fs);
  }

  lemma LowIsALowerEdge<P>(ms: seq<Chime<P>>, fs: seq<Source<P>>) returns (f: Source<P>)
    requires SortedChimes(ms, fs) && fs != []
    ensures 0 < FirstOf(ms, 0) < |ms|
    ensures f in fs && LowEnd(ms) == f.Lower()
  {
    ScansStop(ms, fs);
    f := SourceOf(ms, fs, FirstOf(ms, 0) - 1);
  }

  /** The high end is the least upper edge. */
  lemma HighIsLeastUpper<P>(ms: seq<Chime<P>>, fs: seq<Source<P>>) returns (f: Source<P>)
    requires SortedChimes(ms, fs) && fs != []
    ensures FirstOf(ms, 1) < |ms|
    ensures f in fs && HighEnd(ms) == f.Upper()
    ensures forall g :: g in fs ==> HighEnd(ms) <= g.Upper()
  {
    ScansStop(ms, fs);
    f := SourceOf(ms, fs, FirstOf(ms, 1));
    forall g | g in fs
      ensures HighEnd(ms) <= g.Upper()
    {
      var i := PlaceOf(ms, fs, g, EdgesOf(g)[2]);
    }
  }

  /** The first midpoint is the least offset. */
  lemma FirstMidpointIsLeast<P>(ms: seq<Chime<P>>, fs: seq<Source<P>>) returns (f: Source<P>)
    requires SortedChimes(ms, fs) && fs != []
    ensures FirstOf(ms, 0) < |ms|
    ensures f in fs && ms[FirstOf(ms, 0)].edge == f.offset
    ensures forall g :: g in fs ==> f.offset <= g.offset
  {
    ScansStop(ms, fs);
    f := SourceOf(ms, fs, FirstOf(ms, 0));
    forall g | g in fs
      ensures f.offset <= g.offset
    {
      var i := PlaceOf(ms, fs, g, EdgesOf(g)[1]);
    }
  }

  // ---- What the interval guarantees ----

  ghost predicate InAll<P>(fs: seq<Source<P>>, x: real) { forall f :: f in fs ==> f.Covers(x) }

  /** A point that lies in every correctness interval is never cut off. */
  lemma TruthNeverCutOff<P>(ms: seq<Chime<P>>, fs: seq<Source<P>>, x: real)
    requires SortedChimes(ms, fs) && fs != []
    requires InAll(fs, x)
    ensures 0 < FirstOf(ms, 0) < |ms| && FirstOf(ms, 1) < |ms|
    ensures LowEnd(ms) <= x <= HighEnd(ms)
  {
    var f := LowIsALowerEdge(ms, fs);
    var g := HighIsLeastUpper(ms, fs);
    assert f.Covers(x) && g.Covers(x);
  }

  /** The interval straddles the least offset and is never empty. */
  lemma IntervalStraddlesLeastOffset<P>(ms: seq<Chime<P>>, fs: seq<Source<P>>) returns (f: Source<P>)
    requires SortedChimes(ms, fs) && fs != []
    ensures 0 < FirstOf(ms, 0) < |ms| && FirstOf(ms, 1) < |ms|
    ensures f in fs && (forall g :: g in fs ==> f.offset <= g.offset)
    ensures LowEnd(ms) <= f.offset < HighEnd(ms)
  {
    f := FirstMidpointIsLeast(ms, fs);
    ScansStop(ms, fs);
    var g := HighIsLeastUpper(ms, fs);
    assert g.dist > 0.0;
  }

  /** The interval is exactly the common part of all intervals precisely when
      no lower edge exceeds the low end. */
  lemma IntervalExact<P>(ms: seq<Chime<P>>, fs: seq<Source<P>>)
    requires SortedChimes(ms, fs) && fs != []
    ensures 0 < FirstOf(ms, 0) < |ms| && FirstOf(ms, 1) < |ms|
    ensures (forall x :: LowEnd(ms) <= x <= HighEnd(ms) <==> InAll(fs, x))
            <==> (forall f :: f in fs ==> f.Lower() <= LowEnd(ms))
  {
    var f := LowIsALowerEdge(ms, fs);
    var g := HighIsLeastUpper(ms, fs);
    var h := IntervalStraddlesLeastOffset(ms, fs);
    if forall f :: f in fs ==> f.Lower() <= LowEnd(ms) {
      forall x
        ensures LowEnd(ms) <= x <= HighEnd(ms) <==> InAll(fs, x)
      {
        if InAll(fs, x) {
          TruthNeverCutOff(ms, fs, x);
        }
      }
    }
    if forall x :: LowEnd(ms) <= x <= HighEnd(ms) <==> InAll(fs, x) {
      assert InAll(fs, LowEnd(ms));
      forall f | f in fs
        ensures f.Lower() <= LowEnd(ms)
      {
        assert f.Covers(LowEnd(ms));
      }
    }
  }

  lemma InOrder<P>(ms: seq<Chime<P>>, fs: seq<Source<P>>, i: nat, j: nat)
    requires SortedChimes(ms, fs) && i <= j < |ms|
    ensures ms[i].edge <= ms[j].edge
  {
  }

  lemma LowersLead<P>(ms: seq<Chime<P>>, fs: seq<Source<P>>)
    requires SortedChimes(ms, fs) && fs != []
    requires forall i :: 0 <= i < |ms| && ms[i].kind == -1 ==> i < FirstOf(ms, 0)
    ensures 0 < FirstOf(ms, 0) < |ms|
    ensures forall f :: f in fs ==> f.Lower() <= LowEnd(ms)
  {
    hide Sorted, ChimeList, FirstOf;
    ScansStop(ms, fs);
    forall f | f in fs
      ensures f.Lower() <= LowEnd(ms)
    {
      var i := PlaceOf(ms, fs, f, EdgesOf(f)[0]);
      InOrder(ms, fs, i, FirstOf(ms, 0) - 1);
    }
  }

  /** In particular when every lower edge precedes the first midpoint. */
  lemma IntervalExactWhenLowersLead<P>(ms: seq<Chime<P>>, fs: seq<Source<P>>, x: real)
    requires SortedChimes(ms, fs) && fs != []
    requires forall i :: 0 <= i < |ms| && ms[i].kind == -1 ==> i < FirstOf(ms, 0)
    ensures 0 < FirstOf(ms, 0) < |ms| && FirstOf(ms, 1) < |ms|
    ensures LowEnd(ms) <= x <= HighEnd(ms) <==> InAll(fs, x)
  {
    hide SortedChimes, FirstOf, InAll, LowEnd, HighEnd;
    LowersLead(ms, fs);
    IntervalExact(ms, fs);
  }

  /** The code keeps no majority: one source whose interval ends early puts the
      midpoint and upper edge of every source centred beyond it outside,
      however many of those agree. */
  lemma EarlySourceCutsMidpoint<P>(ms: seq<Chime<P>>, fs: seq<Source<P>>, early: Source<P>, late: Source<P>)
    requires SortedChimes(ms, fs) && early in fs && late in fs
    requires early.Upper() < late.offset
    ensures FirstOf(ms, 1) < |ms| && HighEnd(ms) < late.offset < late.Upper()
  {
    var f := HighIsLeastUpper(ms, fs);
  }

  /** The exact condition for a source to leave the survivor list: its offset
      lies beyond the high end, and its lower edge outside the interval. */
  lemma ShutOutExactly<P>(ms: seq<Chime<P>>, fs: seq<Source<P>>, f: Source<P>)
    requires SortedChimes(ms, fs) && f in fs
    ensures 0 < FirstOf(ms, 0) < |ms| && FirstOf(ms, 1) < |ms|
    ensures (forall c :: EdgeOf(c, f) ==> !Within(c, LowEnd(ms), HighEnd(ms)))
            <==> HighEnd(ms) < f.offset && !(LowEnd(ms) <= f.Lower() <= HighEnd(ms))
  {
    var least := IntervalStraddlesLeastOffset(ms, fs);
    var first := HighIsLeastUpper(ms, fs);
    assert EdgeOf(EdgesOf(f)[0], f) && EdgeOf(EdgesOf(f)[1], f) && EdgeOf(EdgesOf(f)[2], f);
    assert forall c :: EdgeOf(c, f) ==> c == EdgesOf(f)[0] || c == EdgesOf(f)[1] || c == EdgesOf(f)[2];
  }

  /** So a source centred beyond the high end can stay listed, by its lower
      edge: [-1, 1] and [0.5, 2.5] give the ends -1 and 1. */
  lemma LateSourceSurvives<P>(ms: seq<Chime<P>>, p: P, q: P)
    requires SortedChimes(ms, [Source(p, 0.0, 1.0), Source(q, 1.5, 1.0)])
    ensures 0 < FirstOf(ms, 0) < |ms| && FirstOf(ms, 1) < |ms|
    ensures LowEnd(ms) == -1.0 && HighEnd(ms) == 1.0 < 1.5
    ensures Chime(q, -1, 0.5) in Survivors(ms, LowEnd(ms), HighEnd(ms))
  {
    hide Sorted, ChimeList, FirstOf, LowEnd, HighEnd, Survivors;
    var fs := [Source(p, 0.0, 1.0), Source(q, 1.5, 1.0)];
    var early, late := fs[0], fs[1];
    var first := HighIsLeastUpper(ms, fs);
    assert early in fs && late in fs;
    var least := IntervalStraddlesLeastOffset(ms, fs);
    var start := LowIsALowerEdge(ms, fs);
    var lower := EdgesOf(late)[0];
    assert EdgeOf(lower, late);
    var i := PlaceOf(ms, fs, late, lower);
    SurvivorsExact(ms, LowEnd(ms), HighEnd(ms), lower);
    assert multiset(ms)[ms[i]] > 0;
  }

  // ---- Prefixes ----

  ghost function PeersWith<P>(ms: seq<Chime<P>>, kind: int): set<P> {
    set c | c in ms && c.kind == kind :: c.p
  }

  lemma {:induction false} SubsetSize<P>(a: set<P>, b: set<P>)
    requires a <= b
    ensures |a| <= |b|
  {
    if a != {} {
      var x :| x in a;
      SubsetSize(a - {x}, b - {x});
    }
  }

  /** In every prefix of the sorted list the peers whose upper edge has been
      passed are among those whose midpoint has, and those among the peers
      whose lower edge has. */
  lemma PrefixesNest<P>(ms: seq<Chime<P>>, fs: seq<Source<P>>, k: nat)
    requires SortedChimes(ms, fs) && k <= |ms|
    ensures PeersWith(ms[..k], 1) <= PeersWith(ms[..k], 0) <= PeersWith(ms[..k], -1)
    ensures |PeersWith(ms[..k], 1)| <= |PeersWith(ms[..k], 0)| <= |PeersWith(ms[..k], -1)|
  {
    forall p | p in PeersWith(ms[..k], 1)
      ensures p in PeersWith(ms[..k], 0)
    {
      var i :| 0 <= i < k && ms[i].kind == 1 && ms[i].p == p;
      var j := EdgesInOrder(ms, fs, i);
      assert ms[j] in ms[..k];
    }
    forall p | p in PeersWith(ms[..k], 0)
      ensures p in PeersWith(ms[..k], -1)
    {
      var i :| 0 <= i < k && ms[i].kind == 0 && ms[i].p == p;
      var j := EdgesInOrder(ms, fs, i);
      assert ms[j] in ms[..k];
    }
    SubsetSize(PeersWith(ms[..k], 1), PeersWith(ms[..k], 0));
    SubsetSize(PeersWith(ms[..k], 0), PeersWith(ms[..k], -1));
  }

  // ---- Survivors ----

  predicate Within<P>(c: Chime<P>, low: real, high: real) { low <= c.edge <= high }

  /** The chimes within [low, high], in list order. */
  function Survivors<P>(ms: seq<Chime<P>>, low: real, high: real): (vs: seq<Chime<P>>)
    ensures |vs| <= |ms|
    ensures forall i :: 0 <= i < |vs| ==> vs[i] in ms && Within(vs[i], low, high)
  {
    if ms == [] then []
    else
      var last := ms[|ms| - 1];
      assert ms == ms[..|ms| - 1] + [last];
      Survivors(ms[..|ms| - 1], low, high) + (if Within(last, low, high) then [last] else [])
  }

  /** Each chime survives as often as it is listed if it lies within, and not
      at all otherwise. */
  lemma {:induction false} SurvivorsExact<P>(ms: seq<Chime<P>>, low: real, high: real, c: Chime<P>)
    ensures multiset(Survivors(ms, low, high))[c] == if Within(c, low, high) then multiset(ms)[c] else 0
  {
    if ms != [] {
      var last := ms[|ms| - 1];
      assert ms == ms[..|ms| - 1] + [last];
      SurvivorsExact(ms[..|ms| - 1], low, high, c);
    }
  }

  lemma {:induction false} SurvivorsGrow<P>(ms: seq<Chime<P>>, low: real, high: real, k: nat)
    requires k <= |ms|
    ensures Survivors(ms[..k], low, high) <= Survivors(ms, low, high)
    decreases |ms|
  {
    if k == |ms| {
      assert ms[..k] == ms;
    } else {
      SurvivorsGrow(ms[..|ms| - 1], low, high, k);
      assert ms[..|ms| - 1][..k] == ms[..k];
    }
  }

  lemma OneMore<P>(ms: seq<Chime<P>>, low: real, high: real, i: nat, k: nat)
    requires i < k <= |ms| && Within(ms[i], low, high)
    ensures |Survivors(ms[..i], low, high)| + 1 <= |Survivors(ms[..k], low, high)|
  {
    SurvivorsGrow(ms[..k], low, high, i + 1);
    assert ms[..k][..i + 1] == ms[..i + 1];
    assert ms[..i + 1][..i] == ms[..i];
  }

  /** At least three chimes survive: the lower edge that gives the low end, the first
      midpoint and the first upper edge. */
  lemma ThreeSurvive<P>(ms: seq<Chime<P>>, fs: seq<Source<P>>)
    requires SortedChimes(ms, fs) && fs != []
    ensures 0 < FirstOf(ms, 0) < |ms| && FirstOf(ms, 1) < |ms|
    ensures 3 <= |Survivors(ms, LowEnd(ms), HighEnd(ms))|
  {
    ScansStop(ms, fs);
    var low, high := LowEnd(ms), HighEnd(ms);
    var mid, up := FirstOf(ms, 0), FirstOf(ms, 1);
    OneMore(ms, low, high, mid - 1, mid);
    OneMore(ms, low, high, mid, up);
    OneMore(ms, low, high, up, |ms|);
    assert ms[..|ms|] == ms;
  }

  /** The first survivor is a lower edge, and it is the low end itself: the chosen
      clock is the one whose interval starts last before the least offset. */
  lemma FirstSurvivorIsLowEnd<P>(ms: seq<Chime<P>>, fs: seq<Source<P>>)
    requires SortedChimes(ms, fs) && fs != []
    ensures 0 < FirstOf(ms, 0) < |ms| && FirstOf(ms, 1) < |ms|
    ensures |Survivors(ms, LowEnd(ms), HighEnd(ms))| > 0
    ensures var v := Survivors(ms, LowEnd(ms), HighEnd(ms))[0]; v.edge == LowEnd(ms) && v.kind == -1
  {
    ScansStop(ms, fs);
    var low, high := LowEnd(ms), HighEnd(ms);
    var mid := FirstOf(ms, 0);
    OneMore(ms, low, high, mid - 1, mid);
    SurvivorsGrow(ms, low, high, mid);
    var v := Survivors(ms[..mid], low, high)[0];
    assert v in ms[..mid] && Within(v, low, high);
    var i :| 0 <= i < mid && ms[i] == v;
  }

  /** f starts last: no lower edge that lies below every offset exceeds its
      own, which itself exceeds no offset. */
  ghost predicate StartsLast<P>(f: Source<P>, fs: seq<Source<P>>) {
    f in fs &&
    (forall g :: g in fs ==> f.Lower() <= g.offset) &&
    (forall g :: g in fs && (forall h :: h in fs ==> g.Lower() < h.offset) ==> g.Lower() <= f.Lower())
  }

  /** Which source the first survivor belongs to, said without the list. */
  lemma FirstSurvivorStartsLast<P>(ms: seq<Chime<P>>, fs: seq<Source<P>>) returns (f: Source<P>)
    requires SortedChimes(ms, fs) && fs != []
    ensures 0 < FirstOf(ms, 0) < |ms| && FirstOf(ms, 1) < |ms|
    ensures |Survivors(ms, LowEnd(ms), HighEnd(ms))| > 0
    ensures f in fs && Survivors(ms, LowEnd(ms), HighEnd(ms))[0].p == f.p && StartsLast(f, fs)
  {
    hide ChimeList, FirstOf, Survivors;
    FirstSurvivorIsLowEnd(ms, fs);
    var v := Survivors(ms, LowEnd(ms), HighEnd(ms))[0];
    var i :| 0 <= i < |ms| && ms[i] == v;
    f := SourceOf(ms, fs, i);
    var least := FirstMidpointIsLeast(ms, fs);
    forall g | g in fs && forall h :: h in fs ==> g.Lower() < h.offset
      ensures g.Lower() <= f.Lower()
    {
      var j := PlaceOf(ms, fs, g, EdgesOf(g)[0]);
      assert ms[j].edge < ms[FirstOf(ms, 0)].edge;
    }
  }
}
