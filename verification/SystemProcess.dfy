/** Selection, clustering, combining and the clock update. */
module SystemProcess {
  import opened Words
  import opened Ntp
  import opened HalfWord
  import opened Bisection
  import opened Chimes
  import opened Combine
  import opened Discipline
  import opened Association
  import opened Vfo
  import Reach

  // ---- cull ----

  function SourceFor(ct: uint64, p: Peer): Source<Peer?>
    reads p`offset, p`rootdelay, p`delay, p`rootdisp, p`disp, p`t, p`jitter
  {
    Source(p, p.offset, RootDist(ct, p))
  }

  /** The fit peers of the table, in table order. */
  ghost function FitSources(now: Moment, peers: seq<Peer>): seq<Source<Peer?>>
    reads peers`leap, peers`stratum, peers`refid, peers`reach, peers`rootdelay, peers`delay,
          peers`rootdisp, peers`disp, peers`offset, peers`t, peers`jitter
  {
    if peers == [] then []
    else
      var last := peers[|peers| - 1];
      FitSources(now, peers[..|peers| - 1]) + (if Fit(now, last) then [SourceFor(now.t, last)] else [])
  }

  lemma {:induction false} FitSourcesMembers(now: Moment, peers: seq<Peer>)
    ensures |FitSources(now, peers)| <= |peers|
    ensures forall f :: f in FitSources(now, peers) ==>
              exists i :: 0 <= i < |peers| && Fit(now, peers[i]) && f == SourceFor(now.t, peers[i])
    ensures forall i :: 0 <= i < |peers| && Fit(now, peers[i]) ==>
              SourceFor(now.t, peers[i]) in FitSources(now, peers)
  {
    if peers != [] {
      var init := peers[..|peers| - 1];
      FitSourcesMembers(now, init);
      var fs := FitSources(now, init);
      forall f | f in FitSources(now, peers)
        ensures exists i :: 0 <= i < |peers| && Fit(now, peers[i]) && f == SourceFor(now.t, peers[i])
      {
        if f in fs {
          var i :| 0 <= i < |init| && Fit(now, init[i]) && f == SourceFor(now.t, init[i]);
          assert peers[i] == init[i];
        }
      }
      forall i | 0 <= i < |peers| && Fit(now, peers[i])
        ensures SourceFor(now.t, peers[i]) in FitSources(now, peers)
      {
        if i < |init| {
          assert init[i] == peers[i];
        }
      }
    }
  }

  /** The body of the culling loop. */
  method AddChimes(c: Clock, s: Sys, p: Peer, i0: nat) returns (i: nat)
    requires i0 + 3 <= s.m.Length
    modifies s.m
    ensures Fit(Now(c, s), p) ==> i == i0 + 3 && s.m[..i] == old(s.m[..i0]) + EdgesOf(SourceFor(c.t, p))
    ensures !Fit(Now(c, s), p) ==> i == i0 && s.m[..i] == old(s.m[..i0])
  {
    i := i0;
    if Fit(Now(c, s), p) {
      s.m[i] := Chime(p, -1, p.offset - RootDist(c.t, p));
      i := i + 1;
      s.m[i] := Chime(p, 0, p.offset);
      i := i + 1;
      s.m[i] := Chime(p, 1, p.offset + RootDist(c.t, p));
      i := i + 1;
      assert s.m[..i] == s.m[..i0] + [s.m[i0], s.m[i0 + 1], s.m[i0 + 2]];
      assert s.m[..i0] == old(s.m[..i0]);
    }
  }

  /** What a peer adds to the chime list. */
  ghost function EdgesIfFit(now: Moment, p: Peer): seq<Chime<Peer?>>
    reads p`leap, p`stratum, p`refid, p`reach, p`rootdelay, p`delay, p`rootdisp, p`disp, p`offset, p`t, p`jitter
  {
    if Fit(now, p) then EdgesOf(SourceFor(now.t, p)) else []
  }

  lemma ChimesGrow(now: Moment, peers: seq<Peer>)
    requires peers != []
    ensures var init, last := peers[..|peers| - 1], peers[|peers| - 1];
            ChimeList(FitSources(now, peers)) == ChimeList(FitSources(now, init)) + EdgesIfFit(now, last)
  {
    hide Fit, SourceFor, EdgesOf;
    var init, last := peers[..|peers| - 1], peers[|peers| - 1];
    if Fit(now, last) {
      var fs := FitSources(now, peers);
      assert fs[..|fs| - 1] == FitSources(now, init);
    } else {
      assert FitSources(now, peers) == FitSources(now, init);
    }
  }

  /** The chime list peer by peer. */
  lemma ChimeLists(now: Moment, peers: seq<Peer>) returns (lists: seq<seq<Chime<Peer?>>>)
    ensures |lists| == |peers| + 1 && lists[0] == []
    ensures forall k :: 0 <= k < |peers| ==> lists[k + 1] == lists[k] + EdgesIfFit(now, peers[k])
    ensures lists[|peers|] == ChimeList(FitSources(now, peers))
    ensures |lists[|peers|]| == 3 * |FitSources(now, peers)| <= 3 * |peers|
  {
    hide ChimeList, EdgesIfFit;
    if peers == [] {
      assert ChimeList<Peer?>([]) == [];
      return [[]];
    }
    var init := peers[..|peers| - 1];
    var before := ChimeLists(now, init);
    ChimesGrow(now, peers);
    lists := before + [ChimeList(FitSources(now, peers))];
  }

  lemma FitSourcesPositive(now: Moment, peers: seq<Peer>)
    requires now.t < TWO63 && PeersOk(peers, now.t) && DispsOk(peers)
    ensures forall f :: f in FitSources(now, peers) ==> f.dist > 0.0
  {
    FitSourcesMembers(now, peers);
    forall f | f in FitSources(now, peers)
      ensures f.dist > 0.0
    {
      var k :| 0 <= k < |peers| && Fit(now, peers[k]) && f == SourceFor(now.t, peers[k]);
      RootDistFloor(now.t, peers[k]);
    }
  }

  method FillChimes(c: Clock, s: Sys, peers: seq<Peer>) returns (i: nat)
    requires 3 * |peers| <= s.m.Length
    modifies s.m
    ensures i <= s.m.Length && i == 3 * |FitSources(Now(c, s), peers)| <= 3 * |peers|
    ensures s.m[..i] == ChimeList(FitSources(Now(c, s), peers))
  {
    hide Fit, EdgesOf, ChimeList, RootDist, SourceFor, FitSources;
    ghost var now := Now(c, s);
    ghost var lists := ChimeLists(now, peers);
    i := 0;
    for index := 0 to |peers|
      invariant i == |lists[index]| <= 3 * index
      invariant s.m[..i] == lists[index]
    {
      i := AddChimes(c, s, peers[index], i);
    }
  }

  function Insert(ms: seq<Chime<Peer?>>, x: Chime<Peer?>): (r: seq<Chime<Peer?>>)
    requires Sorted(ms)
    ensures |r| == |ms| + 1 && Sorted(r)
    ensures multiset(r) == multiset(ms) + multiset{x}
    ensures forall i :: 0 <= i < |r| ==> r[i] == x || r[i] in ms
  {
    if ms == [] || ms[|ms| - 1].edge <= x.edge then
      ms + [x]
    else
      assert ms == ms[..|ms| - 1] + [ms[|ms| - 1]];
      Insert(ms[..|ms| - 1], x) + [ms[|ms| - 1]]
  }

  /** An in-place sort of the first n entries; all that is known of the result
      is that it is sorted and a permutation, as with any qsort. */
  method QSort(m: array<Chime<Peer?>>, n: nat)
    requires n <= m.Length
    modifies m
    ensures Sorted(m[..n])
    ensures multiset(m[..n]) == multiset(old(m[..n]))
  {
    var sorted: seq<Chime<Peer?>> := [];
    for i := 0 to n
      invariant |sorted| == i && Sorted(sorted)
      invariant multiset(sorted) == multiset(m[..i])
    {
      assert m[..i + 1] == m[..i] + [m[i]];
      sorted := Insert(sorted, m[i]);
    }
    for i := 0 to n
      invariant m[..i] == sorted[..i]
    {
      m[i] := sorted[i];
    }
    assert sorted[..n] == sorted;
  }

  method Cull(c: Clock, s: Sys, peers: seq<Peer>) returns (n: nat)
    requires |peers| == NMAX && s.m.Length == LISTSIZE
    modifies s.m
    ensures n == 3 * |FitSources(Now(c, s), peers)| <= 3 * NMAX
    ensures Arranged(s.m[..n], FitSources(Now(c, s), peers))
  {
    hide Fit, ChimeList, RootDist;
    n := FillChimes(c, s, peers);
    QSort(s.m, n);
  }

  // ---- intersection ----

  predicate Typed(ms: seq<Chime<Peer?>>) { forall i :: 0 <= i < |ms| ==> -1 <= ms[i].kind <= 1 }

  lemma ArrangedTyped(ms: seq<Chime<Peer?>>, fs: seq<Source<Peer?>>)
    requires Arranged(ms, fs)
    ensures Typed(ms)
  {
    forall i | 0 <= i < |ms|
      ensures -1 <= ms[i].kind <= 1
    {
      var f := SourceOf(ms, fs, i);
    }
  }

  lemma NotYet(ms: seq<Chime<Peer?>>, kind: int, i: nat)
    requires i < |ms| && i <= FirstOf(ms, kind) && ms[i].kind != kind
    ensures i + 1 <= FirstOf(ms, kind)
  {
  }

  /** The scan for the upper endpoint: it stops where the running chime count
      first falls, which is at the first upper edge. */
  method ScanUpper(m: array<Chime<Peer?>>, n: nat) returns (high: real)
    requires n <= m.Length && Typed(m[..n])
    ensures high == HighOf(m[..n])
  {
    ghost var ms := m[..n];
    var chime, lastchime := 0, 0;
    high := -2000000000.0;
    for i := 0 to n
      invariant i <= FirstOf(ms, 1)
      invariant chime == lastchime
      invariant m[..n] == ms
    {
      assert m[i] == ms[i];
      chime := chime - m[i].kind;
      if chime < lastchime {
        FirstIsUnique(ms, 1, i);
        return m[i].edge;
      }
      NotYet(ms, 1, i);
      lastchime := chime;
    }
  }

  /** The scan for the lower endpoint: it stops where the count first stays,
      which is at the first midpoint; before is what m[-1].edge reads. */
  method ScanLower(m: array<Chime<Peer?>>, n: nat, before: real) returns (low: real)
    requires n <= m.Length && Typed(m[..n])
    ensures low == LowOf(m[..n], before)
  {
    ghost var ms := m[..n];
    var chime, lastchime := 0, 0;
    low := 2000000000.0;
    for i := 0 to n
      invariant i <= FirstOf(ms, 0)
      invariant chime == lastchime
      invariant m[..n] == ms
    {
      assert m[i] == ms[i];
      chime := chime + m[i].kind;
      if chime == lastchime {
        FirstIsUnique(ms, 0, i);
        if i == 0 {
          return before;
        }
        assert m[i - 1] == ms[i - 1];
        return m[i - 1].edge;
      }
      NotYet(ms, 0, i);
      lastchime := chime;
    }
  }

  lemma EmptyEnds(ms: seq<Chime<Peer?>>, before: real)
    ensures ms == [] ==> LowOf(ms, before) == HUGE && HighOf(ms) == -HUGE
  {
  }

  /** found is never assigned in the source, so every value of it is allowed:
      the result is the same for all of them. */
  method Intersection(m: array<Chime<Peer?>>, n: nat, junk: Junk) returns (low: real, high: real)
    requires n <= m.Length && Typed(m[..n])
    ensures low == LowOf(m[..n], junk.edge) && high == HighOf(m[..n])
  {
    hide Typed, LowOf, HighOf;
    low, high := 2000000000.0, -2000000000.0;
    EmptyEnds(m[..n], junk.edge);
    var allow := 0;
    while 2 * allow < n
      invariant 0 <= allow && (n == 0 ==> allow == 0)
      invariant allow > 0 || n == 0 ==> low == LowOf(m[..n], junk.edge) && high == HighOf(m[..n])
      decreases n - 2 * allow
    {
      high := ScanUpper(m, n);
      low := ScanLower(m, n, junk.edge);
      if junk.found <= allow && high > low {
        return;
      }
      allow := allow + 1;
    }
  }

  // ---- survivors ----

  /** The survivor entry that a chime gives rise to. */
  ghost predicate EntryFor(ct: uint64, v: Survivor, chime: Chime<Peer?>, peers: seq<Peer>)
    reads peers`stratum, peers`rootdelay, peers`delay, peers`rootdisp, peers`disp, peers`t, peers`jitter
  {
    chime.p != null && chime.p in peers && v.p == chime.p &&
    v.metric == MAXDIST * (chime.p.stratum as real) + RootDist(ct, chime.p)
  }

  ghost predicate EntriesFor(ct: uint64, v: seq<Survivor>, vs: seq<Chime<Peer?>>, peers: seq<Peer>)
    reads peers`stratum, peers`rootdelay, peers`delay, peers`rootdisp, peers`disp, peers`t, peers`jitter
  {
    |vs| <= |v| && forall k :: 0 <= k < |vs| ==> EntryFor(ct, v[k], vs[k], peers)
  }

  /** The body of the survivor loop. */
  method AddSurvivor(c: Clock, s: Sys, peers: seq<Peer>, chime: Chime<Peer?>, ghost vs: seq<Chime<Peer?>>)
    requires chime.p != null && chime.p in peers
    requires 0 <= s.n == |vs| < s.v.Length && EntriesFor(c.t, s.v[..], vs, peers)
    modifies s.v, s`n
    ensures s.n == old(s.n) + 1
    ensures EntriesFor(c.t, s.v[..], vs + [chime], peers)
    ensures forall k :: s.n <= k < s.v.Length ==> s.v[k] == old(s.v[k])
  {
    s.v[s.n] := Survivor(chime.p, MAXDIST * (chime.p.stratum as real) + RootDist(c.t, chime.p));
    s.n := s.n + 1;
    assert EntryFor(c.t, s.v[s.n - 1], chime, peers);
  }

  method Collect(c: Clock, s: Sys, peers: seq<Peer>, n: nat, ghost fs: seq<Source<Peer?>>, low: real, high: real)
    requires n <= s.m.Length && n <= s.v.Length && Arranged(s.m[..n], fs)
    requires forall f :: f in fs ==> f.p in peers
    modifies s.v, s`n
    ensures s.n == |Survivors(s.m[..n], low, high)| <= n
    ensures EntriesFor(c.t, s.v[..], Survivors(s.m[..n], low, high), peers)
    ensures forall k :: s.n <= k < s.v.Length ==> s.v[k] == old(s.v[k])
  {
    hide Sorted, ChimeList, RootDist;
    ghost var ms := s.m[..n];
    s.n := 0;
    for i := 0 to n
      invariant s.m[..n] == ms
      invariant 0 <= s.n == |Survivors(ms[..i], low, high)| <= i
      invariant EntriesFor(c.t, s.v[..], Survivors(ms[..i], low, high), peers)
      invariant forall k :: s.n <= k < s.v.Length ==> s.v[k] == old(s.v[k])
    {
      assert ms[..i + 1][..i] == ms[..i] && s.m[i] == ms[i];
      if low <= s.m[i].edge && s.m[i].edge <= high {
        ghost var f := SourceOf(ms, fs, i);
        AddSurvivor(c, s, peers, s.m[i], Survivors(ms[..i], low, high));
      }
    }
    assert ms[..n] == ms;
  }

  method ListSurvivors(c: Clock, s: Sys, peers: seq<Peer>, n: nat, ghost fs: seq<Source<Peer?>>, low: real, high: real)
    requires ListOk(s, peers)
    requires n <= 3 * NMAX && Arranged(s.m[..n], fs)
    requires forall f :: f in fs ==> f.p in peers
    modifies s.v, s`n, s`mark
    ensures ListOk(s, peers)
    ensures s.n == |Survivors(s.m[..n], low, high)|
    ensures EntriesFor(c.t, s.v[..], Survivors(s.m[..n], low, high), peers)
    ensures s.mark == MaxI(old(s.mark), s.n)
    ensures forall k :: s.n <= k < LISTSIZE ==> s.v[k] == old(s.v[k])
  {
    Collect(c, s, peers, n, fs, low, high);
    s.mark := MaxI(s.mark, s.n);
    forall k | 0 <= k < s.n
      ensures s.v[k].p != null && s.v[k].p in peers
    {
      assert EntryFor(c.t, s.v[k], Survivors(s.m[..n], low, high)[k], peers);
    }
  }

  // ---- clustering ----

  /** The peers of a survivor list. */
  ghost function PeersOf(v: seq<Survivor>): (ps: seq<Peer?>)
    ensures |ps| == |v| && forall k :: 0 <= k < |v| ==> ps[k] == v[k].p
  {
    seq(|v|, k requires 0 <= k < |v| => v[k].p)
  }

  /** One deviation term as the macro expands it, without parentheses; a null
      entry past the list is read as unspecified memory. */
  function DeviationTerm(p: Peer, q: Peer?, junk: Junk): real
    reads {p, q}`offset
  {
    var o := if q == null then junk.nullOffset else q.offset;
    p.offset - o * p.offset - o
  }

  function DeviationSumOf(p: Peer, ps: seq<Peer?>, junk: Junk): real
    reads p`offset, ps`offset
  {
    if ps == [] then 0.0
    else DeviationSumOf(p, ps[..|ps| - 1], junk) + DeviationTerm(p, ps[|ps| - 1], junk)
  }

  /** The selection jitter of p against a list. */
  function SelectionJitterOf(p: Peer, ps: seq<Peer?>, junk: Junk): real
    reads p`offset, ps`offset
  {
    SqrtOf(DeviationSumOf(p, ps, junk))
  }

  /** The selection jitter of entry i is below the peer jitter of entry j, and
      neither passes the start value of its scan. */
  ghost predicate Below(ps: seq<Peer?>, i: nat, j: nat, n: nat, junk: Junk)
    requires i < |ps| && j < |ps| && n <= |ps|
    reads ps`offset, ps`jitter
  {
    ps[i] != null && ps[j] != null ==>
      SelectionJitterOf(ps[i], ps[..n], junk) < MinR(ps[j].jitter, HUGE) && -HUGE < ps[j].jitter
  }

  /** When the loop stops on the first k entries. */
  ghost predicate Settled(ps: seq<Peer?>, k: int, n: nat, junk: Junk)
    requires k <= |ps| && n <= |ps|
    reads ps`offset, ps`jitter
  {
    n <= NMIN || forall i, j :: 0 <= i < k && 0 <= j < k ==> Below(ps, i, j, n, junk)
  }

  method SelectionJitter(s: Sys, p: Peer, n: nat, junk: Junk) returns (jitter: real)
    requires n <= s.v.Length
    ensures jitter == SelectionJitterOf(p, PeersOf(s.v[..])[..n], junk)
  {
    hide SqrtOf, DeviationTerm;
    var sum := 0.0;
    ghost var ps := PeersOf(s.v[..]);
    for j := 0 to n
      invariant sum == DeviationSumOf(p, ps[..j], junk)
    {
      assert ps[..j + 1][..j] == ps[..j] && ps[j] == s.v[j].p;
      sum := sum + DeviationTerm(p, s.v[j].p, junk);
    }
    ghost var halvings;
    jitter, halvings := Sqrt(sum);
  }

  /** One pass over the list: the greatest selection jitter and the least peer
      jitter. */
  method Extremes(s: Sys, n: nat, junk: Junk) returns (most: real, least: real)
    requires n <= s.v.Length && 0 <= s.n <= s.v.Length
    requires forall k :: 0 <= k < s.n ==> s.v[k].p != null
    ensures most < least <==> forall i, j :: 0 <= i < s.n && 0 <= j < s.n ==> Below(PeersOf(s.v[..]), i, j, n, junk)
  {
    hide SelectionJitterOf;
    most, least := -HUGE, HUGE;
    ghost var top: nat, bottom: nat := 0, 0;
    ghost var ps := PeersOf(s.v[..]);
    for i := 0 to s.n
      invariant most >= -HUGE && least <= HUGE
      invariant forall k :: 0 <= k < i ==> SelectionJitterOf(ps[k], ps[..n], junk) <= most && least <= ps[k].jitter
      invariant top <= i && bottom <= i && (i > 0 ==> top < i && bottom < i)
      invariant most == -HUGE || (i > 0 && most == SelectionJitterOf(ps[top], ps[..n], junk))
      invariant least == HUGE || (i > 0 && least == ps[bottom].jitter)
    {
      var p := s.v[i].p;
      assert p == ps[i];
      if p.jitter < least {
        least := p.jitter;
        bottom := i;
      }
      var dtemp := SelectionJitter(s, p, n, junk);
      if dtemp > most {
        most := dtemp;
        top := i;
      }
    }
    assert most >= least ==> s.n > 0;
    assert most >= least ==> !Below(ps, top, bottom, n, junk);
  }

  lemma SettledMeansBelow(s: Sys, n: nat, junk: Junk)
    requires n <= s.v.Length && 0 <= s.n <= s.v.Length && Settled(PeersOf(s.v[..]), s.n, n, junk)
    requires forall k :: 0 <= k < s.n ==> s.v[k].p != null
    ensures n > 3 ==>
              forall i, j :: 0 <= i < s.n && 0 <= j < s.n ==>
                SelectionJitterOf(s.v[i].p, PeersOf(s.v[..])[..n], junk) < s.v[j].p.jitter
  {
    hide SelectionJitterOf;
    var ps := PeersOf(s.v[..]);
    if n > 3 {
      forall i, j | 0 <= i < s.n && 0 <= j < s.n
        ensures SelectionJitterOf(s.v[i].p, ps[..n], junk) < s.v[j].p.jitter
      {
        assert Below(ps, i, j, n, junk);
      }
    }
  }

  /** The cluster loop: it drops survivors from the end of the list, one at a
      time, and stops the first time the list is settled. */
  method Cluster(s: Sys, n: nat, junk: Junk)
    requires n <= s.v.Length && 0 <= s.n <= s.v.Length
    requires forall k :: 0 <= k < s.n ==> s.v[k].p != null
    modifies s`n
    ensures 0 <= s.n <= old(s.n) && ClusteredList(s, n, junk)
    ensures forall k :: s.n < k <= old(s.n) ==> !Settled(PeersOf(s.v[..]), k, n, junk)
    ensures n <= 3 ==> s.n == old(s.n)
    ensures n > 3 ==>
              forall i, j :: 0 <= i < s.n && 0 <= j < s.n ==>
                SelectionJitterOf(s.v[i].p, PeersOf(s.v[..])[..n], junk) < s.v[j].p.jitter
  {
    hide Below;
    while true
      invariant 0 <= s.n <= old(s.n)
      invariant forall k :: s.n < k <= old(s.n) ==> !Settled(PeersOf(s.v[..]), k, n, junk)
      invariant n <= 3 ==> s.n == old(s.n)
      decreases s.n
    {
      var most, least := Extremes(s, n, junk);
      if most < least || n <= NMIN {
        SettledMeansBelow(s, n, junk);
        return;
      }
      assert s.n > 0;
      s.n := s.n - 1;
    }
  }

  // ---- clock_combine ----

  /** A quotient; one by zero is unspecified. */
  function Quotient(a: real, x: real, junk: Junk): real { if x == 0.0 then junk.quotient else a / x }

  ghost predicate AllPeers(ps: seq<Peer?>) { ps != [] && forall k :: 0 <= k < |ps| ==> ps[k] != null }

  /** The three sums of clock_combine over the listed peers. */
  ghost function WeightTotal(ct: uint64, ps: seq<Peer?>, junk: Junk): real
    requires forall k :: 0 <= k < |ps| ==> ps[k] != null
    reads ps`rootdelay, ps`delay, ps`rootdisp, ps`disp, ps`t, ps`jitter
  {
    if ps == [] then 0.0
    else WeightTotal(ct, ps[..|ps| - 1], junk) + Quotient(1.0, RootDist(ct, ps[|ps| - 1]), junk)
  }

  ghost function OffsetTotal(ct: uint64, ps: seq<Peer?>, junk: Junk): real
    requires forall k :: 0 <= k < |ps| ==> ps[k] != null
    reads ps`rootdelay, ps`delay, ps`rootdisp, ps`disp, ps`offset, ps`t, ps`jitter
  {
    if ps == [] then 0.0
    else
      var p := ps[|ps| - 1];
      OffsetTotal(ct, ps[..|ps| - 1], junk) + Quotient(p.offset, RootDist(ct, p), junk)
  }

  ghost function DeviationTotal(ct: uint64, ps: seq<Peer?>, base: real, junk: Junk): real
    requires forall k :: 0 <= k < |ps| ==> ps[k] != null
    reads ps`rootdelay, ps`delay, ps`rootdisp, ps`disp, ps`offset, ps`t, ps`jitter
  {
    if ps == [] then 0.0
    else
      var p := ps[|ps| - 1];
      DeviationTotal(ct, ps[..|ps| - 1], base, junk) + Quotient(SquareOf(p.offset - base), RootDist(ct, p), junk)
  }

  /** The combined offset and jitter of a survivor list. */
  ghost predicate Combined(ct: uint64, ps: seq<Peer?>, junk: Junk, offset: real, jitter: real)
    reads ps`rootdelay, ps`delay, ps`rootdisp, ps`disp, ps`offset, ps`t, ps`jitter
  {
    AllPeers(ps) &&
    var y := WeightTotal(ct, ps, junk);
    offset == Quotient(OffsetTotal(ct, ps, junk), y, junk) &&
    jitter == SqrtOf(Quotient(DeviationTotal(ct, ps, ps[0].offset, junk), y, junk))
  }

  lemma CombinedBy(ct: uint64, ps: seq<Peer?>, junk: Junk, y: real, z: real, w: real)
    requires AllPeers(ps) && y == WeightTotal(ct, ps, junk) && z == OffsetTotal(ct, ps, junk)
    requires w == DeviationTotal(ct, ps, ps[0].offset, junk)
    ensures Combined(ct, ps, junk, Quotient(z, y, junk), SqrtOf(Quotient(w, y, junk)))
  {
  }

  lemma EmptyTotals(ct: uint64, base: real, junk: Junk)
    ensures WeightTotal(ct, [], junk) == OffsetTotal(ct, [], junk) == DeviationTotal(ct, [], base, junk) == 0.0
  {
  }

  lemma TotalsGrow(ct: uint64, ps: seq<Peer?>, i: nat, base: real, junk: Junk)
    requires AllPeers(ps) && i < |ps|
    ensures var p, x := ps[i], RootDist(ct, ps[i]);
            WeightTotal(ct, ps[..i + 1], junk) == WeightTotal(ct, ps[..i], junk) + Quotient(1.0, x, junk) &&
            OffsetTotal(ct, ps[..i + 1], junk) == OffsetTotal(ct, ps[..i], junk) + Quotient(p.offset, x, junk) &&
            DeviationTotal(ct, ps[..i + 1], base, junk)
            == DeviationTotal(ct, ps[..i], base, junk) + Quotient(SquareOf(p.offset - base), x, junk)
  {
    hide Quotient, SquareOf, RootDist;
    assert ps[..i + 1][..i] == ps[..i];
  }

  /** The sentinel loop: it runs over every non-null entry, also those left
      over from earlier selections, and ends inside the array. */
  method CombineSums(c: Clock, s: Sys, junk: Junk) returns (y: real, z: real, w: real)
    requires s.mark < s.v.Length && s.v[s.mark].p == null && AllPeers(PeersOf(s.v[..s.mark]))
    ensures var ps := PeersOf(s.v[..s.mark]);
            y == WeightTotal(c.t, ps, junk) && z == OffsetTotal(c.t, ps, junk) &&
            w == DeviationTotal(c.t, ps, ps[0].offset, junk)
  {
    hide SquareOf, Quotient, WeightTotal, OffsetTotal, DeviationTotal, RootDist;
    y, z, w := 0.0, 0.0, 0.0;
    var i := 0;
    ghost var ps := PeersOf(s.v[..s.mark]);
    EmptyTotals(c.t, ps[0].offset, junk);
    while s.v[i].p != null
      invariant 0 <= i <= s.mark
      invariant y == WeightTotal(c.t, ps[..i], junk) && z == OffsetTotal(c.t, ps[..i], junk)
      invariant w == DeviationTotal(c.t, ps[..i], ps[0].offset, junk)
      decreases s.mark - i
    {
      var p := s.v[i].p;
      var x := RootDist(c.t, p);
      TotalsGrow(c.t, ps, i, ps[0].offset, junk);
      y := y + Quotient(1.0, x, junk);
      z := z + Quotient(p.offset, x, junk);
      w := w + Quotient(SquareOf(p.offset - s.v[0].p.offset), x, junk);
      i := i + 1;
    }
    assert ps[..i] == ps;
  }

  method ClockCombine(c: Clock, s: Sys, junk: Junk)
    requires s.mark < s.v.Length && s.v[s.mark].p == null && AllPeers(PeersOf(s.v[..s.mark]))
    modifies s`offset, s`jitter
    ensures Combined(c.t, PeersOf(s.v[..s.mark]), junk, s.offset, s.jitter)
  {
    hide WeightTotal, OffsetTotal, DeviationTotal, SqrtOf, Combined, Quotient, AllPeers, RootDist;
    var y, z, w := CombineSums(c, s, junk);
    CombinedBy(c.t, PeersOf(s.v[..s.mark]), junk, y, z, w);
    s.offset := Quotient(z, y, junk);
    ghost var halvings;
    s.jitter, halvings := Sqrt(Quotient(w, y, junk));
  }

  // ---- What combining means when every listed peer has a distance ----

  ghost predicate AllFar(ct: uint64, ps: seq<Peer?>)
    reads ps`rootdelay, ps`delay, ps`rootdisp, ps`disp, ps`t, ps`jitter
  {
    AllPeers(ps) && forall k :: 0 <= k < |ps| ==> ps[k] != null && RootDist(ct, ps[k]) > 0.0
  }

  function Inverse(x: real): (r: real)
    requires x > 0.0
    ensures r > 0.0
  {
    1.0 / x
  }

  /** The listed peers as weighted entries, at process time ct. */
  ghost function EntriesOf(ct: uint64, ps: seq<Peer?>): (es: seq<Entry>)
    requires forall k :: 0 <= k < |ps| ==> ps[k] != null && RootDist(ct, ps[k]) > 0.0
    reads ps`rootdelay, ps`delay, ps`rootdisp, ps`disp, ps`offset, ps`t, ps`jitter
    ensures |es| == |ps| && Weighable(es)
    ensures forall k :: 0 <= k < |ps| ==> es[k].offset == ps[k].offset
  {
    if ps == [] then []
    else
      var p := ps[|ps| - 1];
      EntriesOf(ct, ps[..|ps| - 1]) + [Entry(p.offset, Inverse(RootDist(ct, p)))]
  }

  lemma EmptySums(base: real)
    ensures WeightSum([]) == OffsetSum([]) == DeviationSum([], base) == 0.0
  {
  }

  lemma QuotientIsProduct(a: real, x: real)
    requires x > 0.0
    ensures a / x == a * Inverse(x)
  {
  }

  lemma SumsGrow(es: seq<Entry>, offset: real, x: real, base: real, junk: Junk)
    requires x > 0.0
    ensures var more := es + [Entry(offset, Inverse(x))];
            WeightSum(more) == WeightSum(es) + Quotient(1.0, x, junk) &&
            OffsetSum(more) == OffsetSum(es) + Quotient(offset, x, junk) &&
            DeviationSum(more, base) == DeviationSum(es, base) + Quotient(SquareOf(offset - base), x, junk)
  {
    hide SquareOf;
    var more := es + [Entry(offset, Inverse(x))];
    assert more[..|more| - 1] == es;
    QuotientIsProduct(offset, x);
    QuotientIsProduct(SquareOf(offset - base), x);
  }

  /** The loop's quotients are then the weighted terms. */
  lemma {:induction false} TotalsAreSums(ct: uint64, ps: seq<Peer?>, base: real, junk: Junk)
    requires forall k :: 0 <= k < |ps| ==> ps[k] != null && RootDist(ct, ps[k]) > 0.0
    ensures var es := EntriesOf(ct, ps);
            WeightTotal(ct, ps, junk) == WeightSum(es) && OffsetTotal(ct, ps, junk) == OffsetSum(es) &&
            DeviationTotal(ct, ps, base, junk) == DeviationSum(es, base)
  {
    hide SquareOf, RootDist, WeightSum, OffsetSum, DeviationSum, Quotient, Inverse;
    if ps == [] {
      EmptySums(base);
    } else {
      var init, p := ps[..|ps| - 1], ps[|ps| - 1];
      TotalsAreSums(ct, init, base, junk);
      SumsGrow(EntriesOf(ct, init), p.offset, RootDist(ct, p), base, junk);
    }
  }

  /** Combining is then the weighted mean and the root of the mean square. */
  lemma CombinedOfFar(ct: uint64, ps: seq<Peer?>, junk: Junk, offset: real, jitter: real)
    requires Combined(ct, ps, junk, offset, jitter) && AllFar(ct, ps)
    ensures var es := EntriesOf(ct, ps);
            WeightSum(es) > 0.0 && offset == CombinedOffset(es) && jitter == SqrtOf(MeanSquare(es))
  {
    hide WeightTotal, OffsetTotal, DeviationTotal, WeightSum, OffsetSum, DeviationSum, SqrtOf, EntriesOf, RootDist;
    TotalsAreSums(ct, ps, ps[0].offset, junk);
    WeightSumPositive(EntriesOf(ct, ps));
  }

  /** Along any such list the combined offset lies between the least and the
      greatest listed offset. */
  lemma CombinedIsConvex(ct: uint64, ps: seq<Peer?>, junk: Junk, offset: real, jitter: real, lo: real, hi: real)
    requires Combined(ct, ps, junk, offset, jitter) && AllFar(ct, ps)
    requires forall k :: 0 <= k < |ps| ==> lo <= ps[k].offset <= hi
    ensures lo <= offset <= hi
  {
    hide Combined, WeightSum, OffsetSum, SqrtOf, RootDist;
    CombinedOfFar(ct, ps, junk, offset, jitter);
    OffsetIsConvex(EntriesOf(ct, ps), lo, hi);
  }

  // ---- clock_update ----

  /** How a selection ended: no fit peer, a sample older than the last one
      used, or an update of the local clock with its outcome. */
  datatype Verdict = NoSource | Stale | Done(outcome: Outcome)

  /** Dispersion added on top of the system peer's root dispersion. */
  function NewRootDisp(ct: uint64, p: Peer, jitter: real): real
    reads p`rootdisp, p`disp, p`offset, p`t, p`jitter
  {
    p.rootdisp + SqrtOf(Square(p.jitter) + Square(jitter))
    + MaxR(p.disp + Aging(Difference(ct, p.t)) + AbsR(p.offset), MINDISP)
  }

  /** The system variables that clock_update rewrites. */
  datatype SysVars = SysVars(leap: int, stratum: int, refid: uint32, reftime: uint64, rootdelay: real, rootdisp: real)

  function VarsOf(s: Sys): SysVars
    reads s`leap, s`stratum, s`refid, s`reftime, s`rootdelay, s`rootdisp
  {
    SysVars(s.leap, s.stratum, s.refid, s.reftime, s.rootdelay, s.rootdisp)
  }

  /** The system one stratum below p. */
  function Following(ct: uint64, p: Peer, jitter: real): (r: SysVars)
    reads p`leap, p`stratum, p`refid, p`reftime, p`rootdelay, p`delay, p`rootdisp, p`disp, p`offset, p`t, p`jitter
    ensures r.stratum == p.stratum + 1
  {
    SysVars(p.leap, p.stratum + 1, p.refid, p.reftime, p.rootdelay + p.delay, NewRootDisp(ct, p, jitter))
  }

  /** The system variables after a selection that chose p. */
  function NewVars(verdict: Verdict, before: SysVars, ct: uint64, p: Peer, jitter: real): SysVars
    reads p`leap, p`stratum, p`refid, p`reftime, p`rootdelay, p`delay, p`rootdisp, p`disp, p`offset, p`t, p`jitter
  {
    if verdict == Done(Slew) then Following(ct, p, jitter)
    else if verdict == Done(Step) then before.(stratum := MAXSTRAT)
    else before
  }

  method TakePeer(c: Clock, s: Sys, p: Peer)
    modifies s`leap, s`stratum, s`refid, s`reftime, s`rootdelay, s`rootdisp
    ensures VarsOf(s) == Following(c.t, p, s.jitter)
  {
    s.leap := p.leap;
    s.stratum := p.stratum + 1;
    s.refid := p.refid;
    s.reftime := p.reftime;
    s.rootdelay := p.rootdelay + p.delay;
    ghost var halvings;
    var dtemp;
    dtemp, halvings := Sqrt(Square(p.jitter) + Square(s.jitter));
    dtemp := dtemp + MaxR(p.disp + Aging(Difference(c.t, p.t)) + AbsR(p.offset), MINDISP);
    s.rootdisp := p.rootdisp + dtemp;
  }

  /** The discipline state after an update from a sample taken at pt. */
  function Disciplined(d: State, pt: uint64, offset: real, precision: int, junk: Junk): (State, Outcome) {
    var (d', outcome) := Update(d.(st := pt), pt, offset, precision, junk);
    (if outcome == Step then d'.(poll := MINPOLL) else d', outcome)
  }

  lemma DisciplinedKeepsRange(d: State, pt: uint64, offset: real, precision: int, junk: Junk)
    requires InRange(d) && d.ct < TWO63
    ensures var (d', outcome) := Disciplined(d, pt, offset, precision, junk);
            InRange(d') && Rank(d.state) <= Rank(d'.state) && d'.st == pt && d.ct <= d'.ct <= d.ct + 1 &&
            (d'.freq == d.freq || -MAXFREQ <= d'.freq <= MAXFREQ) &&
            (d.state == FREQ ==> d'.state == FREQ) &&
            (d.state == SYNC ==> outcome != Step)
  {
    UpdateKeepsRange(d.(st := pt), pt, offset, precision, junk);
  }

  /** What an update does to the discipline state. */
  ghost predicate Effect(verdict: Verdict, d: State, d': State, pt: uint64, offset: real, precision: int, junk: Junk) {
    match verdict
    case NoSource => d' == d
    case Stale => d' == d && d.st > pt
    case Done(outcome) => d.st <= pt && (d', outcome) == Disciplined(d, pt, offset, precision, junk)
  }

  /** What no step of the client undoes: times only grow, the state machine
      only moves on, and the frequency is untouched or clamped. */
  ghost predicate Progress(d: State, d': State) {
    d.ct <= d'.ct && d.st <= d'.st && Rank(d.state) <= Rank(d'.state) &&
    (d.state == FREQ ==> d'.state == FREQ) &&
    (d'.freq == d.freq || -MAXFREQ <= d'.freq <= MAXFREQ)
  }

  /** What a selection does to the clock, in its fields. */
  lemma EffectOnClock(verdict: Verdict, d: State, d': State, pt: uint64, offset: real, precision: int, junk: Junk)
    requires Effect(verdict, d, d', pt, offset, precision, junk)
    ensures verdict != Done(Step) ==> d'.localTime == d.localTime
    ensures verdict == Done(Step) && 0.0 <= offset < 1.0 ==>
              d'.localTime == (d.localTime - (offset * 4294967296.0).Floor) % 0x1_0000_0000_0000_0000
    ensures verdict == Done(Step) ==>
              d'.offset == 0.0 && d'.poll == 6 && (d'.state == FREQ ==> d'.count == 0 && d'.freq == d.freq)
  {
    hide Update;
    StepMovesClock(d.(st := pt), pt, offset, precision, junk);
  }

  lemma EffectIsProgress(verdict: Verdict, d: State, d': State, pt: uint64, offset: real, precision: int, junk: Junk)
    requires InRange(d) && d.ct < TWO63
    requires Effect(verdict, d, d', pt, offset, precision, junk)
    ensures Progress(d, d') && d'.ct <= d.ct + 1
    ensures d.state == SYNC ==> verdict != Done(Step)
  {
    DisciplinedKeepsRange(d, pt, offset, precision, junk);
  }

  /** The switch on the outcome of local_clock; a panic has ended the program. */
  method Announce(c: Clock, s: Sys, p: Peer, outcome: Outcome)
    modifies s`leap, s`stratum, s`refid, s`reftime, s`rootdelay, s`rootdisp, s`poll
    ensures VarsOf(s) == NewVars(Done(outcome), old(VarsOf(s)), c.t, p, s.jitter)
    ensures s.poll == if outcome == Step then MINPOLL else old(s.poll)
  {
    match outcome {
      case Panic =>
      case Step =>
        s.stratum := MAXSTRAT;
        s.poll := MINPOLL;
      case Slew =>
        TakePeer(c, s, p);
      case Ignore =>
    }
  }

  method ClockUpdate(c: Clock, s: Sys, peers: seq<Peer>, p: Peer, junk: Junk) returns (verdict: Verdict)
    requires SysOk(c, s, peers) && c.t < TWO63 - 1 && s.mark > 0
    requires AllPeers(PeersOf(s.v[..s.mark])) && s.v[s.mark].p == null
    requires 1 <= p.stratum < MAXSTRAT && p.t <= c.t
    modifies c, s
    ensures SysOk(c, s, peers) && c.lastTick == old(c.lastTick)
    ensures s.mark == old(s.mark) && s.p == old(s.p) && s.n == old(s.n)
    ensures verdict != NoSource
    ensures Effect(verdict, old(DisciplineOf(c, s)), DisciplineOf(c, s), p.t, s.offset, s.precision, junk)
    ensures verdict.Done? ==> Combined(old(c.t), PeersOf(s.v[..s.mark]), junk, s.offset, s.jitter)
    ensures VarsOf(s) == NewVars(verdict, old(VarsOf(s)), c.t, p, s.jitter)
    ensures verdict == Done(Step) ==> s.stratum == 16
  {
    hide AllPeers, Combined, Following, Discipline.Update, PeersOf, Rank;
    if s.t > p.t {
      return Stale;
    }
    ghost var d := DisciplineOf(c, s);
    s.t := p.t;
    assert s.v[..s.mark] == old(s.v[..s.mark]);
    ClockCombine(c, s, junk);
    DisciplinedKeepsRange(d, p.t, s.offset, s.precision, junk);
    var outcome := LocalClock(c, s, p.t, s.offset, junk);
    Announce(c, s, p, outcome);
    verdict := Done(outcome);
  }

  // ---- clock_select ----

  /** The chimes that survive, whatever the distances. */
  function Kept(ms: seq<Chime<Peer?>>, before: real): (vs: seq<Chime<Peer?>>)
    ensures |vs| <= |ms|
  {
    Survivors(ms, LowOf(ms, before), HighOf(ms))
  }

  /** The survivor list a selection leaves: the entries of the sorted chime
      list between the two ends, in order, and behind them what was there. */
  ghost predicate Listed(now: Moment, peers: seq<Peer>, m: seq<Chime<Peer?>>, edge: real,
                         before: seq<Survivor>, after: seq<Survivor>)
    reads peers`leap, peers`stratum, peers`refid, peers`reach, peers`rootdelay, peers`delay,
          peers`rootdisp, peers`disp, peers`offset, peers`t, peers`jitter
  {
    var fs := FitSources(now, peers);
    3 * |fs| <= |m| && |before| == |after| &&
    var vs := Kept(m[..3 * |fs|], edge);
    Arranged(m[..3 * |fs|], fs) && EntriesFor(now.t, after, vs, peers) &&
    forall k :: |vs| <= k < |after| ==> after[k] == before[k]
  }

  /** How many entries that are. */
  ghost function KeptCount(now: Moment, peers: seq<Peer>, m: seq<Chime<Peer?>>, edge: real): nat
    reads peers`leap, peers`stratum, peers`refid, peers`reach, peers`rootdelay, peers`delay,
          peers`rootdisp, peers`disp, peers`offset, peers`t, peers`jitter
  {
    var n := 3 * |FitSources(now, peers)|;
    if n <= |m| then |Kept(m[..n], edge)| else 0
  }

  /** A fit peer of the table. */
  ghost predicate Elected(now: Moment, peers: seq<Peer>, first: Peer?)
    reads peers`leap, peers`stratum, peers`refid, peers`reach, peers`rootdelay, peers`delay,
          peers`rootdisp, peers`disp, peers`offset, peers`t, peers`jitter
  {
    first != null && first in peers && Fit(now, first) && 1 <= first.stratum < MAXSTRAT
  }

  lemma FirstIsFit(now: Moment, peers: seq<Peer>, ms: seq<Chime<Peer?>>, fs: seq<Source<Peer?>>, chime: Chime<Peer?>)
    requires PeersOk(peers, now.t) && fs == FitSources(now, peers) && Arranged(ms, fs) && chime in ms
    ensures Elected(now, peers, chime.p)
  {
    hide RootDist, Arranged;
    var i :| 0 <= i < |ms| && ms[i] == chime;
    var f := SourceOf(ms, fs, i);
    FitSourcesMembers(now, peers);
    var k :| 0 <= k < |peers| && Fit(now, peers[k]) && f == SourceFor(now.t, peers[k]);
  }

  lemma EntriesNonNull(c: Clock, s: Sys, vs: seq<Chime<Peer?>>, peers: seq<Peer>)
    requires EntriesFor(c.t, s.v[..], vs, peers)
    ensures forall k :: 0 <= k < |vs| ==> s.v[k].p != null && s.v[k].p == vs[k].p
  {
    forall k | 0 <= k < |vs|
      ensures s.v[k].p != null && s.v[k].p == vs[k].p
    {
      assert EntryFor(c.t, s.v[k], vs[k], peers);
    }
  }

  lemma ListLengths(s: Sys, peers: seq<Peer>, ct: uint64)
    requires ListOk(s, peers) && PeersOk(peers, ct)
    ensures s.m.Length == s.v.Length == LISTSIZE && |peers| == NMAX
  {
  }

  /** The first half of clock_select: list the chimes, intersect, and list the
      survivors. */
  method ListTruechimers(c: Clock, s: Sys, peers: seq<Peer>, junk: Junk) returns (n: nat)
    requires ListOk(s, peers) && PeersOk(peers, c.t)
    modifies s`n, s`mark, s.m, s.v
    ensures ListOk(s, peers) && n <= s.v.Length && 0 <= s.n <= s.v.Length && old(s.mark) <= s.mark
    ensures n == 3 * |FitSources(Now(c, s), peers)|
    ensures Listed(Now(c, s), peers, s.m[..], junk.edge, old(s.v[..]), s.v[..])
    ensures s.n == KeptCount(Now(c, s), peers, s.m[..], junk.edge)
    ensures if s.n == 0 then s.mark == old(s.mark) else s.mark > 0 && Elected(Now(c, s), peers, s.v[0].p)
    ensures forall k :: 0 <= k < s.n ==> s.v[k].p != null
  {
    hide ListOk, PeersOk, Fit, FitSources, Survivors, Arranged, LowOf, HighOf, EntriesFor, Elected;
    ghost var now := Now(c, s);
    ghost var fs := FitSources(now, peers);
    ListLengths(s, peers, c.t);
    n := Cull(c, s, peers);
    FitSourcesMembers(now, peers);
    ghost var ms := s.m[..n];
    ArrangedTyped(ms, fs);
    var low, high := Intersection(s.m, n, junk);
    ListSurvivors(c, s, peers, n, fs, low, high);
    EntriesNonNull(c, s, Kept(ms, junk.edge), peers);
    if s.n > 0 {
      FirstIsFit(now, peers, ms, fs, Kept(ms, junk.edge)[0]);
    }
    assert s.m[..][..n] == ms;
  }

  /** The list is left at a length at which the cluster loop stops. */
  ghost predicate ClusteredList(s: Sys, n: nat, junk: Junk)
    reads s`n, s.v, PeersOf(s.v[..])`offset, PeersOf(s.v[..])`jitter
  {
    n <= s.v.Length && 0 <= s.n <= s.v.Length && Settled(PeersOf(s.v[..]), s.n, n, junk)
  }

  /** The system peer is the old one when it is at the stratum of the first
      survivor, and the first survivor otherwise. Nothing asks whether the old
      one is fit or on the list. */
  ghost predicate Chosen(osys: Peer?, chosen: Peer?, first: Peer?)
    reads {osys, first}`stratum
  {
    first != null && chosen == if osys != null && osys.stratum == first.stratum then osys else first
  }

  lemma ElectedNonNull(now: Moment, peers: seq<Peer>, first: Peer?)
    requires Elected(now, peers, first)
    ensures first != null
  {
  }

  /** The choice of the system peer. */
  method Pick(s: Sys, osys: Peer?)
    requires s.v.Length > 0 && s.v[0].p != null
    modifies s`p
    ensures Chosen(osys, s.p, s.v[0].p)
  {
    if osys != null && osys.stratum == s.v[0].p.stratum {
      s.p := osys;
    } else {
      s.p := s.v[0].p;
    }
  }

  /** The part of clock_select before the clock update: list and cluster the
      survivors, and pick the system peer. */
  method Select(c: Clock, s: Sys, peers: seq<Peer>, junk: Junk) returns (found: bool)
    requires ListOk(s, peers) && PeersOk(peers, c.t)
    modifies s`p, s`n, s`mark, s.m, s.v
    ensures ListOk(s, peers)
    ensures Listed(Now(c, s), peers, s.m[..], junk.edge, old(s.v[..]), s.v[..])
    ensures found <==> KeptCount(Now(c, s), peers, s.m[..], junk.edge) > 0
    ensures old(s.mark) <= s.mark
    ensures !found ==> s.p == null && s.mark == old(s.mark)
    ensures found ==> Chosen(old(s.p), s.p, s.v[0].p) && s.mark > 0
    ensures found ==> Elected(Now(c, s), peers, s.v[0].p)
    ensures found ==> ClusteredList(s, 3 * |FitSources(Now(c, s), peers)|, junk)
  {
    hide ListOk, PeersOk, FitSources, Listed, KeptCount, Chosen, Elected, Settled;
    var osys := s.p;
    s.p := null;
    var n := ListTruechimers(c, s, peers, junk);
    if s.n < NSANE {
      return false;
    }
    Cluster(s, n, junk);
    assert s.v[0].p != null by { ElectedNonNull(Now(c, s), peers, s.v[0].p); }
    Pick(s, osys);
    return true;
  }

  /** The client's state outside the peers, as a selection finds it. */
  datatype Snapshot = Snapshot(d: State, vars: SysVars, p: Peer?, list: seq<Survivor>)

  ghost function Snap(c: Clock, s: Sys): Snapshot
    reads c, s, s.v
  {
    Snapshot(DisciplineOf(c, s), VarsOf(s), s.p, s.v[..])
  }

  function MomentOf(before: Snapshot): Moment { Moment(before.d.ct, before.d.poll, before.vars.refid) }

  /** The system offset and jitter combine everything on the survivor list. */
  ghost predicate ListCombined(ct: uint64, s: Sys, peers: seq<Peer>, junk: Junk)
    reads s`mark, s`offset, s`jitter, s.v
    reads peers`rootdelay, peers`delay, peers`rootdisp, peers`disp, peers`offset, peers`t, peers`jitter
  {
    s.mark <= s.v.Length &&
    var ps := PeersOf(s.v[..s.mark]);
    (forall k :: 0 <= k < |ps| ==> ps[k] != null && ps[k] in peers) && Combined(ct, ps, junk, s.offset, s.jitter)
  }

  /** What a selection did: with no survivor it only dropped the system peer;
      otherwise it chose a peer and offered it to the clock discipline, which is
      then in state d. */
  ghost predicate Selection(verdict: Verdict, before: Snapshot, d: State, s: Sys, peers: seq<Peer>, junk: Junk)
    reads s, s.m, s.v
    reads peers`leap, peers`stratum, peers`refid, peers`reach, peers`rootdelay, peers`delay,
          peers`rootdisp, peers`disp, peers`offset, peers`t, peers`jitter, peers`reftime
  {
    var now := MomentOf(before);
    s.v.Length == LISTSIZE && s.mark < LISTSIZE &&
    Listed(now, peers, s.m[..], junk.edge, before.list, s.v[..]) &&
    if KeptCount(now, peers, s.m[..], junk.edge) == 0 then
      verdict == NoSource && Snapshot(d, VarsOf(s), s.p, s.v[..]) == before.(p := null)
    else
      verdict != NoSource && Elected(now, peers, s.v[0].p) && s.p != null && s.p in peers &&
      (before.p == null || before.p in peers) && Chosen(before.p, s.p, s.v[0].p) &&
      Effect(verdict, before.d, d, s.p.t, s.offset, s.precision, junk) &&
      VarsOf(s) == NewVars(verdict, before.vars, d.ct, s.p, s.jitter) &&
      (verdict.Done? ==> ListCombined(before.d.ct, s, peers, junk))
  }

  lemma NothingListed(now: Moment, peers: seq<Peer>, m: seq<Chime<Peer?>>, edge: real,
                      before: seq<Survivor>, after: seq<Survivor>)
    requires Listed(now, peers, m, edge, before, after) && KeptCount(now, peers, m, edge) == 0
    ensures after == before
  {
  }

  lemma MarkBelow(s: Sys, peers: seq<Peer>)
    requires ListOk(s, peers)
    ensures s.mark < s.v.Length == LISTSIZE
    ensures forall k :: 0 <= k < s.mark ==> s.v[k].p != null && s.v[k].p in peers
  {
  }

  lemma ChosenPeerOk(now: Moment, s: Sys, peers: seq<Peer>, osys: Peer?)
    requires PeersOk(peers, now.t) && ListOk(s, peers) && s.mark > 0
    requires osys == null || osys in peers
    requires Chosen(osys, s.p, s.v[0].p) && Elected(now, peers, s.v[0].p)
    ensures s.p != null && s.p in peers && 1 <= s.p.stratum < MAXSTRAT && s.p.t <= now.t
    ensures s.mark < s.v.Length && s.v[s.mark].p == null && AllPeers(PeersOf(s.v[..s.mark]))
  {
    var i :| 0 <= i < |peers| && peers[i] == s.p;
  }

  /** clock_select as the rest of the client sees it. */
  method ClockSelect(c: Clock, s: Sys, peers: seq<Peer>, junk: Junk) returns (verdict: Verdict)
    requires SysOk(c, s, peers) && PeersOk(peers, c.t) && c.t < TWO63 - 1
    modifies c, s, s.m, s.v
    ensures SysOk(c, s, peers) && c.lastTick == old(c.lastTick)
    ensures old(s.mark) <= s.mark
    ensures Selection(verdict, old(Snap(c, s)), DisciplineOf(c, s), s, peers, junk)
    ensures Progress(old(DisciplineOf(c, s)), DisciplineOf(c, s)) && c.t <= old(c.t) + 1
    ensures old(c.state) == SYNC ==> verdict != Done(Step)
    ensures verdict != Done(Step) ==> c.localTime == old(c.localTime)
    ensures verdict == Done(Step) && 0.0 <= s.offset < 1.0 ==>
              c.localTime == (old(c.localTime) - (s.offset * 4294967296.0).Floor) % 0x1_0000_0000_0000_0000
    ensures verdict == Done(Step) ==>
              c.offset == 0.0 && s.poll == 6 && s.stratum == 16 && (c.state == FREQ ==> c.count == 0)
  {
    hide Disciplined, Combined, Elected, ListOk, PeersOk, Listed, KeptCount, NewVars, FitSources, SourceFor, Fit;
    ghost var d := DisciplineOf(c, s);
    ListLengths(s, peers, c.t);
    var found := Select(c, s, peers, junk);
    if !found {
      MarkBelow(s, peers);
      NothingListed(MomentOf(old(Snap(c, s))), peers, s.m[..], junk.edge, old(s.v[..]), s.v[..]);
      return NoSource;
    }
    ChosenPeerOk(MomentOf(old(Snap(c, s))), s, peers, old(s.p));
    verdict := ClockUpdate(c, s, peers, s.p, junk);
    EffectIsProgress(verdict, d, DisciplineOf(c, s), s.p.t, s.offset, s.precision, junk);
    EffectOnClock(verdict, d, DisciplineOf(c, s), s.p.t, s.offset, s.precision, junk);
    MarkBelow(s, peers);
  }

  // ---- What a selection means while no dispersion is negative ----

  ghost predicate Leads(now: Moment, peers: seq<Peer>, first: Peer?)
    reads peers`leap, peers`stratum, peers`refid, peers`reach, peers`rootdelay, peers`delay,
          peers`rootdisp, peers`disp, peers`offset, peers`t, peers`jitter
  {
    Elected(now, peers, first) && StartsLast(SourceFor(now.t, first), FitSources(now, peers))
  }

  lemma SourceIsPeer(now: Moment, peers: seq<Peer>, f: Source<Peer?>)
    requires f in FitSources(now, peers)
    ensures f.p != null && f == SourceFor(now.t, f.p)
  {
    FitSourcesMembers(now, peers);
    var k :| 0 <= k < |peers| && Fit(now, peers[k]) && f == SourceFor(now.t, peers[k]);
  }

  /** The survivor list is empty exactly when no peer is fit; otherwise it has at
      least three entries, and its first names the fit source that starts last. */
  lemma ListLeads(now: Moment, peers: seq<Peer>, m: seq<Chime<Peer?>>, edge: real,
                  before: seq<Survivor>, after: seq<Survivor>)
    requires now.t < TWO63 && PeersOk(peers, now.t) && DispsOk(peers)
    requires Listed(now, peers, m, edge, before, after)
    ensures FitSources(now, peers) == [] ==> KeptCount(now, peers, m, edge) == 0
    ensures FitSources(now, peers) != [] ==> KeptCount(now, peers, m, edge) >= 3
    ensures FitSources(now, peers) != [] ==> |after| > 0 && Leads(now, peers, after[0].p)
  {
    hide Fit, RootDist, FitSources, PeersOk, StartsLast, SourceFor, Sorted, ChimeList;
    var fs := FitSources(now, peers);
    if fs != [] {
      var ms := m[..3 * |fs|];
      FitSourcesPositive(now, peers);
      ThreeSurvive(ms, fs);
      EndsAreEdges(ms, fs, edge);
      var f := FirstSurvivorStartsLast(ms, fs);
      FitSourcesMembers(now, peers);
      var vs := Kept(ms, edge);
      assert EntryFor(now.t, after[0], vs[0], peers);
      FirstIsFit(now, peers, ms, fs, vs[0]);
      SourceIsPeer(now, peers, f);
    }
  }

  lemma TablePeersFar(ct: uint64, ps: seq<Peer?>, peers: seq<Peer>, junk: Junk, offset: real, jitter: real)
    requires ct < TWO63 && PeersOk(peers, ct) && DispsOk(peers)
    requires Combined(ct, ps, junk, offset, jitter) && forall k :: 0 <= k < |ps| ==> ps[k] != null && ps[k] in peers
    ensures AllFar(ct, ps)
  {
    hide RootDist;
    forall k | 0 <= k < |ps|
      ensures RootDist(ct, ps[k]) > 0.0
    {
      var i :| 0 <= i < |peers| && peers[i] == ps[k];
      RootDistFloor(ct, peers[i]);
    }
  }

  /** A selection then finds no source exactly when no peer is fit, its list is
      led by the source that starts last, and the system offset it computes lies
      between the least and the greatest listed offset. */
  lemma SelectionLeads(verdict: Verdict, before: Snapshot, d: State, s: Sys, peers: seq<Peer>, junk: Junk,
                       lo: real, hi: real)
    requires Selection(verdict, before, d, s, peers, junk)
    requires before.d.ct < TWO63 && PeersOk(peers, before.d.ct) && DispsOk(peers)
    ensures verdict == NoSource <==> FitSources(MomentOf(before), peers) == []
    ensures verdict != NoSource ==> Leads(MomentOf(before), peers, s.v[0].p)
    ensures verdict.Done? && (forall p :: p in peers ==> lo <= p.offset <= hi) ==> lo <= s.offset <= hi
  {
    hide Fit, RootDist, FitSources, PeersOk, Leads, Listed, KeptCount, Effect, NewVars, Elected, Combined;
    ListLeads(MomentOf(before), peers, s.m[..], junk.edge, before.list, s.v[..]);
    if verdict.Done? && forall p :: p in peers ==> lo <= p.offset <= hi {
      var ps := PeersOf(s.v[..s.mark]);
      TablePeersFar(before.d.ct, ps, peers, junk, s.offset, s.jitter);
      CombinedIsConvex(before.d.ct, ps, junk, s.offset, s.jitter, lo, hi);
    }
  }

  /** The peer chosen is fit exactly when it is not an unfit old system peer that
      shares the first survivor's stratum. */
  lemma ChosenFit(verdict: Verdict, before: Snapshot, d: State, s: Sys, peers: seq<Peer>, junk: Junk)
    requires Selection(verdict, before, d, s, peers, junk) && verdict != NoSource
    ensures Fit(MomentOf(before), s.p) <==>
            before.p == null || before.p.stratum != s.v[0].p.stratum || Fit(MomentOf(before), before.p)
  {
    hide RootDist, FitSources, Listed, KeptCount, Effect, NewVars;
  }

  // ---- The selection in the fields of the peers ----

  /** Root distance with its terms written out. */
  lemma DistanceInFields(ct: uint64, p: Peer)
    requires p.t <= ct < TWO63
    ensures RootDist(ct, p)
            == (if p.rootdelay + p.delay > 0.01 then p.rootdelay + p.delay else 0.01) / 2.0
               + p.rootdisp + p.disp + 0.000015 * ((ct - p.t) as real / 4294967296.0) + p.jitter
  {
    DifferenceExact(ct, p.t);
  }

  lemma FitInFields(now: Moment, p: Peer)
    requires p.t <= now.t < TWO63 && MINPOLL <= now.poll <= MAXPOLL
    ensures var dist := (if p.rootdelay + p.delay > 0.01 then p.rootdelay + p.delay else 0.01) / 2.0
                        + p.rootdisp + p.disp + 0.000015 * ((now.t - p.t) as real / 4294967296.0) + p.jitter;
            Fit(now, p) <==>
            p.leap != 3 && p.stratum <= 15 && dist <= 5.0 + 0.000015 * (Pow2(now.poll) as real) &&
            (p.stratum == 1 || (p.refid != p.dstaddr && p.refid != now.refid)) && p.reach != 0
  {
    hide RootDist;
    DistanceInFields(now.t, p);
  }

  lemma KeptIn(ms: seq<Chime<Peer?>>, edge: real, k: nat)
    requires k < |Kept(ms, edge)|
    ensures Kept(ms, edge)[k] in ms
  {
  }

  lemma ElectedInFields(now: Moment, peers: seq<Peer>, p: Peer?)
    requires Elected(now, peers, p) && PeersOk(peers, now.t) && now.t < TWO63 && MINPOLL <= now.poll <= MAXPOLL
    ensures p != null && p.t <= now.t && p.leap != 3 && 1 <= p.stratum <= 15 && p.reach != 0
    ensures p.stratum == 1 || (p.refid != p.dstaddr && p.refid != now.refid)
    ensures exists i :: 0 <= i < 32 && i < |p.replies| && p.replies[i]
    ensures RootDist(now.t, p) <= 5.0 + 0.000015 * (Pow2(now.poll) as real)
    ensures RootDist(now.t, p)
            == (if p.rootdelay + p.delay > 0.01 then p.rootdelay + p.delay else 0.01) / 2.0
               + p.rootdisp + p.disp + 0.000015 * ((now.t - p.t) as real / 4294967296.0) + p.jitter
  {
    hide Fit, RootDist, Reach.Pack;
    var i :| 0 <= i < |peers| && peers[i] == p;
    FitInFields(now, p);
    DistanceInFields(now.t, p);
    Reach.PackZero(p.replies, 32);
  }

  /** Every peer that a selection lists is synchronized, of a proper stratum, not
      in a loop, within the distance threshold, and has answered one of the last
      32 polls; its metric is dominated by the stratum. */
  lemma ListedPeerQualifies(verdict: Verdict, before: Snapshot, d: State, s: Sys, peers: seq<Peer>, junk: Junk,
                            k: nat)
    requires Selection(verdict, before, d, s, peers, junk)
    requires before.d.ct < TWO63 && PeersOk(peers, before.d.ct) && MINPOLL <= before.d.poll <= MAXPOLL
    requires k < KeptCount(MomentOf(before), peers, s.m[..], junk.edge)
    ensures k < s.v.Length && s.v[k].p != null && s.v[k].p in peers
    ensures var p := s.v[k].p;
            p.leap != 3 && 1 <= p.stratum <= 15 &&
            (p.stratum == 1 || (p.refid != p.dstaddr && p.refid != before.vars.refid)) &&
            p.reach != 0 && exists i :: 0 <= i < 32 && i < |p.replies| && p.replies[i]
    ensures var p := s.v[k].p;
            p.t <= before.d.ct &&
            var dist := (if p.rootdelay + p.delay > 0.01 then p.rootdelay + p.delay else 0.01) / 2.0
                        + p.rootdisp + p.disp + 0.000015 * ((before.d.ct - p.t) as real / 4294967296.0) + p.jitter;
            dist <= 5.0 + 0.000015 * (Pow2(before.d.poll) as real) &&
            s.v[k].metric == 5.0 * (p.stratum as real) + dist
  {
    hide Fit, RootDist, FitSources, PeersOk, Survivors, LowOf, HighOf, Arranged, Effect, NewVars, Elected;
    var now := MomentOf(before);
    var fs := FitSources(now, peers);
    var ms := s.m[..][..3 * |fs|];
    var vs := Kept(ms, junk.edge);
    assert EntryFor(now.t, s.v[..][k], vs[k], peers);
    KeptIn(ms, junk.edge, k);
    FirstIsFit(now, peers, ms, fs, vs[k]);
    ElectedInFields(now, peers, s.v[k].p);
  }

  /** Conversely every peer of the table that meets these conditions contributes
      its three edges to the chime list, and while no dispersion is negative its
      presence alone makes the selection choose a peer. */
  lemma QualifiedPeerIsListed(verdict: Verdict, before: Snapshot, d: State, s: Sys, peers: seq<Peer>, junk: Junk,
                              p: Peer)
    requires Selection(verdict, before, d, s, peers, junk)
    requires before.d.ct < TWO63 && PeersOk(peers, before.d.ct) && MINPOLL <= before.d.poll <= MAXPOLL
    requires p in peers && p.t <= before.d.ct
    requires p.leap != 3 && p.stratum <= 15 && p.reach != 0
    requires p.stratum == 1 || (p.refid != p.dstaddr && p.refid != before.vars.refid)
    requires (if p.rootdelay + p.delay > 0.01 then p.rootdelay + p.delay else 0.01) / 2.0
             + p.rootdisp + p.disp + 0.000015 * ((before.d.ct - p.t) as real / 4294967296.0) + p.jitter
             <= 5.0 + 0.000015 * (Pow2(before.d.poll) as real)
    ensures var dist := (if p.rootdelay + p.delay > 0.01 then p.rootdelay + p.delay else 0.01) / 2.0
                        + p.rootdisp + p.disp + 0.000015 * ((before.d.ct - p.t) as real / 4294967296.0) + p.jitter;
            var q: Peer? := p;
            Chime(q, -1, p.offset - dist) in s.m[..] && Chime(q, 0, p.offset) in s.m[..] &&
            Chime(q, 1, p.offset + dist) in s.m[..]
    ensures DispsOk(peers) ==> verdict != NoSource
  {
    hide Fit, RootDist, FitSources, PeersOk, Kept, KeptCount, Effect, NewVars, Elected, Sorted, ChimeList;
    var now := MomentOf(before);
    FitInFields(now, p);
    DistanceInFields(now.t, p);
    FitSourcesMembers(now, peers);
    var fs, f := FitSources(now, peers), SourceFor(now.t, p);
    var k :| 0 <= k < |peers| && peers[k] == p;
    assert f in fs;
    var ms := s.m[..][..3 * |fs|];
    var i := PlaceOf(ms, fs, f, EdgesOf(f)[0]);
    var j := PlaceOf(ms, fs, f, EdgesOf(f)[1]);
    var l := PlaceOf(ms, fs, f, EdgesOf(f)[2]);
    assert s.m[..][i] == EdgesOf(f)[0] && s.m[..][j] == EdgesOf(f)[1] && s.m[..][l] == EdgesOf(f)[2];
    if DispsOk(peers) {
      SelectionLeads(verdict, before, d, s, peers, junk, 0.0, 0.0);
    }
  }

  /** After a slew the system follows the chosen peer, one stratum below it, and
      announces the peer's root dispersion plus at least the minimum. */
  lemma SlewFollowsPeer(before: Snapshot, d: State, s: Sys, peers: seq<Peer>, junk: Junk)
    requires Selection(Done(Slew), before, d, s, peers, junk)
    requires d.ct < TWO63 && (s.p != null ==> s.p.t <= d.ct)
    ensures s.p != null && s.leap == s.p.leap && s.stratum == s.p.stratum + 1
    ensures s.refid == s.p.refid && s.reftime == s.p.reftime && s.rootdelay == s.p.rootdelay + s.p.delay
    ensures s.rootdisp >= s.p.rootdisp + 0.01
    ensures var err := s.p.disp + 0.000015 * ((d.ct - s.p.t) as real / 4294967296.0)
                       + (if s.p.offset < 0.0 then -s.p.offset else s.p.offset);
            s.rootdisp == s.p.rootdisp + SqrtOf(s.p.jitter * s.p.jitter + s.jitter * s.jitter)
                          + if err > 0.01 then err else 0.01
  {
    hide Listed, KeptCount, Elected, Effect, SqrtOf;
    SqrtNonNegative(Square(s.p.jitter) + Square(s.jitter));
    DifferenceExact(d.ct, s.p.t);
    assert Square(s.p.jitter) + Square(s.jitter) == s.p.jitter * s.p.jitter + s.jitter * s.jitter;
  }

  lemma LoneTerm(zero: real, aa: real, a: real, x: real, y: real, r: real)
    requires x > 0.0 && y > 0.0 && zero == 0.0 && aa == a * a && r == (zero * y + aa * x) / (x + y)
    ensures r * (x + y) == a * a * x
  {
    assert zero * y + aa * x == a * a * x;
  }

  lemma SameRatio(a: real, b: real, k: real, n: real, d: real)
    requires b > 0.0 && d > 0.0 && a * k == n && b * k == d
    ensures a / b == n / d
  {
    var r := a / b;
    assert r * b == a;
    assert r * d == n by {
      assert r * d == r * (b * k);
      assert r * (b * k) == (r * b) * k;
    }
  }

  lemma CrossMultiply(x: real, y: real, a: real, b: real, p: real, q: real, u: real, v: real)
    requires x > 0.0 && y > 0.0 && u > 0.0 && v > 0.0
    requires p * x == a && q * y == b && u * x == 1.0 && v * y == 1.0
    ensures (p + q) / (u + v) == (a * y + b * x) / (x + y)
  {
    var n, d := a * y + b * x, x + y;
    var xy := x * y;
    assert (p + q) * xy == n by {
      assert p * xy == a * y;
      assert q * xy == b * x;
    }
    assert (u + v) * xy == d by {
      assert u * xy == y;
      assert v * xy == x;
    }
    SameRatio(p + q, u + v, xy, n, d);
  }

  lemma TwoQuotients(x: real, y: real, a: real, b: real, junk: Junk)
    requires x > 0.0 && y > 0.0
    ensures Quotient(Quotient(a, x, junk) + Quotient(b, y, junk), Quotient(1.0, x, junk) + Quotient(1.0, y, junk), junk)
            == (a * y + b * x) / (x + y)
  {
    var u, v := 1.0 / x, 1.0 / y;
    assert u > 0.0 && v > 0.0;
    CrossMultiply(x, y, a, b, a / x, b / y, u, v);
  }

  lemma LoneQuotient(x: real, y: real, zero: real, aa: real, a: real, junk: Junk) returns (r: real)
    requires x > 0.0 && y > 0.0 && zero == 0.0 && aa == a * a
    ensures r * (x + y) == a * a * x
    ensures r == Quotient(Quotient(zero, x, junk) + Quotient(aa, y, junk),
                          Quotient(1.0, x, junk) + Quotient(1.0, y, junk), junk)
  {
    hide Quotient;
    TwoQuotients(x, y, zero, aa, junk);
    r := (zero * y + aa * x) / (x + y);
    LoneTerm(zero, aa, a, x, y, r);
  }

  lemma TwoTotals(ct: uint64, p: Peer, q: Peer, junk: Junk)
    ensures var ps: seq<Peer?> := [p, q];
            var x, y := RootDist(ct, p), RootDist(ct, q);
            WeightTotal(ct, ps, junk) == Quotient(1.0, x, junk) + Quotient(1.0, y, junk) &&
            OffsetTotal(ct, ps, junk) == Quotient(p.offset, x, junk) + Quotient(q.offset, y, junk) &&
            DeviationTotal(ct, ps, p.offset, junk)
            == Quotient(SquareOf(p.offset - p.offset), x, junk) + Quotient(SquareOf(q.offset - p.offset), y, junk)
  {
    hide RootDist, SquareOf, Quotient;
    var ps: seq<Peer?> := [p, q];
    assert ps[..0] == [] && ps[..1] == [p] && ps[..2] == ps;
    EmptyTotals(ct, p.offset, junk);
    TotalsGrow(ct, ps, 0, p.offset, junk);
    TotalsGrow(ct, ps, 1, p.offset, junk);
  }

  /** Two survivors share the weight in inverse proportion to their distances,
      and the jitter is the root of the squared difference so weighted. */
  lemma TwoSurvivors(ct: uint64, p: Peer, q: Peer, junk: Junk, offset: real, jitter: real) returns (share: real)
    requires Combined(ct, [p, q], junk, offset, jitter)
    requires RootDist(ct, p) > 0.0 && RootDist(ct, q) > 0.0
    ensures var x, y, gap := RootDist(ct, p), RootDist(ct, q), q.offset - p.offset;
            offset == (p.offset * y + q.offset * x) / (x + y) &&
            share * (x + y) == gap * gap * x && jitter == SqrtOf(share)
  {
    hide RootDist, SqrtOf, SquareOf, Quotient, WeightTotal, OffsetTotal, DeviationTotal;
    var x, y := RootDist(ct, p), RootDist(ct, q);
    TwoTotals(ct, p, q, junk);
    SquareIsProduct(p.offset - p.offset);
    SquareIsProduct(q.offset - p.offset);
    TwoQuotients(x, y, p.offset, q.offset, junk);
    var a := q.offset - p.offset;
    share := LoneQuotient(x, y, SquareOf(p.offset - p.offset), SquareOf(a), a, junk);
  }

  function OffsetsOf(ps: seq<Peer?>): real
    requires forall k :: 0 <= k < |ps| ==> ps[k] != null
    reads ps`offset
  {
    if ps == [] then 0.0 else OffsetsOf(ps[..|ps| - 1]) + ps[|ps| - 1].offset
  }

  lemma MacroStep(n: nat, x: real, sum: real, o: real)
    ensures n as real * x - (1.0 + x) * sum + (x - o * x - o) == (n + 1) as real * x - (1.0 + x) * (sum + o)
  {
    assert (n + 1) as real == n as real + 1.0;
  }

  /** What the macro makes of the squared differences: over a list without null
      entries the sum depends on the other offsets only through their sum. */
  lemma {:induction false} MacroSum(p: Peer, ps: seq<Peer?>, junk: Junk)
    requires forall k :: 0 <= k < |ps| ==> ps[k] != null
    ensures DeviationSumOf(p, ps, junk) == |ps| as real * p.offset - (1.0 + p.offset) * OffsetsOf(ps)
  {
    if ps != [] {
      var init, o := ps[..|ps| - 1], ps[|ps| - 1].offset;
      MacroSum(p, init, junk);
      MacroStep(|init|, p.offset, OffsetsOf(init), o);
    }
  }

  /** Every other outcome of a selection leaves the announced variables alone,
      except that a step resets the stratum. */
  lemma OtherOutcomesKeep(verdict: Verdict, before: Snapshot, d: State, s: Sys, peers: seq<Peer>, junk: Junk)
    requires Selection(verdict, before, d, s, peers, junk) && verdict != Done(Slew)
    ensures s.leap == before.vars.leap && s.refid == before.vars.refid && s.reftime == before.vars.reftime
    ensures s.rootdelay == before.vars.rootdelay && s.rootdisp == before.vars.rootdisp
    ensures s.stratum == if verdict == Done(Step) then 16 else before.vars.stratum
  {
    hide Listed, KeptCount, Elected, Effect, Combined;
  }

  lemma UpdateTakesTime(d: State, pt: uint64, offset: real, precision: int, junk: Junk)
    requires d.st == pt
    ensures Update(d, pt, offset, precision, junk).0.st == pt
  {
    hide NewJitter, NewWander, LoopGain, PollAdjust, Rate;
  }

  /** Which peer a selection chose, and when it discards the sample as old. */
  lemma ChoiceInFields(verdict: Verdict, before: Snapshot, d: State, s: Sys, peers: seq<Peer>, junk: Junk)
    requires Selection(verdict, before, d, s, peers, junk) && verdict != NoSource
    ensures s.v.Length > 0 && s.v[0].p != null
    ensures s.p == if before.p != null && before.p.stratum == s.v[0].p.stratum then before.p else s.v[0].p
    ensures verdict == Stale <==> before.d.st > s.p.t
    ensures verdict != Stale ==> d.st == s.p.t
    ensures verdict == Stale ==> d == before.d
  {
    hide Listed, KeptCount, Elected, NewVars, Combined, Update;
    if verdict.Done? {
      UpdateTakesTime(before.d.(st := s.p.t), s.p.t, s.offset, s.precision, junk);
    }
  }
}
