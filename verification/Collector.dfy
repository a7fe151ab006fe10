/** The collector, on the arena itself. */
module Collector {
  import opened Cells
  import opened Cheney
  import opened Flip
  import Graph

  const FRAME_SIZE := 5

  /** The set is closed under references: what a collection may meet. */
  ghost predicate Closed(h: Heap, live: set<int>) {
    && Wf(h) && InBounds(h) && live <= h.objs
    && forall o :: o in live ==>
         0 <= h.m[o].typ < TBROKEN_HEART && FieldsIn(h.m[o], live) && GoodRun(h, live, o)
  }

  lemma LiveIsClosed(h: Heap, roots: set<int>)
    requires Wf(h)
    ensures Closed(h, Live(h, roots))
  {
    assert InBounds(h) by { assert forall o :: o in h.objs ==> WfObject(h, o); }
    forall o | o in Live(h, roots)
      ensures 0 <= h.m[o].typ < TBROKEN_HEART
      ensures FieldsIn(h.m[o], Live(h, roots)) && GoodRun(h, Live(h, roots), o)
    {
      assert WfObject(h, o);
      LiveFields(h, roots, o);
    }
  }

  /** A copying run in progress: the invariant of the scan, that the new space
      holds exactly the cells of the objects copied so far, and that there is
      room for the reachable ones. */
  ghost predicate Running(h: Heap, live: set<int>, nlo: int, x: Space) {
    && Closed(h, live)
    && Inv(h, live, nlo, x)
    && x.free - nlo == |Area(h, x.f.Keys)|
    && nlo + |Area(h, live)| <= |x.m|
    && h.hi < nlo - 1 && x.m[nlo - 1].typ == TCHAR
  }

  /** A run starts with nothing copied. */
  ghost function Begin(m: seq<Cell>, nlo: int): Space {
    Space(m, nlo, false, nlo, map[], map[])
  }

  lemma BeginFacts(m: seq<Cell>, nlo: int, nil: int)
    ensures Begin(m, nlo).m == m && Begin(m, nlo).free == nlo
    ensures Begin(m, nlo).scan == nlo && !Begin(m, nlo).half
    ensures InOrder(Begin(m, nlo).f, nil, nil, nlo)
  {
  }

  lemma BeginRuns(h: Heap, live: set<int>, m: seq<Cell>, nlo: int)
    requires Closed(h, live) && |m| == |h.m| && h.hi < nlo - 1 && m[..h.hi] == h.m[..h.hi]
    requires nlo + |Area(h, live)| <= |m| && m[nlo - 1].typ == TCHAR
    ensures Running(h, live, nlo, Begin(m, nlo))
  {
    var x := Begin(m, nlo);
    assert Area(h, x.f.Keys) == {};
    hide Wf, Area, GoodRun, FieldsIn;
    forall i | 0 <= i < h.hi ensures m[i] == h.m[i] {
      assert m[..h.hi][i] == h.m[..h.hi][i];
    }
  }

  /** When the scan ends, what the copied objects point at is copied. */
  lemma ScanComplete(h: Heap, live: set<int>, nlo: int, x: Space)
    requires Wf(h) && Done(h, live, nlo, x)
    ensures forall o, p :: o in x.f && o in h.objs && Refs(h, o, p) ==> p in x.f
  {
    forall o, p | o in x.f && o in h.objs && Refs(h, o, p) ensures p in x.f {
      RefCopied(h, live, nlo, x, o, p);
    }
  }

  lemma RefCopied(h: Heap, live: set<int>, nlo: int, x: Space, o: int, p: int)
    requires Wf(h) && Done(h, live, nlo, x) && o in x.f && Refs(h, o, p)
    ensures p in x.f
  {
    assert WfObject(h, o) && PlacedAt(h.m[o], nlo, x, o);
    if !CellRef(h.m[o], p) {
      var i :| h.m[o].cdr <= i < h.m[o].cdr + h.m[o].car && CellRef(h.m[i], p);
      var c := x.f[o] + 1 + (i - h.m[o].cdr);
      assert c in x.org && x.org[c] == i;
    }
  }

  /** A finished scan has copied exactly the reachable objects. */
  lemma ScanFinal(h: Heap, roots: set<int>, live: set<int>, nlo: int, x: Space)
    requires Wf(h) && live == Live(h, roots)
    requires Running(h, live, nlo, x) && x.scan == x.free && !x.half
    requires roots <= x.f.Keys <= h.objs
    ensures Done(h, live, nlo, x) && x.f.Keys == live
    ensures x.free - nlo == |Area(h, live)| <= h.hi - h.lo
  {
    hide *;
    RunningFacts(h, live, nlo, x);
    ScanComplete(h, live, nlo, x);
    LiveLeast(h, roots, x.f.Keys);
    AreaMonotone(h, x.f.Keys, live);
  }

  lemma RunningKeys(h: Heap, live: set<int>, nlo: int, x: Space)
    requires Running(h, live, nlo, x)
    ensures x.f.Keys <= live <= h.objs
  {
  }

  lemma RunningFacts(h: Heap, live: set<int>, nlo: int, x: Space)
    requires Running(h, live, nlo, x) && Wf(h) && x.f.Keys <= h.objs
    ensures x.free - nlo == |Area(h, x.f.Keys)|
    ensures x.f.Keys <= live <= h.objs && (x.scan == x.free && !x.half ==> Done(h, live, nlo, x))
  {
  }

  /** The new space is packed, from the cell before the first object on. */
  lemma ScanGapless(h: Heap, live: set<int>, nlo: int, x: Space)
    requires Running(h, live, nlo, x) && x.scan == x.free && !x.half
    ensures Gapless(x.m, x.org.Keys + {nlo - 1}, nlo - 1, x.free)
  {
    SpaceCells(h, live, nlo, x);
    hide Running;
    PackedGapless(nlo, x);
  }

  lemma SpaceCells(h: Heap, live: set<int>, nlo: int, x: Space)
    requires Running(h, live, nlo, x)
    ensures 0 < nlo <= x.free <= |x.m| && x.m[nlo - 1].typ == TCHAR
    ensures forall c :: c in x.org ==>
      && nlo <= c < x.free && x.m[c].typ != TBROKEN_HEART
      && (x.m[c].typ == TBYTES ==> HasBytes(x.m[c]))
    ensures Packed(nlo, x)
  {
  }

  lemma PackedGapless(nlo: int, x: Space)
    requires 0 < nlo <= x.free <= |x.m| && x.m[nlo - 1].typ == TCHAR
    requires forall c :: c in x.org ==>
      && nlo <= c < x.free && x.m[c].typ != TBROKEN_HEART
      && (x.m[c].typ == TBYTES ==> HasBytes(x.m[c]))
    requires Packed(nlo, x)
    ensures Gapless(x.m, x.org.Keys + {nlo - 1}, nlo - 1, x.free)
  {
    var starts := x.org.Keys + {nlo - 1};
    assert forall c :: c in starts <==> c in x.org || c == nlo - 1;
    assert Next(x.m, nlo - 1) == nlo;
  }

  /** What copying object `o` needs of the memory. */
  ghost predicate CanCopy(m: seq<Cell>, free: int, o: int) {
    && 0 <= o < free <= |m|
    && (m[o].typ != TBROKEN_HEART ==>
          && free + Size(m[o]) <= |m|
          && (m[o].typ == TBYTES ==> HasBytes(m[o]))
          && (IsBlock(m[o].typ) ==> 0 <= m[o].cdr && m[o].cdr + m[o].car <= free))
  }

  lemma Copyable(h: Heap, live: set<int>, nlo: int, x: Space, o: int)
    requires Running(h, live, nlo, x) && o in live
    ensures CanCopy(x.m, x.free, o) && 0 <= o < x.free
  {
    assert WfObject(h, o) && h.m[o].typ != TBROKEN_HEART;
    HeartsAreForwarded(h, x, o);
    if o !in x.f {
      Room(h, live, x.f.Keys, o);
    }
  }

  /** One copying step of a running collection. */
  lemma CopyStep(h: Heap, live: set<int>, nlo: int, x: Space, o: int,
                 m': seq<Cell>, free': int, n: int) returns (y: Space)
    requires Running(h, live, nlo, x) && o in live && |m'| == |x.m|
    requires 0 <= o < x.free && Evacuated(x.m, x.free, o, m', free', n)
    ensures Running(h, live, nlo, y)
    ensures y.m == m' && y.free == free' && y.scan == x.scan && y.half == x.half
    ensures y.f.Keys == x.f.Keys + {o} && y.f[o] == n && Grows(x.f, y.f)
    ensures o in h.objs && 0 <= o < |h.m| && free' == x.free + if o in x.f then 0 else Size(h.m[o])
    ensures KeepsCopies(x, y)
  {
    hide Inv, Evacuated, Area, Wf, GoodRun, FieldsIn;
    LiveObject(h, live, o);
    KeysLive(h, live, nlo, x);
    y := Evacuate(h, live, nlo, x, o, m', free', n);
    GuardStays(h, nlo, x, o, m', free', n);
    CopiedArea(h, x.f.Keys, o);
  }

  /** The cell in front of the new space is not written to. */
  lemma GuardStays(h: Heap, nlo: int, x: Space, o: int, m': seq<Cell>, free': int, n: int)
    requires 0 <= o < h.hi < nlo - 1 && nlo <= x.free <= |x.m| == |m'| && o < x.free
    requires Evacuated(x.m, x.free, o, m', free', n)
    ensures m'[nlo - 1].typ == x.m[nlo - 1].typ
  {
  }

  lemma LiveObject(h: Heap, live: set<int>, o: int)
    requires Closed(h, live) && o in live
    ensures Wf(h) && InBounds(h) && o in h.objs && 0 <= o < |h.m| && o < h.hi
    ensures 0 <= h.m[o].typ < TBROKEN_HEART && FieldsIn(h.m[o], live) && GoodRun(h, live, o)
  {
    hide Wf, GoodRun, FieldsIn;
  }

  lemma KeysLive(h: Heap, live: set<int>, nlo: int, x: Space)
    requires Inv(h, live, nlo, x)
    ensures live <= h.objs && x.f.Keys <= live && |x.m| == |h.m| && nlo <= x.free <= |x.m|
  {
  }

  lemma CopiedArea(h: Heap, s: set<int>, o: int)
    requires Wf(h) && s <= h.objs && o in h.objs
    ensures |Area(h, s + {o})| == |Area(h, s)| + if o in s then 0 else Size(h.m[o])
  {
    if o in s {
      assert s + {o} == s;
    } else {
      AreaAdd(h, s, o);
    }
  }

  /** The cell at `n` is a copy of object `o`, whose run follows it. */
  ghost predicate HeaderCopied(m: seq<Cell>, n: int, o: int, m': seq<Cell>)
    requires 0 <= o < |m| && 0 <= n < |m'|
  {
    && m'[n].typ == m[o].typ && m'[n].car == m[o].car
    && m'[n].cdr == (if IsBlock(m[o].typ) then n + 1 else m[o].cdr)
    && (m[o].typ == TBYTES && HasBytes(m[o]) ==> HasBytes(m'[n]) && BlockBytes(m'[n]) == BlockBytes(m[o]))
  }

  /** The cells behind `n` are copies of those from `from` on. */
  ghost predicate RunCopied(m: seq<Cell>, n: int, from: int, m': seq<Cell>, free: int) {
    |m'| == |m| && forall i {:trigger m'[i]} :: n < i < free && 0 <= i < |m| ==>
      0 <= from + (i - n - 1) < |m| && SameWords(m'[i], m[from + (i - n - 1)])
  }

  lemma SameRun(m: seq<Cell>, mid: seq<Cell>, n: int, o: int, m': seq<Cell>, free: int)
    requires CanCopy(m, n, o) && m[o].typ != TBROKEN_HEART && IsBlock(m[o].typ) && |m'| == |mid| == |m|
    requires forall k :: 0 <= k < |m| && k != n ==> mid[k] == m[k]
    requires free == n + Size(m[o])
    requires forall k {:trigger m'[k]} :: n + 1 <= k < free ==> SameWords(m'[k], mid[m[o].cdr + (k - (n + 1))])
    ensures RunCopied(m, n, m[o].cdr, m', free)
  {
  }

  lemma HeartLeft(m: seq<Cell>, n: int, o: int, m': seq<Cell>, free: int)
    requires CanCopy(m, n, o) && m[o].typ != TBROKEN_HEART && |m'| == |m|
    requires free == n + Size(m[o]) && HeaderCopied(m, n, o, m')
    requires IsBlock(m[o].typ) ==> RunCopied(m, n, m[o].cdr, m', free)
    requires m'[o] == m[o].(typ := TBROKEN_HEART, car := n)
    requires forall k {:trigger m'[k]} :: 0 <= k < |m| && !(n <= k < free) && k != o ==> m'[k] == m[k]
    ensures Evacuated(m, n, o, m', free, n)
  {
  }

  /** What has been copied stays where and as it is. */
  ghost predicate KeepsCopies(x: Space, y: Space) {
    && |y.m| == |x.m| && x.free <= y.free
    && forall c :: c in x.org && 0 <= c < |x.m| ==> c in y.org && y.m[c] == x.m[c]
  }

  lemma CopyKept(x: Space, y: Space, c: int)
    requires KeepsCopies(x, y) && c in x.org && 0 <= c < |x.m|
    ensures |y.m| == |x.m| && x.free <= y.free && y.m[c] == x.m[c]
  {
  }

  lemma GrowsSelf(f: map<int, int>)
    ensures Grows(f, f)
  {
  }

  /** The addresses that the scan is about to follow. */
  lemma ScanRefs(h: Heap, live: set<int>, nlo: int, x: Space)
    requires Running(h, live, nlo, x) && x.scan < x.free
    ensures 0 <= x.scan < |x.m| && x.scan in x.org && 0 <= x.m[x.scan].typ < TBROKEN_HEART
    ensures !x.half && TracesCar(x.m[x.scan].typ) ==> x.m[x.scan].car in live
    ensures TracesCdr(x.m[x.scan].typ) ==> x.m[x.scan].cdr in live
    ensures x.m[x.scan].typ == TBYTES ==> HasBytes(x.m[x.scan])
  {
  }

  /** The first word at the scan position is done. */
  lemma CarDone(h: Heap, live: set<int>, nlo: int, x: Space, m': seq<Cell>) returns (y: Space)
    requires Running(h, live, nlo, x) && !x.half && x.scan < x.free
    requires if TracesCar(x.m[x.scan].typ)
             then x.m[x.scan].car in x.f && m' == x.m[x.scan := x.m[x.scan].(car := x.f[x.m[x.scan].car])]
             else m' == x.m
    ensures Running(h, live, nlo, y) && y == x.(half := true, m := m')
  {
    y := x.(half := true, m := m');
    RelocateCar(h, live, nlo, x, y);
  }

  /** Both words at the scan position are done. */
  lemma CdrDone(h: Heap, live: set<int>, nlo: int, x: Space, m': seq<Cell>) returns (y: Space)
    requires Running(h, live, nlo, x) && x.half && x.scan < x.free
    requires if TracesCdr(x.m[x.scan].typ)
             then x.m[x.scan].cdr in x.f && m' == x.m[x.scan := x.m[x.scan].(cdr := x.f[x.m[x.scan].cdr])]
             else m' == x.m
    ensures Running(h, live, nlo, y)
    ensures y == x.(half := false, scan := x.scan + Step(x.m[x.scan]), m := m')
  {
    y := x.(half := false, scan := Next(x.m, x.scan), m := m');
    RelocateCdr(h, live, nlo, x, y);
  }

  /** Cells packed in [from, to), none of them a broken heart. */
  ghost predicate Gapless(m: seq<Cell>, starts: set<int>, from: int, to: int) {
    && 0 <= from <= to <= |m|
    && (from < to ==> from in starts)
    && (forall c :: c in starts ==>
          && from <= c < to && m[c].typ != TBROKEN_HEART && (m[c].typ == TBYTES ==> HasBytes(m[c])))
    && (forall c {:trigger Next(m, c)} :: c in starts ==> Next(m, c) in starts || Next(m, c) == to)
    && (forall c, k {:trigger Next(m, c), k in starts} :: c in starts && k in starts && c < k ==> Next(m, c) <= k)
  }

  /** The cells that start below `src` have been moved down by `dist`. */
  ghost predicate MovedBelow(m: seq<Cell>, starts: set<int>, src: int, m': seq<Cell>, dist: int) {
    forall c {:trigger c in starts} :: c in starts && c < src ==>
      0 <= c - dist < |m'| && 0 <= c < |m| && Shifted(m[c], m'[c - dist], dist)
  }

  lemma NextStart(m: seq<Cell>, starts: set<int>, from: int, to: int, src: int)
    requires Gapless(m, starts, from, to) && src in starts
    ensures forall c :: c in starts && src < c ==> Next(m, src) <= c
  {
  }

  lemma StartFacts(m: seq<Cell>, starts: set<int>, from: int, to: int)
    requires Gapless(m, starts, from, to)
    ensures from < to ==> from in starts
  {
  }

  lemma StartFact(m: seq<Cell>, starts: set<int>, from: int, to: int, c: int)
    requires Gapless(m, starts, from, to) && c in starts
    ensures from <= c < to && to <= |m| && m[c].typ != TBROKEN_HEART && (m[c].typ == TBYTES ==> HasBytes(m[c]))
    ensures c < Next(m, c) <= to && (Next(m, c) < to ==> Next(m, c) in starts)
  {
    if Next(m, c) in starts {
      assert from <= Next(m, c) < to;
    }
  }

  lemma NothingMoved(m: seq<Cell>, starts: set<int>, from: int, to: int, m': seq<Cell>, dist: int)
    requires Gapless(m, starts, from, to)
    ensures MovedBelow(m, starts, from, m', dist)
  {
  }

  lemma MoveOne(m: seq<Cell>, starts: set<int>, from: int, to: int, src: int,
                before: seq<Cell>, after: seq<Cell>, dist: int)
    requires Gapless(m, starts, from, to) && src in starts
    requires |after| == |before| == |m| && 0 <= src - dist < |m|
    requires MovedBelow(m, starts, src, before, dist)
    requires forall k :: 0 <= k < |m| && k != src - dist ==> after[k] == before[k]
    requires Shifted(m[src], after[src - dist], dist)
    ensures MovedBelow(m, starts, Next(m, src), after, dist)
  {
    NextStart(m, starts, from, to, src);
  }

  lemma GaplessEnd(now: seq<Cell>, m: seq<Cell>, starts: set<int>, from: int, to: int)
    requires Gapless(m, starts, from, to)
    ensures forall c :: c in starts ==> c < to
  {
  }

  lemma MovedSpace(x: Space, starts: set<int>, to: int, m': seq<Cell>, dist: int)
    requires MovedBelow(x.m, starts, to, m', dist)
    requires x.org.Keys <= starts && forall c :: c in starts ==> c < to
    ensures Moved(x, m', dist)
  {
  }

  /** A later forwarding map agrees with an earlier one. */
  ghost predicate Grows(f: map<int, int>, g: map<int, int>) {
    forall p :: p in f ==> p in g && g[p] == f[p]
  }

  /** The slots in [from, to) are renamed, the others unchanged. */
  ghost predicate Renamed(was: seq<int>, from: int, to: int, now: seq<int>, f: map<int, int>) {
    && |now| == |was|
    && forall i :: 0 <= i < |was| ==>
         if from <= i < to then was[i] in f && now[i] == f[was[i]] else now[i] == was[i]
  }

  lemma NoneRenamed(names: seq<int>, from: int, f: map<int, int>)
    ensures Grows(f, f) && Renamed(names, from, from, names, f)
  {
  }

  lemma RenameOne(was: seq<int>, from: int, to: int, now: seq<int>, f: map<int, int>, n: int, g: map<int, int>)
    requires Renamed(was, from, to, now, f) && 0 <= from <= to < |was| && Grows(f, g)
    requires was[to] in g && g[was[to]] == n
    ensures Renamed(was, from, to + 1, now[to := n], g)
  {
    var next := now[to := n];
    forall i | from <= i < to ensures was[i] in g && next[i] == g[was[i]] {
      var w := was[i];
      assert w in f && now[i] == f[w];
      assert w in g && g[w] == f[w];
    }
  }

  lemma AllReplaced(s: seq<int>, a: int, b: int, c: int, d: int, e: int, f: int, g: int)
    requires |s| == 7 && s[..3] == [a, b, c]
    ensures s[3 := d][4 := e][5 := f][6 := g] == [a, b, c, d, e, f, g]
  {
    assert s[0] == s[..3][0] && s[1] == s[..3][1] && s[2] == s[..3][2];
  }

  lemma GrowsAgain(f: map<int, int>, g: map<int, int>, k: map<int, int>)
    requires Grows(f, g) && Grows(g, k)
    ensures Grows(f, k)
  {
  }

  lemma RenamedGrows(was: seq<int>, from: int, to: int, now: seq<int>, f: map<int, int>, g: map<int, int>)
    requires Renamed(was, from, to, now, f) && Grows(f, g)
    ensures Renamed(was, from, to, now, g)
  {
    forall i | 0 <= i < |was| && from <= i < to ensures was[i] in g && now[i] == g[was[i]] {
      var w := was[i];
      assert w in f && w in g;
    }
  }

  /** The predefined objects in [nil, s) have been copied, in order. */
  ghost predicate InOrder(f: map<int, int>, nil: int, s: int, nlo: int) {
    && f.Keys == Range(nil, s)
    && forall p :: nil <= p < s ==> f[p] == nlo + (p - nil)
  }

  lemma PredefinedFresh(h: Heap, live: set<int>, nil: int, symbolMax: int, f: map<int, int>, s: int, nlo: int)
    requires Predefined(h, nil, symbolMax) && AllIn(nil, symbolMax, live)
    requires InOrder(f, nil, s, nlo) && nil <= s < symbolMax
    ensures s !in f && s in live && 0 <= s < |h.m| && Size(h.m[s]) == 1
  {
    assert s in h.objs;
  }

  lemma InOrderOne(f: map<int, int>, nil: int, s: int, nlo: int, g: map<int, int>)
    requires InOrder(f, nil, s, nlo) && nil <= s && Grows(f, g)
    requires g.Keys == f.Keys + {s} && g[s] == nlo + (s - nil)
    ensures InOrder(g, nil, s + 1, nlo)
  {
    forall p | nil <= p < s ensures g[p] == nlo + (p - nil) {
      assert p in Range(nil, s);
      assert p in f && g[p] == f[p];
    }
    RangeStep(nil, s);
    hide Range;
  }

  lemma RangeStep(nil: int, s: int)
    requires nil <= s
    ensures Range(nil, s) + {s} == Range(nil, s + 1)
  {
  }

  /** All roots: the predefined objects, the variables and the live stack. */
  ghost function RootSet(names: seq<int>, slots: seq<int>, sp: int, nil: int, symbolMax: int): set<int> {
    Range(nil, symbolMax) + (set i | 0 <= i < |names| :: names[i]) +
    (set i | 0 <= i < |slots| && sp <= i :: slots[i])
  }

  /** The predefined objects stand one after another at the start of the heap. */
  ghost predicate Predefined(h: Heap, nil: int, symbolMax: int) {
    forall s :: nil <= s < symbolMax ==> s in h.objs && 0 <= s < |h.m| && Size(h.m[s]) == 1
  }

  ghost predicate ValidHeap(h: Heap, names: seq<int>, slots: seq<int>, sp: int, nil: int, symbolMax: int) {
    Wf(h) && RootSet(names, slots, sp, nil, symbolMax) <= h.objs && Predefined(h, nil, symbolMax)
  }

  /** A collection that preserves the heap graph. */
  ghost predicate Preserves(h: Heap, live: set<int>, h': Heap, g: map<int, int>,
                            names: seq<int>, names': seq<int>, slots: seq<int>, slots': seq<int>, sp: int,
                            nil: int, symbolMax: int)
    requires Wf(h) && live <= h.objs
  {
    && Wf(h') && Isomorphic(h, live, h', g)
    && Renamed(names, 0, |names|, names', g)
    && Renamed(slots, sp, |slots|, slots', g)
    && (forall s :: nil <= s < symbolMax ==> s in g && g[s] == s)
    && h'.hi - h'.lo == |Area(h, live)|
    && h'.lo == h.lo && h'.hi <= h.hi
  }

  lemma NamesFollow(h: Heap, live: set<int>, h': Heap, g: map<int, int>, names: seq<int>, names': seq<int>,
                    slots: seq<int>, slots': seq<int>, sp: int, nil: int, symbolMax: int)
    requires Wf(h) && live <= h.objs && |names| == 7
    requires Preserves(h, live, h', g, names, names', slots, slots', sp, nil, symbolMax)
    ensures Renamed(names, 0, 7, names', g)
  {
  }

  ghost predicate AllIn(from: int, to: int, live: set<int>) {
    forall s :: from <= s < to ==> s in live
  }

  ghost predicate ListIn(s: seq<int>, from: int, live: set<int>)
    requires 0 <= from
  {
    forall i :: from <= i < |s| ==> s[i] in live
  }

  /** A slot that is not yet renamed still holds a reachable object. */
  lemma RestUnnamed(was: seq<int>, from: int, to: int, now: seq<int>, f: map<int, int>, live: set<int>)
    requires Renamed(was, from, to, now, f) && 0 <= from <= to < |was| && ListIn(was, from, live)
    ensures |now| == |was| && now[to] == was[to] && now[to] in live
  {
  }

  lemma RootsInLive(h: Heap, names: seq<int>, slots: seq<int>, sp: int, nil: int, symbolMax: int)
    requires Wf(h) && RootSet(names, slots, sp, nil, symbolMax) <= h.objs && 0 <= sp
    ensures AllIn(nil, symbolMax, Live(h, RootSet(names, slots, sp, nil, symbolMax)))
    ensures ListIn(names, 0, Live(h, RootSet(names, slots, sp, nil, symbolMax)))
    ensures ListIn(slots, sp, Live(h, RootSet(names, slots, sp, nil, symbolMax)))
  {
    var roots := RootSet(names, slots, sp, nil, symbolMax);
    RootsLive(h, roots);
    forall i | 0 <= i < |names| ensures names[i] in Live(h, roots) {
      assert names[i] in roots;
    }
    forall i | sp <= i < |slots| ensures slots[i] in Live(h, roots) {
      assert slots[i] in roots;
    }
  }

  lemma RootsCopied(f: map<int, int>, g: map<int, int>, names: seq<int>, names': seq<int>,
                    slots: seq<int>, slots': seq<int>, sp: int, nil: int, symbolMax: int, nlo: int)
    requires InOrder(f, nil, symbolMax, nlo) && Grows(f, g)
    requires Renamed(names, 0, |names|, names', g) && Renamed(slots, sp, |slots|, slots', g)
    ensures RootSet(names, slots, sp, nil, symbolMax) <= g.Keys
    ensures forall s :: nil <= s < symbolMax ==> s in g && g[s] == nlo + (s - nil)
  {
    forall s | nil <= s < symbolMax ensures s in g && g[s] == nlo + (s - nil) {
      assert s in f;
    }
  }

  lemma RenamedFinal(was: seq<int>, from: int, to: int, now: seq<int>, f: map<int, int>, d: int, now': seq<int>)
    requires Renamed(was, from, to, now, f) && |now'| == |now|
    requires forall i :: 0 <= i < |now| ==> now'[i] == if from <= i < to then now[i] - d else now[i]
    ensures Renamed(was, from, to, now', Final(f, d))
  {
    forall i | 0 <= i < |was| && from <= i < to ensures was[i] in f && now'[i] == Final(f, d)[was[i]] {
      var w := was[i];
      assert w in f;
    }
  }

  /** What the collector relies on holds again after a collection. */
  lemma StillValid(h: Heap, live: set<int>, h': Heap, g: map<int, int>,
                   names: seq<int>, names': seq<int>, slots: seq<int>, slots': seq<int>, sp: int,
                   nil: int, symbolMax: int)
    requires ValidHeap(h, names, slots, sp, nil, symbolMax) && live <= h.objs && 0 <= sp
    requires Preserves(h, live, h', g, names, names', slots, slots', sp, nil, symbolMax)
    ensures ValidHeap(h', names', slots', sp, nil, symbolMax)
  {
    hide Wf, Renamed, Predefined, Isomorphic, RootSet;
    IsomorphicObjects(h, live, h', g);
    RenamedIn(names, 0, names', g, h'.objs);
    RenamedIn(slots, sp, slots', g, h'.objs);
    StillPredefined(h, live, h', g, nil, symbolMax);
    RootsAre(h', names', slots', sp, nil, symbolMax);
  }

  lemma RootsAre(h: Heap, names: seq<int>, slots: seq<int>, sp: int, nil: int, symbolMax: int)
    requires ListIn(names, 0, h.objs) && 0 <= sp && ListIn(slots, sp, h.objs) && Predefined(h, nil, symbolMax)
    ensures RootSet(names, slots, sp, nil, symbolMax) <= h.objs
  {
  }

  lemma IsomorphicObjects(h: Heap, live: set<int>, h': Heap, g: map<int, int>)
    requires Wf(h) && Wf(h') && live <= h.objs && Isomorphic(h, live, h', g)
    ensures h'.objs == Image(g)
  {
  }

  lemma RenamedIn(was: seq<int>, from: int, now: seq<int>, g: map<int, int>, objs: set<int>)
    requires Renamed(was, from, |was|, now, g) && objs == Image(g) && 0 <= from
    ensures |now| == |was| && ListIn(now, from, objs)
  {
    forall i | from <= i < |now| ensures now[i] in objs {
      var w := was[i];
      assert w in g && g[w] in Image(g);
    }
  }

  lemma IsomorphicKeys(h: Heap, live: set<int>, h': Heap, g: map<int, int>)
    requires Wf(h) && Wf(h') && live <= h.objs && Isomorphic(h, live, h', g)
    ensures g.Keys == live
  {
  }

  lemma StillPredefined(h: Heap, live: set<int>, h': Heap, g: map<int, int>, nil: int, symbolMax: int)
    requires Wf(h) && Wf(h') && live <= h.objs && Isomorphic(h, live, h', g)
    requires Predefined(h, nil, symbolMax)
    requires forall s :: nil <= s < symbolMax ==> s in g && g[s] == s
    ensures Predefined(h', nil, symbolMax)
  {
    forall s | nil <= s < symbolMax ensures s in h'.objs && 0 <= s < |h'.m| && Size(h'.m[s]) == 1 {
      assert s in h.objs && s in g && g[s] == s;
      SymbolStays(h, live, h', g, s);
    }
  }

  lemma SymbolStays(h: Heap, live: set<int>, h': Heap, g: map<int, int>, s: int)
    requires Wf(h) && Wf(h') && live <= h.objs && Isomorphic(h, live, h', g)
    requires s in h.objs && 0 <= s < |h.m| && Size(h.m[s]) == 1 && s in g && g[s] == s
    ensures s in h'.objs && 0 <= s < |h'.m| && Size(h'.m[s]) == 1
  {
    hide Wf, Isomorphic, Size;
    IsomorphicKeys(h, live, h', g);
    Graph.ObjectAgrees(h, live, h', g, s);
  }

  /** After the move, everything together. */
  lemma Conclude(h: Heap, live: set<int>, nlo: int, x: Space, d: int, h': Heap,
                 names: seq<int>, mid: seq<int>, names': seq<int>,
                 slots: seq<int>, slotsMid: seq<int>, slots': seq<int>,
                 sp: int, nil: int, symbolMax: int)
    requires Wf(h) && live <= h.objs && Done(h, live, nlo, x) && x.f.Keys == live
    requires x.free - nlo == |Area(h, live)| <= h.hi - h.lo
    requires Moved(x, h'.m, d) && |h'.m| == |x.m|
    requires h'.lo == nlo - d == h.lo && h'.hi == x.free - d && nil == h.lo && d >= 0 && h.lo >= 0
    requires h'.objs == Image(Final(x.f, d))
    requires Renamed(names, 0, |names|, mid, x.f) && Renamed(slots, sp, |slots|, slotsMid, x.f)
    requires |names'| == |mid| && forall i :: 0 <= i < |mid| ==> names'[i] == mid[i] - d
    requires |slots'| == |slotsMid| &&
      forall i :: 0 <= i < |slotsMid| ==> slots'[i] == if sp <= i < |slots| then slotsMid[i] - d else slotsMid[i]
    requires forall s :: nil <= s < symbolMax ==> s in x.f && x.f[s] == nlo + (s - nil)
    ensures Preserves(h, live, h', Final(x.f, d), names, names', slots, slots', sp, nil, symbolMax)
  {
    RenamedFinal(names, 0, |names|, mid, x.f, d, names');
    RenamedFinal(slots, sp, |slots|, slotsMid, x.f, d, slots');
    MovedHeap(h, live, nlo, x, d, h');
    hide Done;
    hide Renamed;
    hide Isomorphic;
    hide Wf;
  }

  lemma PushedValid(h: Heap, names: seq<int>, slots: seq<int>, frame: seq<int>, sp: int,
                    nil: int, symbolMax: int)
    requires ValidHeap(h, names, slots, sp, nil, symbolMax) && nil + 1 < symbolMax
    requires |frame| == FRAME_SIZE <= sp <= |slots|
    requires forall i :: 0 <= i < FRAME_SIZE - 1 ==> frame[i] in h.objs
    requires frame[FRAME_SIZE - 1] == nil + 1
    ensures Wf(h)
    ensures ValidHeap(h, names, slots[..sp - FRAME_SIZE] + frame + slots[sp..], sp - FRAME_SIZE, nil, symbolMax)
  {
    hide Wf;
    hide Predefined;
    var pushed := slots[..sp - FRAME_SIZE] + frame + slots[sp..];
    RootsIn(names, slots, sp, nil, symbolMax, h.objs);
    assert nil + 1 in h.objs;
    forall i | sp - FRAME_SIZE <= i < |pushed| ensures pushed[i] in h.objs {
      if i < sp {
        assert pushed[i] == frame[i - (sp - FRAME_SIZE)];
      } else {
        assert pushed[i] == slots[i];
      }
    }
  }

  lemma RootsIn(names: seq<int>, slots: seq<int>, sp: int, nil: int, symbolMax: int, objs: set<int>)
    requires RootSet(names, slots, sp, nil, symbolMax) <= objs && 0 <= sp
    ensures forall i :: 0 <= i < |names| ==> names[i] in objs
    ensures forall i :: sp <= i < |slots| ==> slots[i] in objs
    ensures forall s :: nil <= s < symbolMax ==> s in objs
  {
    var roots := RootSet(names, slots, sp, nil, symbolMax);
    forall i | 0 <= i < |names| ensures names[i] in objs {
      assert names[i] in roots;
    }
    forall i | sp <= i < |slots| ensures slots[i] in objs {
      assert slots[i] in roots;
    }
    assert Range(nil, symbolMax) <= roots;
  }

  lemma PushedRoots(h: Heap, names: seq<int>, slots: seq<int>, frame: seq<int>, sp: int,
                    nil: int, symbolMax: int)
    requires ValidHeap(h, names, slots, sp, nil, symbolMax) && nil + 1 < symbolMax
    requires |frame| == FRAME_SIZE <= sp <= |slots|
    requires forall i :: 0 <= i < FRAME_SIZE - 1 ==> frame[i] in h.objs
    requires frame[FRAME_SIZE - 1] == nil + 1
    ensures Wf(h)
    ensures RootSet(names, slots[..sp - FRAME_SIZE] + frame + slots[sp..], sp - FRAME_SIZE, nil, symbolMax) <= h.objs
  {
    PushedValid(h, names, slots, frame, sp, nil, symbolMax);
  }

  /** The registers as they were pushed: four of them, and no procedure. */
  ghost predicate FrameAt(slots: seq<int>, sp: int, regs: seq<int>, nil: int) {
    && 0 <= sp && sp + FRAME_SIZE <= |slots| && |regs| == 4
    && slots[sp..sp + 4] == regs && slots[sp + 4] == nil + 1
  }

  lemma FiveSlots(s: seq<int>, i: nat)
    requires i + FRAME_SIZE <= |s|
    ensures s == s[..i] + [s[i], s[i + 1], s[i + 2], s[i + 3], s[i + 4]] + s[i + FRAME_SIZE..]
  {
  }

  lemma PoppedValid(h: Heap, names: seq<int>, slots: seq<int>, sp: int, nil: int, symbolMax: int)
    requires 0 <= sp && sp + FRAME_SIZE <= |slots|
    requires ValidHeap(h, names, slots, sp, nil, symbolMax)
    ensures ValidHeap(h, names, slots, sp + FRAME_SIZE, nil, symbolMax)
    ensures forall i :: sp <= i < sp + FRAME_SIZE ==> slots[i] in h.objs
  {
    var roots := RootSet(names, slots, sp, nil, symbolMax);
    forall i | sp <= i < |slots| ensures slots[i] in h.objs {
      assert slots[i] in roots;
    }
    forall i | 0 <= i < |names| ensures names[i] in h.objs {
      assert names[i] in roots;
    }
    assert Range(nil, symbolMax) <= roots;
  }

  lemma RegistersFollow(h: Heap, live: set<int>, h': Heap, g: map<int, int>,
                        names: seq<int>, names': seq<int>, slots: seq<int>, slots': seq<int>,
                        regs: seq<int>, sp: int, nil: int, symbolMax: int)
    requires Wf(h) && live <= h.objs && |regs| == 4 && 0 <= sp && sp + 4 <= |slots|
    requires Preserves(h, live, h', g, names, names', slots, slots', sp, nil, symbolMax)
    requires slots[sp..sp + 4] == regs
    requires nil + 1 < symbolMax && sp + 4 < |slots| && slots[sp + 4] == nil + 1
    ensures |slots'| == |slots| && slots'[sp + 4] == nil + 1
    ensures Renamed(regs, 0, 4, [slots'[sp], slots'[sp + 1], slots'[sp + 2], slots'[sp + 3]], g)
  {
    assert g[nil + 1] == nil + 1;
    forall i | 0 <= i < 4 ensures regs[i] in g && slots'[sp + i] == g[regs[i]] {
      assert regs[i] == slots[sp..sp + 4][i];
      var w := slots[sp + i];
      assert w in g;
    }
  }

  lemma RootsFollow(h: Heap, live: set<int>, h': Heap, g: map<int, int>,
                    names: seq<int>, names': seq<int>, slots: seq<int>, slots': seq<int>,
                    sp: int, nil: int, symbolMax: int, r: int)
    requires Wf(h) && live <= h.objs && 0 <= sp
    requires Preserves(h, live, h', g, names, names', slots, slots', sp, nil, symbolMax)
    requires r in RootSet(names, slots, sp, nil, symbolMax)
    ensures r in g && g[r] in RootSet(names', slots', sp, nil, symbolMax)
  {
    if nil <= r < symbolMax {
      assert g[r] == r;
    } else if i :| 0 <= i < |names| && names[i] == r {
      assert names'[i] == g[r];
    } else {
      var i :| 0 <= i < |slots| && sp <= i && slots[i] == r;
      assert slots'[i] == g[r];
    }
  }

  /** After a collection nothing is garbage and no cell is lost: another one
      straight away would free nothing. */
  lemma NothingToFree(h: Heap, live: set<int>, h': Heap, g: map<int, int>,
                      names: seq<int>, names': seq<int>, slots: seq<int>, slots': seq<int>,
                      sp: int, nil: int, symbolMax: int)
    requires Wf(h) && 0 <= sp && RootSet(names, slots, sp, nil, symbolMax) <= h.objs
    requires live == Live(h, RootSet(names, slots, sp, nil, symbolMax))
    requires Preserves(h, live, h', g, names, names', slots, slots', sp, nil, symbolMax)
    ensures Live(h', RootSet(names', slots', sp, nil, symbolMax)) == h'.objs
    ensures |Area(h', h'.objs)| == h'.hi - h'.lo == |Area(h, live)|
  {
    var roots := RootSet(names, slots, sp, nil, symbolMax);
    var roots' := RootSet(names', slots', sp, nil, symbolMax);
    forall r | r in roots && r in g ensures g[r] in roots' {
      RootsFollow(h, live, h', g, names, names', slots, slots', sp, nil, symbolMax, r);
    }
    Graph.CopyIsLive(h, roots, h', g, roots');
    Graph.AreaAgrees(h, live, h', g, live);
    assert (set o | o in live :: g[o]) == Image(g) == h'.objs;
  }

  lemma SameRoom(h: Heap, live: set<int>, h': Heap, g: map<int, int>,
                 names: seq<int>, names': seq<int>, slots: seq<int>, slots': seq<int>,
                 sp: int, nil: int, symbolMax: int)
    requires Wf(h) && 0 <= sp && RootSet(names, slots, sp, nil, symbolMax) <= h.objs
    requires live == Live(h, RootSet(names, slots, sp, nil, symbolMax))
    requires Preserves(h, live, h', g, names, names', slots, slots', sp, nil, symbolMax)
    ensures Wf(h')
    ensures |Area(h', Live(h', RootSet(names', slots', sp, nil, symbolMax)))| == |Area(h, live)|
    ensures h'.hi - h'.lo == |Area(h, live)| && h'.lo == h.lo && h'.hi <= h.hi
  {
    NothingToFree(h, live, h', g, names, names', slots, slots', sp, nil, symbolMax);
  }

  class Collector {
    /** The arena, and where in it the heap begins and ends. */
    var cells: array<Cell>
    var base: int
    var free: int
    var news: int
    var arena: int
    /** The predefined objects lie in [nil, symbolMax). */
    var nil: int
    var symbolMax: int
    /** The stack grows down from the end of the array to `sp`. */
    var stack: array<int>
    var sp: int
    var r0: int
    var r1: int
    var r2: int
    var r3: int
    var m0: int
    var m1: int
    var symbols: int
    var macros: int
    var ports: int
    var hashTableType: int
    var variableType: int
    ghost var objs: set<int>

    /** Copies one object into the new space, unless that has been done. */
    method Copy(o: int) returns (n: int)
      requires CanCopy(cells[..], free, o)
      modifies cells, `free
      ensures Evacuated(old(cells[..]), old(free), o, cells[..], free, n)
    {
      if cells[o].typ == TBROKEN_HEART {
        return cells[o].car;
      }
      ghost var m := cells[..];
      n := free;
      free := free + 1;
      cells[n] := cells[n].(typ := cells[o].typ, car := cells[o].car, cdr := cells[o].cdr);
      CopyRest(n, o, m);
      cells[o] := cells[o].(typ := TBROKEN_HEART);
      cells[o] := cells[o].(car := n);
      HeartLeft(m, n, o, cells[..], free);
    }

    /** What belongs to a cell: the run of a vector or struct, the bytes of a
        byte block. */
    method CopyRest(n: int, o: int, ghost m: seq<Cell>)
      requires CanCopy(m, n, o) && m[o].typ != TBROKEN_HEART && free == n + 1 && |m| == cells.Length
      requires forall k {:trigger cells[k]} :: 0 <= k < cells.Length && k != n ==> cells[k] == m[k]
      requires cells[n] == m[n].(typ := m[o].typ, car := m[o].car, cdr := m[o].cdr)
      modifies cells, `free
      ensures free == n + Size(m[o]) && HeaderCopied(m, n, o, cells[..])
      ensures IsBlock(m[o].typ) ==> RunCopied(m, n, m[o].cdr, cells[..], free)
      ensures forall k {:trigger cells[k]} :: 0 <= k < cells.Length && !(n <= k < free) ==> cells[k] == m[k]
    {
      if cells[n].typ == TSTRUCT || cells[n].typ == TVECTOR {
        cells[n] := cells[n].(cdr := free);
        ghost var mid := cells[..];
        CopyRun(cells[o].cdr, cells[o].car);
        SameRun(m, mid, n, o, cells[..], free);
      } else if cells[n].typ == TBYTES {
        var length := cells[n].car;
        CopyBytes(n, o, length);
        free := free + (BytesCells(length) - 1);
      }
    }

    /** Appends copies of `n` consecutive cells. */
    method CopyRun(from: int, n: int)
      requires 0 <= from && from + n <= free && 0 <= free && free + n <= cells.Length
      modifies cells, `free
      ensures free == old(free) + if n < 0 then 0 else n
      ensures forall k {:trigger cells[k]} :: 0 <= k < cells.Length && !(old(free) <= k < free) ==>
        cells[k] == old(cells[k])
      ensures forall k {:trigger cells[k]} :: old(free) <= k < free ==>
        SameWords(cells[k], old(cells[..])[from + (k - old(free))])
    {
      var i := 0;
      while i < n
        invariant 0 <= i && (i == 0 || i <= n) && free == old(free) + i
        invariant forall k {:trigger cells[k]} :: 0 <= k < cells.Length && !(old(free) <= k < free) ==>
          cells[k] == old(cells[k])
        invariant forall k {:trigger cells[k]} :: old(free) <= k < free ==>
          SameWords(cells[k], old(cells[..])[from + (k - old(free))])
      {
        var e := cells[from + i];
        cells[free] := cells[free].(typ := e.typ, car := e.car, cdr := e.cdr);
        free := free + 1;
        i := i + 1;
      }
    }

    /** Copies the first `length` bytes of block `from` over those of block `to`. */
    method CopyBytes(to: int, from: int, length: nat)
      requires 0 <= to < cells.Length && 0 <= from < cells.Length
      requires length <= |cells[from].payload|
      modifies cells
      ensures cells[..] == old(cells[..])[to := cells[to]]
      ensures cells[to] == old(cells[to]).(payload := cells[to].payload)
      ensures length <= |cells[to].payload| && cells[to].payload[..length] == old(cells[from].payload[..length])
    {
      var rest := if length <= |cells[to].payload| then cells[to].payload[length..] else [];
      cells[to] := cells[to].(payload := cells[from].payload[..length] + rest);
    }

    /** Brings every copied object up to date, copying what it points at. */
    method Scan(start: int, ghost h: Heap, ghost live: set<int>, ghost x0: Space)
      returns (ghost x: Space)
      requires Running(h, live, start, x0) && x0.m == cells[..]
      requires x0.free == free && x0.scan == start && !x0.half
      modifies cells, `free
      ensures Running(h, live, start, x) && x.m == cells[..]
      ensures x.free == free && x.scan == free && !x.half
      ensures Grows(x0.f, x.f)
    {
      x := x0;
      var scan := start;
      while scan < free
        invariant Running(h, live, start, x) && x.m == cells[..]
        invariant x.free == free && x.scan == scan && !x.half
        invariant Grows(x0.f, x.f)
        decreases cells.Length - scan
      {
        scan, x := ScanCell(scan, h, live, start, x);
      }
    }

    /** Brings one cell up to date; tells where the next one is. */
    method ScanCell(scan: int, ghost h: Heap, ghost live: set<int>, ghost nlo: int, ghost x0: Space)
      returns (next: int, ghost x: Space)
      requires Running(h, live, nlo, x0) && x0.m == cells[..]
      requires x0.free == free && x0.scan == scan < free && !x0.half
      modifies cells, `free
      ensures Running(h, live, nlo, x) && x.m == cells[..]
      ensures x.free == free && x.scan == next && !x.half && scan < next
      ensures Grows(x0.f, x.f)
    {
      hide Running;
      x := UpdateCar(scan, h, live, nlo, x0);
      x := UpdateCdr(scan, h, live, nlo, x);
      if cells[scan].typ == TBYTES {
        next := scan + BytesCells(cells[scan].car);
      } else {
        next := scan + 1;
      }
    }

    /** Makes sure that a reachable object has its copy. */
    method CopyLive(o: int, ghost h: Heap, ghost live: set<int>, ghost nlo: int, ghost x: Space)
      returns (n: int, ghost y: Space)
      requires Running(h, live, nlo, x) && x.m == cells[..] && x.free == free
      requires o in live
      modifies cells, `free
      ensures Running(h, live, nlo, y) && y.m == cells[..] && y.free == free
      ensures y.scan == x.scan && y.half == x.half
      ensures y.f.Keys == x.f.Keys + {o} && y.f[o] == n && Grows(x.f, y.f)
      ensures o !in x.f && 0 <= o < |h.m| ==> n == x.free && free == x.free + Size(h.m[o])
      ensures KeepsCopies(x, y)
    {
      hide Running, Size, CanCopy;
      Copyable(h, live, nlo, x, o);
      n := Copy(o);
      y := CopyStep(h, live, nlo, x, o, cells[..], free, n);
    }

    method UpdateCar(scan: int, ghost h: Heap, ghost live: set<int>, ghost nlo: int, ghost x: Space)
      returns (ghost y: Space)
      requires Running(h, live, nlo, x) && x.m == cells[..]
      requires x.free == free && x.scan == scan < free && !x.half
      modifies cells, `free
      ensures Running(h, live, nlo, y) && y.m == cells[..]
      ensures y.free == free && y.scan == scan < free && y.half
      ensures Grows(x.f, y.f)
    {
      hide Running, Grows;
      ScanRefs(h, live, nlo, x);
      GrowsSelf(x.f);
      var t := cells[scan].typ;
      if t == TMACRO || t == TPAIR || t == TREF || t == TBINDING {
        var n;
        ghost var z;
        n, z := CopyLive(cells[scan].car, h, live, nlo, x);
        CopyKept(x, z, scan);
        cells[scan] := cells[scan].(car := n);
        y := CarDone(h, live, nlo, z, cells[..]);
      } else {
        y := CarDone(h, live, nlo, x, x.m);
      }
    }

    method UpdateCdr(scan: int, ghost h: Heap, ghost live: set<int>, ghost nlo: int, ghost x: Space)
      returns (ghost y: Space)
      requires Running(h, live, nlo, x) && x.m == cells[..]
      requires x.free == free && x.scan == scan < free && x.half
      modifies cells, `free
      ensures Running(h, live, nlo, y) && y.m == cells[..]
      ensures y.free == free && y.scan == scan + Step(cells[scan]) && !y.half
      ensures 0 <= scan < cells.Length && (cells[scan].typ == TBYTES ==> HasBytes(cells[scan]))
      ensures Grows(x.f, y.f)
    {
      hide Running, Grows;
      ScanRefs(h, live, nlo, x);
      GrowsSelf(x.f);
      var t := cells[scan].typ;
      if || t == TCLOSURE || t == TCONTINUATION || t == TKEYWORD || t == TMACRO
         || t == TPAIR || t == TPORT || t == TSPECIAL || t == TSTRING
         || t == TSYMBOL || t == TVALUES {
        var n;
        ghost var z;
        n, z := CopyLive(cells[scan].cdr, h, live, nlo, x);
        CopyKept(x, z, scan);
        cells[scan] := cells[scan].(cdr := n);
        y := CdrDone(h, live, nlo, z, cells[..]);
      } else {
        y := CdrDone(h, live, nlo, x, x.m);
      }
    }

    /** Moves `n0` cells down from `src0` to `dest0`, lowering the addresses in
        them by the distance. */
    method CopyBack(dest0: int, src0: int, n0: int, ghost starts: set<int>)
      requires 0 <= dest0 && 0 <= n0 && dest0 + n0 <= src0 && src0 + n0 <= cells.Length
      requires Gapless(cells[..], starts, src0, src0 + n0)
      modifies cells
      ensures MovedBelow(old(cells[..]), starts, src0 + n0, cells[..], src0 - dest0)
      ensures forall k {:trigger cells[k]} :: 0 <= k < cells.Length && !(dest0 <= k < dest0 + n0) ==>
        cells[k] == old(cells[k])
    {
      hide Gapless, MovedBelow, Shifted, HasBytes;
      ghost var m := cells[..];
      var dest, src, n := dest0, src0, n0;
      StartFacts(m, starts, src0, src0 + n0);
      NothingMoved(m, starts, src0, src0 + n0, m, src0 - dest0);
      while n != 0
        invariant src - dest == src0 - dest0 && src0 <= src && 0 <= n && src + n == src0 + n0
        invariant n != 0 ==> src in starts
        invariant forall k {:trigger cells[k]} :: 0 <= k < cells.Length && !(dest0 <= k < dest) ==>
          cells[k] == m[k]
        invariant MovedBelow(m, starts, src, cells[..], src0 - dest0)
        decreases n
      {
        ghost var before := cells[..];
        StartFact(m, starts, src0, src0 + n0, src);
        assert cells[src] == m[src];
        CopyBackCell(dest, src);
        MoveOne(m, starts, src0, src0 + n0, src, before, cells[..], src0 - dest0);
        var t := cells[src].typ;
        if t == TBYTES {
          n := n - BytesCells(cells[src].car);
          dest := dest + BytesCells(cells[src].car);
          src := src + BytesCells(cells[src].car);
        } else {
          n := n - 1;
          dest := dest + 1;
          src := src + 1;
        }
      }
    }

    method CopyBackCell(dest: int, src: int)
      requires 0 <= dest < src < cells.Length
      requires cells[src].typ != TBROKEN_HEART && (cells[src].typ == TBYTES ==> HasBytes(cells[src]))
      modifies cells
      ensures forall k {:trigger cells[k]} :: 0 <= k < cells.Length && k != dest ==> cells[k] == old(cells[k])
      ensures Shifted(cells[src], cells[dest], src - dest)
    {
      var dist := src - dest;
      var t, a, d := cells[src].typ, cells[src].car, cells[src].cdr;
      assert t != TBROKEN_HEART;
      var car, cdr := a, d;
      if t == TMACRO || t == TPAIR || t == TREF || t == TBINDING {
        car := a - dist;
      }
      if || t == TBYTES || t == TCLOSURE || t == TCONTINUATION || t == TKEYWORD || t == TMACRO
         || t == TPAIR || t == TPORT || t == TSPECIAL || t == TSTRING || t == TSTRUCT
         || t == TSYMBOL || t == TVALUES || t == TVECTOR {
        cdr := d - dist;
      }
      cells[dest] := cells[dest].(typ := t, car := car, cdr := cdr);
      if t == TBYTES {
        CopyBytes(dest, src, a);
      }
    }

    ghost function CurrentHeap(): Heap
      reads `cells, `objs, `base, `free, cells
    {
      Heap(cells[..], objs, base + 1, free)
    }

    /** The addresses the collection starts from. */
    ghost function Roots(): set<int>
      reads this, stack
    {
      RootSet(Named(), stack[..], sp, nil, symbolMax)
    }

    ghost predicate Valid()
      reads this, cells, stack
    {
      && 1 <= base < free <= cells.Length
      && 0 <= sp <= stack.Length && nil == base + 1 <= symbolMax
      && ValidHeap(CurrentHeap(), Named(), stack[..], sp, nil, symbolMax)
    }

    /** The roots that are held in variables. */
    ghost function Named(): (names: seq<int>)
      reads `symbols, `macros, `ports, `hashTableType, `variableType, `m0, `m1
      ensures |names| == 7
    {
      [symbols, macros, ports, hashTableType, variableType, m0, m1]
    }

    /** Moves the new space back to the base, and the roots with it. */
    method FlipSpaces(ghost x: Space, ghost starts: set<int>)
      requires 1 <= base < news <= free <= cells.Length && 0 <= sp <= stack.Length
      requires base + (free - news) <= news
      requires x.m == cells[..] && Gapless(cells[..], starts, news, free) && x.org.Keys <= starts
      modifies this`arena, this`free, this`symbols, this`macros, this`ports, this`hashTableType
      modifies this`variableType, this`m0, this`m1, cells, stack
      ensures Moved(x, cells[..], news - base)
      ensures free == old(free) - (news - base)
      ensures forall i :: 0 <= i < 7 ==> Named()[i] == old(Named()[i]) - (news - base)
      ensures forall i :: 0 <= i < stack.Length ==>
        stack[i] == if i < sp then old(stack[i]) else old(stack[i]) - (news - base)
    {
      hide Moved;
      arena := base - 1;
      CopyBack(base, news, free - news, starts);
      var dist := news - base;
      GaplessEnd(cells[..], x.m, starts, news, free);
      hide Gapless;
      MovedSpace(x, starts, free, cells[..], dist);
      hide MovedBelow;
      LowerRoots(dist);
    }

    method LowerRoots(dist: int)
      requires 0 <= sp <= stack.Length
      modifies this`free, this`symbols, this`macros, this`ports, this`hashTableType
      modifies this`variableType, this`m0, this`m1, stack
      ensures free == old(free) - dist
      ensures forall i :: 0 <= i < 7 ==> Named()[i] == old(Named()[i]) - dist
      ensures forall i :: 0 <= i < stack.Length ==>
        stack[i] == if i < sp then old(stack[i]) else old(stack[i]) - dist
    {
      free := free - dist;
      symbols := symbols - dist;
      macros := macros - dist;
      ports := ports - dist;
      hashTableType := hashTableType - dist;
      variableType := variableType - dist;
      m0 := m0 - dist;
      m1 := m1 - dist;
      LowerStack(dist);
    }

    method LowerStack(dist: int)
      requires 0 <= sp <= stack.Length
      modifies stack
      ensures forall i :: 0 <= i < stack.Length ==>
        stack[i] == if i < sp then old(stack[i]) else old(stack[i]) - dist
    {
      var i := sp;
      while i < stack.Length
        invariant sp <= i <= stack.Length
        invariant forall k :: 0 <= k < stack.Length ==>
          stack[k] == if sp <= k < i then old(stack[k]) - dist else old(stack[k])
      {
        stack[i] := stack[i] - dist;
        i := i + 1;
      }
    }

    /** Starts a new space above the heap. */
    method InitNews()
      requires 1 <= base < free && free + 2 <= cells.Length
      modifies cells, `news, `free
      ensures news == old(free) + 1 && free == old(free) + 2
      ensures forall k :: 0 <= k < old(free) ==> cells[k] == old(cells[k])
      ensures cells[news].typ == TCHAR
    {
      news := free;
      var newArena := news;
      var newZero := newArena + 1;
      news := news + 1;
      cells[newArena] := cells[newArena].(typ := TVECTOR, car := cells[base - 1].car, cdr := news);
      cells[newZero] := cells[newZero].(typ := TCHAR, cdr := 'n' as int);
      free := news + 1;
    }

    /** Copies the predefined objects, in order. */
    method CopyPredefined(ghost h: Heap, ghost live: set<int>, ghost nlo: int)
      returns (ghost x: Space)
      requires Running(h, live, nlo, Begin(cells[..], nlo)) && free == nlo
      requires nil <= symbolMax
      requires Predefined(h, nil, symbolMax) && AllIn(nil, symbolMax, live)
      modifies cells, `free
      ensures Running(h, live, nlo, x) && x.m == cells[..] && x.free == free
      ensures x.scan == nlo && !x.half
      ensures InOrder(x.f, nil, symbolMax, nlo)
    {
      hide *;
      x := Begin(cells[..], nlo);
      BeginFacts(cells[..], nlo, nil);
      var s := nil;
      while s < symbolMax
        invariant nil <= s <= symbolMax
        invariant Running(h, live, nlo, x) && x.m == cells[..] && x.free == free
        invariant x.scan == nlo && !x.half && free == nlo + (s - nil)
        invariant InOrder(x.f, nil, s, nlo)
      {
        ghost var f := x.f;
        PredefinedFresh(h, live, nil, symbolMax, f, s, nlo);
        var n;
        n, x := CopyLive(s, h, live, nlo, x);
        InOrderOne(f, nil, s, nlo, x.f);
        s := s + 1;
      }
    }

    /** Copies what the live stack slots hold. */
    method CopyStack(ghost h: Heap, ghost live: set<int>, ghost nlo: int, ghost x0: Space)
      returns (ghost x: Space)
      requires Running(h, live, nlo, x0) && x0.m == cells[..] && x0.free == free
      requires 0 <= sp <= stack.Length && ListIn(stack[..], sp, live)
      modifies cells, `free, stack
      ensures Running(h, live, nlo, x) && x.m == cells[..] && x.free == free
      ensures x.scan == x0.scan && x.half == x0.half
      ensures Grows(x0.f, x.f)
      ensures |stack[..]| == |old(stack[..])| && Renamed(old(stack[..]), sp, stack.Length, stack[..], x.f)
    {
      hide *;
      x := x0;
      var i := sp;
      NoneRenamed(stack[..], sp, x0.f);
      while i < stack.Length
        invariant sp <= i <= stack.Length
        invariant Running(h, live, nlo, x) && x.m == cells[..] && x.free == free
        invariant x.scan == x0.scan && x.half == x0.half
        invariant Grows(x0.f, x.f)
        invariant Renamed(old(stack[..]), sp, i, stack[..], x.f)
      {
        ghost var f, now := x.f, stack[..];
        RestUnnamed(old(stack[..]), sp, i, now, f, live);
        assert stack[i] == now[i];
        var n;
        n, x := CopyLive(stack[i], h, live, nlo, x);
        stack[i] := n;
        RenameOne(old(stack[..]), sp, i, now, f, n, x.f);
        GrowsAgain(x0.f, f, x.f);
        assert stack[..] == now[i := n];
        i := i + 1;
      }
    }

    method CopyNamed(ghost h: Heap, ghost live: set<int>, ghost nlo: int, ghost x0: Space)
      returns (ghost x: Space)
      requires Running(h, live, nlo, x0) && x0.m == cells[..] && x0.free == free
      requires ListIn(Named(), 0, live)
      modifies cells, `free, `symbols, `macros, `ports, `hashTableType, `variableType, `m0, `m1
      ensures Running(h, live, nlo, x) && x.m == cells[..] && x.free == free
      ensures x.scan == x0.scan && x.half == x0.half && Grows(x0.f, x.f)
      ensures Renamed(old(Named()), 0, 7, Named(), x.f)
    {
      ghost var names := Named();
      hide Running;
      assert Grows(x0.f, x0.f) && Renamed(names, 0, 0, names, x0.f) by {
        NoneRenamed(names, 0, x0.f);
      }
      hide Renamed;
      hide Grows;
      ghost var now;
      x, now := CopyTables(names, h, live, nlo, x0);
      x := CopyModules(names, now, h, live, nlo, x0.f, x);
    }

    method CopyTables(ghost names: seq<int>, ghost h: Heap, ghost live: set<int>, ghost nlo: int,
                      ghost x0: Space)
      returns (ghost x: Space, ghost now: seq<int>)
      requires Running(h, live, nlo, x0) && x0.m == cells[..] && x0.free == free
      requires |names| == 7 && [symbols, macros, ports] == names[..3]
      requires ListIn(names, 0, live)
      requires Renamed(names, 0, 0, names, x0.f) && Grows(x0.f, x0.f)
      modifies cells, `free, `symbols, `macros, `ports
      ensures Running(h, live, nlo, x) && x.m == cells[..] && x.free == free
      ensures x.scan == x0.scan && x.half == x0.half && Grows(x0.f, x.f)
      ensures |now| == 7 && now == [symbols, macros, ports] + names[3..] && Renamed(names, 0, 3, now, x.f)
    {
      hide Running;
      hide Renamed;
      hide Grows;
      assert symbols == names[..3][0] && macros == names[..3][1] && ports == names[..3][2];
      symbols, x, now := CopyName(symbols, 0, names, names, h, live, nlo, x0.f, x0);
      macros, x, now := CopyName(macros, 1, names, now, h, live, nlo, x0.f, x);
      ports, x, now := CopyName(ports, 2, names, now, h, live, nlo, x0.f, x);
    }

    method CopyModules(ghost names: seq<int>, ghost now0: seq<int>, ghost h: Heap, ghost live: set<int>,
                       ghost nlo: int, ghost f0: map<int, int>, ghost x0: Space)
      returns (ghost x: Space)
      requires Running(h, live, nlo, x0) && x0.m == cells[..] && x0.free == free
      requires |names| == |now0| == 7 && names[3..] == [hashTableType, variableType, m0, m1]
      requires now0[..3] == [symbols, macros, ports]
      requires ListIn(names, 0, live)
      requires Renamed(names, 0, 3, now0, x0.f) && Grows(f0, x0.f)
      modifies cells, `free, `hashTableType, `variableType, `m0, `m1
      ensures Running(h, live, nlo, x) && x.m == cells[..] && x.free == free
      ensures x.scan == x0.scan && x.half == x0.half && Grows(f0, x.f)
      ensures Renamed(names, 0, 7, Named(), x.f)
    {
      hide Running;
      hide Renamed;
      hide Grows;
      ghost var tail := names[3..];
      assert hashTableType == tail[0] && variableType == tail[1] && m0 == tail[2] && m1 == tail[3];
      ghost var now;
      hashTableType, x, now := CopyName(hashTableType, 3, names, now0, h, live, nlo, f0, x0);
      variableType, x, now := CopyName(variableType, 4, names, now, h, live, nlo, f0, x);
      m0, x, now := CopyName(m0, 5, names, now, h, live, nlo, f0, x);
      m1, x, now := CopyName(m1, 6, names, now, h, live, nlo, f0, x);
      AllReplaced(now0, symbols, macros, ports, hashTableType, variableType, m0, m1);
    }

    method CopyName(o: int, ghost i: int, ghost names: seq<int>, ghost now: seq<int>,
                    ghost h: Heap, ghost live: set<int>, ghost nlo: int,
                    ghost f0: map<int, int>, ghost x: Space)
      returns (n: int, ghost y: Space, ghost next: seq<int>)
      requires Running(h, live, nlo, x) && x.m == cells[..] && x.free == free
      requires 0 <= i < |names| && names[i] == o && o in live && Renamed(names, 0, i, now, x.f)
      requires Grows(f0, x.f)
      modifies cells, `free
      ensures Running(h, live, nlo, y) && y.m == cells[..] && y.free == free
      ensures y.scan == x.scan && y.half == x.half && Grows(f0, y.f)
      ensures next == now[i := n] && Renamed(names, 0, i + 1, next, y.f)
    {
      n, y := CopyLive(o, h, live, nlo, x);
      next := now[i := n];
      RenameOne(names, 0, i, now, x.f, n, y.f);
    }

    /** A new space with the predefined objects. */
    method BeginCopy(ghost h: Heap, ghost live: set<int>) returns (ghost x: Space)
      requires 1 <= base < free && h.m == cells[..] && h.hi == free && Closed(h, live)
      requires free + 2 + |Area(h, live)| <= cells.Length
      requires nil <= symbolMax
      requires Predefined(h, nil, symbolMax) && AllIn(nil, symbolMax, live)
      modifies cells, `free, `news
      ensures news == old(free) + 1
      ensures Running(h, live, news + 1, x) && x.m == cells[..] && x.free == free
      ensures x.scan == news + 1 && !x.half
      ensures InOrder(x.f, nil, symbolMax, news + 1)
    {
      hide *;
      InitNews();
      assert cells[..][..h.hi] == h.m[..h.hi];
      BeginRuns(h, live, cells[..], news + 1);
      x := CopyPredefined(h, live, news + 1);
    }

    /** The roots that are not predefined. */
    method CopyOthers(ghost h: Heap, ghost live: set<int>, ghost nlo: int, ghost x0: Space)
      returns (ghost x: Space)
      requires Running(h, live, nlo, x0) && x0.m == cells[..] && x0.free == free
      requires 0 <= sp <= stack.Length
      requires ListIn(Named(), 0, live)
      requires ListIn(stack[..], sp, live)
      modifies cells, `free, `symbols, `macros, `ports, `hashTableType, `variableType, `m0, `m1, stack
      ensures Running(h, live, nlo, x) && x.m == cells[..] && x.free == free
      ensures x.scan == x0.scan && x.half == x0.half && Grows(x0.f, x.f)
      ensures Renamed(old(Named()), 0, 7, Named(), x.f)
      ensures |stack[..]| == |old(stack[..])| && Renamed(old(stack[..]), sp, stack.Length, stack[..], x.f)
    {
      hide *;
      ghost var names, slots := Named(), stack[..];
      x := CopyNamed(h, live, nlo, x0);
      ghost var f, named := x.f, Named();
      assert stack[..] == slots;
      x := CopyStack(h, live, nlo, x);
      GrowsAgain(x0.f, f, x.f);
      RenamedGrows(names, 0, 7, named, f, x.f);
    }

    /** Copies the roots into a new space. */
    method CopyRoots(ghost h: Heap, ghost live: set<int>) returns (ghost f: map<int, int>, ghost x: Space)
      requires 1 <= base < free && h.m == cells[..] && h.hi == free && Closed(h, live)
      requires free + 2 + |Area(h, live)| <= cells.Length
      requires nil <= symbolMax && 0 <= sp <= stack.Length
      requires Predefined(h, nil, symbolMax) && AllIn(nil, symbolMax, live)
      requires ListIn(Named(), 0, live)
      requires ListIn(stack[..], sp, live)
      modifies cells, `free, `news, `symbols, `macros, `ports, `hashTableType, `variableType, `m0, `m1, stack
      ensures news == old(free) + 1
      ensures x.m == cells[..] && x.free == free && Running(h, live, news + 1, x)
      ensures x.scan == news + 1 && !x.half
      ensures InOrder(f, nil, symbolMax, news + 1) && Grows(f, x.f)
      ensures Renamed(old(Named()), 0, 7, Named(), x.f)
      ensures |stack[..]| == |old(stack[..])| && Renamed(old(stack[..]), sp, stack.Length, stack[..], x.f)
    {
      hide *;
      x := BeginCopy(h, live);
      f := x.f;
      assert forall i :: 0 <= i < stack.Length ==> stack[i] == old(stack[i]);
      x := CopyOthers(h, live, news + 1, x);
    }

    /** Copies everything reachable into a new space. */
    method CopyReached(ghost h: Heap, ghost live: set<int>) returns (ghost x: Space)
      requires 1 <= base < free && h.m == cells[..] && h.hi == free && Closed(h, live)
      requires free + 2 + |Area(h, live)| <= cells.Length
      requires nil <= symbolMax && 0 <= sp <= stack.Length
      requires Predefined(h, nil, symbolMax) && AllIn(nil, symbolMax, live)
      requires ListIn(Named(), 0, live)
      requires ListIn(stack[..], sp, live)
      modifies cells, `free, `news, `symbols, `macros, `ports, `hashTableType, `variableType, `m0, `m1, stack
      ensures news == old(free) + 1
      ensures x.m == cells[..] && x.free == free
      ensures Running(h, live, news + 1, x) && x.scan == x.free && !x.half
      ensures Renamed(old(Named()), 0, 7, Named(), x.f)
      ensures |stack[..]| == |old(stack[..])| && Renamed(old(stack[..]), sp, stack.Length, stack[..], x.f)
      ensures RootSet(old(Named()), old(stack[..]), sp, nil, symbolMax) <= x.f.Keys
      ensures forall s :: nil <= s < symbolMax ==> s in x.f && x.f[s] == news + 1 + (s - nil)
    {
      hide *;
      ghost var names, slots := Named(), stack[..];
      ghost var f;
      f, x := CopyRoots(h, live);
      ghost var g, names', slots' := x.f, Named(), stack[..];
      x := Scan(news + 1, h, live, x);
      RenamedGrows(names, 0, 7, names', g, x.f);
      RenamedGrows(slots, sp, stack.Length, slots', g, x.f);
      GrowsAgain(f, g, x.f);
      RootsCopied(f, x.f, names, names', slots, slots', sp, nil, symbolMax, news + 1);
    }

    /** Copies everything reachable and moves it back. */
    method CopyAndFlip(ghost h: Heap, ghost roots: set<int>, ghost live: set<int>)
      returns (ghost h': Heap, ghost g: map<int, int>)
      requires 1 <= base < free && h.m == cells[..] && h.hi == free && Closed(h, live) && Wf(h) && live <= h.objs
      requires roots == RootSet(Named(), stack[..], sp, nil, symbolMax) && live == Live(h, roots)
      requires h.lo == nil == base + 1 && h.hi == free && |h.m| == cells.Length
      requires free + 2 + |Area(h, live)| <= cells.Length
      requires nil <= symbolMax && 0 <= sp <= stack.Length
      requires Predefined(h, nil, symbolMax) && AllIn(nil, symbolMax, live)
      requires ListIn(Named(), 0, live)
      requires ListIn(stack[..], sp, live)
      modifies this`arena, cells, `free, `news, stack
      modifies this`symbols, `macros, `ports, `hashTableType, `variableType, `m0, `m1
      ensures h'.m == cells[..] && h'.lo == nil && h'.hi == free <= old(free)
      ensures base < free && free == base + 1 + |Area(h, live)|
      ensures Preserves(h, live, h', g, old(Named()), Named(), old(stack[..]), stack[..], sp, nil, symbolMax)
    {
      hide *;
      ghost var names, slots := Named(), stack[..];
      ghost var x := CopyReached(h, live);
      ghost var mid, slotsMid := Named(), stack[..];
      RunningKeys(h, live, news + 1, x);
      ScanFinal(h, roots, live, news + 1, x);
      ScanGapless(h, live, news + 1, x);
      FlipSpaces(x, x.org.Keys + {news});
      g := Final(x.f, news - base);
      h' := Heap(cells[..], Image(g), nil, free);
      Conclude(h, live, news + 1, x, news - base, h', names, mid, Named(), slots, slotsMid, stack[..],
               sp, nil, symbolMax);
    }

    method PrepareAndFlip(ghost h: Heap, ghost roots: set<int>, ghost live: set<int>)
      returns (ghost h': Heap, ghost g: map<int, int>)
      requires 1 <= base < free <= cells.Length && h == Heap(cells[..], objs, nil, free)
      requires ValidHeap(h, Named(), stack[..], sp, nil, symbolMax)
      requires roots == RootSet(Named(), stack[..], sp, nil, symbolMax) && live == Live(h, roots)
      requires free + 2 + |Area(h, live)| <= cells.Length
      requires nil == base + 1 <= symbolMax && 0 <= sp <= stack.Length
      modifies this`arena, cells, `free, `news, stack
      modifies this`symbols, `macros, `ports, `hashTableType, `variableType, `m0, `m1
      ensures h'.m == cells[..] && h'.lo == nil && h'.hi == free <= old(free) && base < free
      ensures live <= h.objs
      ensures Preserves(h, live, h', g, old(Named()), Named(), old(stack[..]), stack[..], sp, nil, symbolMax)
    {
      ghost var names, slots := Named(), stack[..];
      LiveIsClosed(h, roots);
      RootsInLive(h, names, slots, sp, nil, symbolMax);
      hide *;
      h', g := CopyAndFlip(h, roots, live);
    }

    /** The objects in use. */
    ghost function InUse(): set<int>
      reads this, cells, stack
      requires Valid()
    {
      Live(CurrentHeap(), Roots())
    }

    /** A collection, with the registers on the stack.  Returns where each
        reachable object has gone. */
    method Collect() returns (ghost g: map<int, int>)
      requires Valid()
      requires free + 2 + |Area(CurrentHeap(), InUse())| <= cells.Length
      modifies this`objs, this`arena, cells, `free, `news, `symbols, `macros, `ports, `hashTableType
      modifies `variableType, `m0, `m1, stack
      ensures Valid()
      ensures Preserves(old(CurrentHeap()), old(InUse()), CurrentHeap(), g,
                        old(Named()), Named(), old(stack[..]), stack[..], sp, nil, symbolMax)
    {
      hide ValidHeap;
      hide Wf;
      hide Preserves;
      hide Live;
      ghost var h, roots, live := CurrentHeap(), Roots(), InUse();
      ghost var names, slots := Named(), stack[..];
      ghost var h';
      h', g := PrepareAndFlip(h, roots, live);
      objs := h'.objs;
      assert CurrentHeap() == h';
      StillValid(h, live, h', g, names, Named(), slots, stack[..], sp, nil, symbolMax);
    }

    /** The second predefined object, `#f`. */
    function False(): int
      reads `nil
    {
      nil + 1
    }

    method PushFrame()
      requires FRAME_SIZE <= sp <= stack.Length
      modifies stack, `sp
      ensures sp == old(sp) - FRAME_SIZE
      ensures stack[..] == old(stack[..sp - FRAME_SIZE]) + [r3, r2, r1, r0, False()] + old(stack[sp..])
    {
      stack[sp - 1] := False();
      stack[sp - 2] := r0;
      stack[sp - 3] := r1;
      stack[sp - 4] := r2;
      stack[sp - 5] := r3;
      sp := sp - FRAME_SIZE;
    }

    method PopFrame()
      requires 0 <= sp && sp + FRAME_SIZE <= stack.Length
      modifies `sp, `r0, `r1, `r2, `r3
      ensures sp == old(sp) + FRAME_SIZE
      ensures r3 == stack[old(sp)] && r2 == stack[old(sp) + 1]
      ensures r1 == stack[old(sp) + 2] && r0 == stack[old(sp) + 3]
    {
      r3 := stack[sp];
      r2 := stack[sp + 1];
      r1 := stack[sp + 2];
      r0 := stack[sp + 3];
      sp := sp + FRAME_SIZE;
    }

    /** The stack with a frame for the registers on it. */
    ghost function Pushed(): (slots: seq<int>)
      reads `sp, `r0, `r1, `r2, `r3, `nil, `stack, stack
      requires FRAME_SIZE <= sp <= stack.Length
      ensures |slots| == stack.Length && slots[sp - FRAME_SIZE..sp - 1] == [r3, r2, r1, r0]
      ensures slots[sp - 1] == False()
    {
      stack[..sp - FRAME_SIZE] + [r3, r2, r1, r0, False()] + stack[sp..]
    }

    /** The collector can be called: there is room for a frame, and the
        registers hold objects. */
    ghost predicate Ready()
      reads this, cells, stack
    {
      && Valid() && FRAME_SIZE <= sp && nil + 1 < symbolMax
      && r0 in objs && r1 in objs && r2 in objs && r3 in objs
    }

    /** The objects in use, counting the registers. */
    ghost function Reached(): set<int>
      reads this, cells, stack
      requires Ready()
    {
      Live(CurrentHeap(), RootSet(Named(), Pushed(), sp - FRAME_SIZE, nil, symbolMax))
    }

    /** A collection: every object that can be reached is kept, with the graph
        they form; the roots, the stack and the registers follow the objects;
        and the predefined objects stay where they are. */
    method Gc() returns (ghost g: map<int, int>)
      requires Ready()
      requires free + 2 + |Area(CurrentHeap(), Reached())| <= cells.Length
      modifies this, cells, stack
      ensures Ready()
      ensures cells == old(cells) && stack == old(stack) && sp == old(sp)
      ensures base == old(base) && nil == old(nil) && symbolMax == old(symbolMax)
      ensures Preserves(old(CurrentHeap()), old(Reached()), CurrentHeap(), g,
                        old(Named()), Named(), old(Pushed()), stack[..], sp - FRAME_SIZE, nil, symbolMax)
      ensures Renamed(old([symbols, macros, ports, hashTableType, variableType, m0, m1]), 0, 7,
                      [symbols, macros, ports, hashTableType, variableType, m0, m1], g)
      ensures Renamed(old([r3, r2, r1, r0]), 0, 4, [r3, r2, r1, r0], g)
      ensures Pushed() == stack[..]
    {
      hide Wf, Preserves, Renamed, Live, RootSet, Area, Predefined, ValidHeap, FrameAt, Pushed;
      ghost var h, live, slots := CurrentHeap(), Reached(), Pushed();
      ghost var names, regs := Named(), [r3, r2, r1, r0];
      ReadyHeap();
      g := SaveAndCollect(h, live, slots, names);
      Restore(h, live, g, names, slots, regs);
      NamesFollow(h, live, CurrentHeap(), g, names, Named(), slots, stack[..], sp - FRAME_SIZE, nil, symbolMax);
    }

    lemma ReadyHeap()
      requires Ready()
      ensures Wf(CurrentHeap()) && Reached() <= CurrentHeap().objs
      ensures FRAME_SIZE <= sp <= stack.Length && nil + 1 < symbolMax
      ensures FrameAt(Pushed(), sp - FRAME_SIZE, [r3, r2, r1, r0], nil) && |Pushed()| == stack.Length
    {
    }

    /** Takes the registers back from the stack. */
    method Restore(ghost h: Heap, ghost live: set<int>, ghost g: map<int, int>, ghost names: seq<int>,
                   ghost slots: seq<int>, ghost regs: seq<int>)
      requires Valid() && sp + FRAME_SIZE <= stack.Length == |slots| && nil + 1 < symbolMax
      requires Wf(h) && live <= h.objs && FrameAt(slots, sp, regs, nil)
      requires Preserves(h, live, CurrentHeap(), g, names, Named(), slots, stack[..], sp, nil, symbolMax)
      modifies `sp, `r0, `r1, `r2, `r3
      ensures Ready() && sp == old(sp) + FRAME_SIZE && Pushed() == stack[..]
      ensures Preserves(h, live, CurrentHeap(), g, names, Named(), slots, stack[..], sp - FRAME_SIZE, nil, symbolMax)
      ensures Renamed(regs, 0, 4, [r3, r2, r1, r0], g)
    {
      hide ValidHeap, RootSet, Wf, Predefined, Preserves, Renamed;
      RegistersFollow(h, live, CurrentHeap(), g, names, Named(), slots, stack[..], regs, sp, nil, symbolMax);
      PoppedValid(CurrentHeap(), Named(), stack[..], sp, nil, symbolMax);
      FiveSlots(stack[..], sp);
      PopFrame();
    }

    method SaveAndCollect(ghost h: Heap, ghost live: set<int>, ghost slots: seq<int>, ghost names: seq<int>)
      returns (ghost g: map<int, int>)
      requires Ready() && h == CurrentHeap() && live == Reached() && slots == Pushed() && names == Named()
      requires free + 2 + |Area(h, live)| <= cells.Length
      modifies this`objs, this`arena, this`sp, cells, `free, `news, `symbols, `macros, `ports, `hashTableType
      modifies `variableType, `m0, `m1, stack
      ensures Valid() && sp == old(sp) - FRAME_SIZE
      ensures Preserves(h, live, CurrentHeap(), g, names, Named(), slots, stack[..], sp, nil, symbolMax)
    {
      hide Wf;
      hide ValidHeap;
      hide Preserves;
      hide Live;
      hide RootSet;
      hide Area;
      PushedValid(h, names, stack[..], [r3, r2, r1, r0, False()], sp, nil, symbolMax);
      PushFrame();
      assert stack[..] == slots;
      assert cells[..] == h.m;
      assert CurrentHeap() == h && Named() == names;
      g := CollectPushed(h, live, slots, names);
    }

    method CollectPushed(ghost h: Heap, ghost live: set<int>, ghost slots: seq<int>, ghost names: seq<int>)
      returns (ghost g: map<int, int>)
      requires Valid() && h == CurrentHeap() && live == InUse() && slots == stack[..] && names == Named()
      requires Wf(h) && live <= h.objs && free + 2 + |Area(h, live)| <= cells.Length
      modifies this`objs, this`arena, cells, `free, `news, `symbols, `macros, `ports, `hashTableType
      modifies `variableType, `m0, `m1, stack
      ensures Valid()
      ensures Preserves(h, live, CurrentHeap(), g, names, Named(), slots, stack[..], sp, nil, symbolMax)
    {
      hide *;
      g := Collect();
    }

    /** Any number of collections: one amount of room is enough for all of them,
        they all leave the same number of cells in use, and the predefined
        objects never move. */
    method Repeat(n: nat)
      requires Ready()
      requires free + 2 + |Area(CurrentHeap(), Reached())| <= cells.Length
      modifies this, cells, stack
      ensures Ready()
      ensures base == old(base) && nil == old(nil) && symbolMax == old(symbolMax) && sp == old(sp)
      ensures n > 0 ==> free == base + 1 + old(|Area(CurrentHeap(), Reached())|) <= old(free)
    {
      ghost var area, cells0 := |Area(CurrentHeap(), Reached())|, cells;
      var i := 0;
      while i < n
        invariant 0 <= i <= n && Ready() && cells == cells0 && stack == old(stack)
        invariant base == old(base) && nil == old(nil) && symbolMax == old(symbolMax) && sp == old(sp)
        invariant free <= old(free) && (i > 0 ==> free == base + 1 + area)
        invariant |Area(CurrentHeap(), Reached())| == area
      {
        GcOnce();
        i := i + 1;
      }
    }

    /** What one collection means for the room. */
    method GcOnce()
      requires Ready()
      requires free + 2 + |Area(CurrentHeap(), Reached())| <= cells.Length
      modifies this, cells, stack
      ensures Ready() && cells == old(cells) && stack == old(stack) && sp == old(sp)
      ensures base == old(base) && nil == old(nil) && symbolMax == old(symbolMax)
      ensures |Area(CurrentHeap(), Reached())| == old(|Area(CurrentHeap(), Reached())|)
      ensures free == base + 1 + old(|Area(CurrentHeap(), Reached())|) <= old(free)
    {
      hide Wf;
      hide Live;
      hide Area;
      hide RootSet;
      hide Preserves;
      hide Renamed;
      ghost var h, live, names, slots := CurrentHeap(), Reached(), Named(), Pushed();
      PushedRoots(h, names, stack[..], [r3, r2, r1, r0, False()], sp, nil, symbolMax);
      hide ValidHeap;
      ghost var g := Gc();
      SameRoom(h, live, CurrentHeap(), g, names, Named(), slots, Pushed(), sp - FRAME_SIZE, nil, symbolMax);
    }
  }
}
