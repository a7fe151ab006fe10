/** Moving the survivors back to the base of the arena.

    The collector does not change the roles of its two spaces; it moves the
    finished copy down by `d` cells, over the old space, and lowers every
    address in it by the same amount.  The addresses that the interpreter keeps
    in C variables, which no collection updates, are valid again afterwards. */
module Flip {
  import opened Cells
  import opened Cheney

  /** The tags whose second word is an address when cells are moved: also the
      run of a vector or struct. */
  predicate MovesCdr(t: int) {
    TracesCdr(t) || t == TBYTES || IsBlock(t)
  }

  /** Cell `b` is cell `a` moved down by `d`. */
  ghost predicate Shifted(a: Cell, b: Cell, d: int) {
    && b.typ == a.typ
    && b.car == (if TracesCar(a.typ) then a.car - d else a.car)
    && b.cdr == (if MovesCdr(a.typ) then a.cdr - d else a.cdr)
    && (a.typ == TBYTES && HasBytes(a) ==> HasBytes(b) && BlockBytes(b) == BlockBytes(a))
  }

  /** The cells of the new space have all been moved down by `d`. */
  ghost predicate Moved(x: Space, m': seq<Cell>, d: int) {
    forall c :: c in x.org ==>
      0 <= c - d < |m'| && 0 <= c < |x.m| && Shifted(x.m[c], m'[c - d], d)
  }

  /** Where objects end up. */
  ghost function Final(f: map<int, int>, d: int): (g: map<int, int>)
    ensures g.Keys == f.Keys
    ensures forall o :: o in f ==> g[o] == f[o] - d
  {
    map o | o in f :: f[o] - d
  }

  /** A finished scan: everything is copied and up to date. */
  ghost predicate Done(h: Heap, live: set<int>, nlo: int, x: Space) {
    Inv(h, live, nlo, x) && x.scan == x.free && !x.half
  }

  /** The cell that cell `c` of the copy, at `n`, of object `o` is a copy of. */
  function Source(a: Cell, o: int, n: int, c: int): int {
    if c == n then o else a.cdr + (c - n - 1)
  }

  /** The number of cells of an object that are looked at one by one. */
  function Scanned(a: Cell): nat {
    if IsBlock(a.typ) then Size(a) else 1
  }

  /** The copy of object `o` at `n` is complete. */
  ghost predicate Finished(h: Heap, o: int, m: seq<Cell>, n: int, f: map<int, int>) {
    && WfObject(h, o) && 0 <= n && n + Size(h.m[o]) <= |m|
    && forall c :: n <= c < n + Scanned(h.m[o]) ==>
         CellCopied(h.m[Source(h.m[o], o, n, c)], m[c], c, true, true, f)
  }

  /** The copy of object `o` is complete and has been moved. */
  ghost predicate Ready(h: Heap, m: seq<Cell>, f: map<int, int>, o: int, d: int, h': Heap) {
    && o in f && Finished(h, o, m, f[o], f)
    && 0 <= h'.lo <= f[o] - d && f[o] - d + Size(h.m[o]) <= h'.hi <= |h'.m|
    && forall c :: f[o] <= c < f[o] + Scanned(h.m[o]) ==> Shifted(m[c], h'.m[c - d], d)
  }

  lemma Finish(h: Heap, live: set<int>, nlo: int, x: Space, d: int, h': Heap, o: int)
    requires Wf(h) && Done(h, live, nlo, x) && o in x.f
    requires 0 <= d && |h'.m| == |x.m| && h'.lo == nlo - d && h'.hi == x.free - d && 0 <= h'.lo
    requires Moved(x, h'.m, d)
    ensures Ready(h, x.m, x.f, o, d, h')
  {
    assert WfObject(h, o) && PlacedAt(h.m[o], nlo, x, o);
    forall c | x.f[o] <= c < x.f[o] + Scanned(h.m[o])
      ensures c in x.org && CellCopied(h.m[Source(h.m[o], o, x.f[o], c)], x.m[c], c, true, true, x.f)
      ensures Shifted(x.m[c], h'.m[c - d], d)
    {
    }
  }

  lemma MovedCell(a: Cell, b: Cell, b': Cell, c: int, f: map<int, int>, d: int, objs: set<int>)
    requires CellCopied(a, b, c, true, true, f) && Shifted(b, b', d)
    requires 0 <= a.typ < TBROKEN_HEART && (a.typ == TBYTES ==> HasBytes(a))
    requires forall o :: o in f ==> f[o] - d in objs
    ensures SameCell(a, b', Final(f, d)) && FieldsIn(b', objs)
    ensures a.typ == TBYTES ==> HasBytes(b') && BlockBytes(b') == BlockBytes(a)
    ensures IsBlock(a.typ) ==> b'.cdr == c - d + 1
    ensures Size(b') == Size(a)
  {
  }

  lemma MovedEntry(h: Heap, m: seq<Cell>, f: map<int, int>, o: int, n: int, d: int, h': Heap, j: int)
    requires Finished(h, o, m, n, f)
    requires forall p :: p in f ==> f[p] - d in h'.objs
    requires 0 <= n - d && n - d + Size(h.m[o]) <= |h'.m|
    requires IsBlock(h.m[o].typ) && 0 <= j < h.m[o].car
    requires Shifted(m[n + 1 + j], h'.m[n + 1 + j - d], d)
    ensures WfEntry(h'.m[n + 1 + j - d], h'.objs)
    ensures SameCell(Entry(h, o, j), h'.m[n + 1 + j - d], Final(f, d))
  {
    var c := n + 1 + j;
    var i := Source(h.m[o], o, n, c);
    assert CellCopied(h.m[i], m[c], c, true, true, f) && WfEntry(h.m[i], h.objs);
    MovedCell(h.m[i], m[c], h'.m[c - d], c, f, d, h'.objs);
  }

  lemma MovedRun(h: Heap, m: seq<Cell>, f: map<int, int>, o: int, d: int, h': Heap)
    requires Ready(h, m, f, o, d, h')
    requires forall p :: p in f ==> f[p] - d in h'.objs
    requires IsBlock(h.m[o].typ) && h'.m[f[o] - d].cdr == f[o] - d + 1
    ensures forall i :: f[o] - d < i <= f[o] - d + h.m[o].car ==> WfEntry(h'.m[i], h'.objs)
    ensures forall j :: 0 <= j < h.m[o].car ==>
      SameCell(Entry(h, o, j), Entry(h', f[o] - d, j), Final(f, d))
  {
    var n := f[o];
    forall j | 0 <= j < h.m[o].car
      ensures SameCell(Entry(h, o, j), Entry(h', n - d, j), Final(f, d))
    {
      assert Shifted(m[n + 1 + j], h'.m[n + 1 + j - d], d);
      MovedEntry(h, m, f, o, n, d, h', j);
    }
    forall i | n - d < i <= n - d + h.m[o].car ensures WfEntry(h'.m[i], h'.objs) {
      assert Shifted(m[i + d], h'.m[i + d - d], d);
      MovedEntry(h, m, f, o, n, d, h', i + d - n - 1);
    }
  }

  lemma MovedHeader(h: Heap, m: seq<Cell>, f: map<int, int>, o: int, d: int, h': Heap)
    requires Ready(h, m, f, o, d, h')
    requires forall p :: p in f ==> f[p] - d in h'.objs
    ensures WfObject(h, o) && 0 <= f[o] - d < |h'.m|
    ensures SameCell(h.m[o], h'.m[f[o] - d], Final(f, d)) && FieldsIn(h'.m[f[o] - d], h'.objs)
    ensures h.m[o].typ == TBYTES ==> HasBytes(h'.m[f[o] - d]) && BlockBytes(h'.m[f[o] - d]) == BlockBytes(h.m[o])
    ensures IsBlock(h.m[o].typ) ==> h'.m[f[o] - d].cdr == f[o] - d + 1
    ensures Size(h'.m[f[o] - d]) == Size(h.m[o])
  {
    var n := f[o];
    assert CellCopied(h.m[Source(h.m[o], o, n, n)], m[n], n, true, true, f);
    MovedCell(h.m[o], m[n], h'.m[n - d], n, f, d, h'.objs);
  }

  lemma MovedFootprint(h: Heap, m: seq<Cell>, f: map<int, int>, o: int, d: int, h': Heap, c: int)
    requires Ready(h, m, f, o, d, h')
    requires forall p :: p in f ==> f[p] - d in h'.objs
    requires 0 <= f[o] - d < |h'.m|
    ensures c in Footprint(h'.m, f[o] - d) <==> f[o] - d <= c < f[o] - d + Size(h.m[o])
  {
    MovedHeader(h, m, f, o, d, h');
  }

  /** One object after the move. */
  lemma MovedObject(h: Heap, m: seq<Cell>, f: map<int, int>, o: int, d: int, h': Heap)
    requires Ready(h, m, f, o, d, h')
    requires forall p :: p in f ==> f[p] - d in h'.objs
    ensures WfObject(h, o) && WfObject(h', f[o] - d)
    ensures SameObject(h, o, h', f[o] - d, Final(f, d))
  {
    MovedHeader(h, m, f, o, d, h');
    if IsBlock(h.m[o].typ) {
      MovedRun(h, m, f, o, d, h');
    }
  }

  lemma ReadyWf(h: Heap, m: seq<Cell>, f: map<int, int>, d: int, h': Heap)
    requires h'.objs == Image(Final(f, d))
    requires forall o :: o in f ==> Ready(h, m, f, o, d, h')
    ensures forall n :: n in h'.objs ==> WfObject(h', n)
  {
    var g := Final(f, d);
    ImageHas(f, d);
    forall n | n in h'.objs ensures WfObject(h', n) {
      var o :| o in g && g[o] == n;
      MovedObject(h, m, f, o, d, h');
    }
  }

  lemma ReadySame(h: Heap, m: seq<Cell>, f: map<int, int>, d: int, h': Heap)
    requires h'.objs == Image(Final(f, d))
    requires forall o :: o in f ==> Ready(h, m, f, o, d, h')
    ensures forall o :: o in f ==>
      WfObject(h, o) && WfObject(h', Final(f, d)[o]) && SameObject(h, o, h', Final(f, d)[o], Final(f, d))
  {
    ImageHas(f, d);
    forall o | o in f
      ensures WfObject(h, o) && WfObject(h', Final(f, d)[o])
      ensures SameObject(h, o, h', Final(f, d)[o], Final(f, d))
    {
      MovedObject(h, m, f, o, d, h');
    }
  }

  lemma ImageHas(f: map<int, int>, d: int)
    ensures forall o :: o in f ==> f[o] - d in Image(Final(f, d))
  {
    forall o | o in f ensures f[o] - d in Image(Final(f, d)) {
      assert Final(f, d)[o] in Image(Final(f, d));
    }
  }

  lemma ReadyFootprints(h: Heap, m: seq<Cell>, f: map<int, int>, d: int, h': Heap)
    requires h'.objs == Image(Final(f, d))
    requires forall o :: o in f ==> Ready(h, m, f, o, d, h')
    requires forall o :: o in f ==> 0 <= o < |h.m| && 0 <= Final(f, d)[o] < |h'.m|
    ensures forall o, c :: o in f && c in Footprint(h'.m, Final(f, d)[o]) ==>
      f[o] - d <= c < f[o] - d + Size(h.m[o])
  {
    ImageHas(f, d);
    forall o, c | o in f && c in Footprint(h'.m, Final(f, d)[o])
      ensures f[o] - d <= c < f[o] - d + Size(h.m[o])
    {
      MovedFootprint(h, m, f, o, d, h', c);
    }
  }

  /** Objects laid out in separate intervals share no cell. */
  lemma ImageApart(h: Heap, f: map<int, int>, d: int, h': Heap)
    requires h'.objs == Image(Final(f, d))
    requires forall o :: o in f ==> 0 <= o < |h.m| && 0 <= Final(f, d)[o] < |h'.m|
    requires forall n :: n in h'.objs ==> 0 <= n < |h'.m|
    requires forall o, c :: o in f && c in Footprint(h'.m, Final(f, d)[o]) ==>
      f[o] - d <= c < f[o] - d + Size(h.m[o])
    requires forall o, p :: o in f && p in f && o != p ==>
      f[o] + Size(h.m[o]) <= f[p] || f[p] + Size(h.m[p]) <= f[o]
    ensures Apart(h'.m, h'.objs)
  {
    var g := Final(f, d);
    forall n, n', c | n in h'.objs && n' in h'.objs && c in Footprint(h'.m, n) && c in Footprint(h'.m, n')
      ensures n == n'
    {
      var o :| o in g && g[o] == n;
      var o' :| o' in g && g[o'] == n';
    }
  }

  lemma ReadyApart(h: Heap, m: seq<Cell>, f: map<int, int>, d: int, h': Heap)
    requires h'.objs == Image(Final(f, d))
    requires forall o :: o in f ==> Ready(h, m, f, o, d, h')
    requires forall o :: o in f ==> 0 <= o < |h.m|
    requires forall n :: n in h'.objs ==> 0 <= n < |h'.m|
    requires forall o, p :: o in f && p in f && o != p ==>
      f[o] + Size(h.m[o]) <= f[p] || f[p] + Size(h.m[p]) <= f[o]
    ensures Apart(h'.m, h'.objs)
  {
    forall o | o in f ensures Final(f, d)[o] in h'.objs {
    }
    ReadyFootprints(h, m, f, d, h');
    ImageApart(h, f, d, h');
  }

  lemma Injective(h: Heap, f: map<int, int>, d: int)
    requires forall o :: o in f ==> 0 <= o < |h.m|
    requires forall o, p :: o in f && p in f && o != p ==>
      f[o] + Size(h.m[o]) <= f[p] || f[p] + Size(h.m[p]) <= f[o]
    ensures forall o, p :: o in f && p in f && o != p ==> Final(f, d)[o] != Final(f, d)[p]
  {
  }

  /** The heap after the move is well formed and is a copy of the reachable part
      of the heap before. */
  lemma MovedHeap(h: Heap, live: set<int>, nlo: int, x: Space, d: int, h': Heap)
    requires Wf(h) && Done(h, live, nlo, x) && x.f.Keys == live
    requires 0 <= d && |h'.m| == |x.m| && h'.lo == nlo - d && h'.hi == x.free - d && 0 <= h'.lo
    requires h'.objs == Image(Final(x.f, d))
    requires Moved(x, h'.m, d)
    ensures Wf(h') && Isomorphic(h, live, h', Final(x.f, d))
  {
    assert forall o :: o in x.f ==> Ready(h, x.m, x.f, o, d, h') by {
      forall o | o in x.f ensures Ready(h, x.m, x.f, o, d, h') {
        Finish(h, live, nlo, x, d, h', o);
      }
    }
    ReadyWf(h, x.m, x.f, d, h');
    ReadyApart(h, x.m, x.f, d, h');
    ReadySame(h, x.m, x.f, d, h');
    Injective(h, x.f, d);
  }
}
