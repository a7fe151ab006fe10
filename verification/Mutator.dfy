/** What the interpreter does to the arena between collections: it makes cells,
    vectors and strings, and changes fields, and always leaves a heap that the
    collector can work on. */
module Mutator {
  import opened Bytes
  import opened Cells
  import Cheney
  import opened Collector

  /** The cells of an object lie in the heap. */
  lemma FootprintIn(h: Heap, o: int)
    requires WfObject(h, o)
    ensures forall c :: c in Footprint(h.m, o) ==> h.lo <= c < h.hi
  {
  }

  /** Cells that no object has may change, and the heap may end later. */
  lemma Unaffected(h: Heap, h': Heap)
    requires Wf(h) && h'.objs == h.objs && h'.lo == h.lo && h.hi <= h'.hi <= |h'.m|
    requires forall i :: 0 <= i < h.hi ==> h'.m[i] == h.m[i]
    ensures Wf(h')
    ensures forall o :: o in h.objs ==> Footprint(h'.m, o) == Footprint(h.m, o)
  {
    forall o | o in h.objs ensures WfObject(h', o) && Footprint(h'.m, o) == Footprint(h.m, o) {
      assert WfObject(h, o);
    }
  }

  /** A new object, apart from the others. */
  lemma OneMore(h: Heap, o: int)
    requires Wf(h) && o !in h.objs && WfObject(h.(objs := h.objs + {o}), o)
    requires forall p, c :: p in h.objs && c in Footprint(h.m, p) ==> c !in Footprint(h.m, o)
    ensures Wf(h.(objs := h.objs + {o}))
  {
    var h' := h.(objs := h.objs + {o});
    forall p | p in h'.objs ensures WfObject(h', p) {
      if p != o {
        assert WfObject(h, p);
      }
    }
  }

  /** A new object in cells behind the end of the heap. */
  lemma Appended(h: Heap, h': Heap, o: int)
    requires Wf(h) && h'.objs == h.objs + {o} && h'.lo == h.lo && h.hi <= o && h.hi <= h'.hi <= |h'.m|
    requires forall i :: 0 <= i < h.hi ==> h'.m[i] == h.m[i]
    requires WfObject(h', o) && forall c :: c in Footprint(h'.m, o) ==> h.hi <= c
    ensures Wf(h')
  {
    var mid := h'.(objs := h.objs);
    Unaffected(h, mid);
    assert forall p :: p in h.objs ==> WfObject(h, p);
    forall p, c | p in mid.objs && c in Footprint(mid.m, p) ensures c !in Footprint(mid.m, o) {
      assert WfObject(h, p);
      FootprintIn(h, p);
    }
    OneMore(mid, o);
    assert mid.(objs := mid.objs + {o}) == h';
  }

  /** One cell changes to another with the same extent and good fields. */
  lemma Changed(h: Heap, h': Heap, at: int)
    requires Wf(h) && h'.objs == h.objs && h'.lo == h.lo && h'.hi == h.hi && |h'.m| == |h.m|
    requires 0 <= at < |h.m| && forall i :: 0 <= i < |h.m| && i != at ==> h'.m[i] == h.m[i]
    requires WfEntry(h.m[at], h.objs) && WfEntry(h'.m[at], h.objs)
    ensures Wf(h')
  {
    forall o | o in h.objs ensures WfObject(h', o) && Footprint(h'.m, o) == Footprint(h.m, o) {
      assert WfObject(h, o);
    }
  }

  /** The roots and the predefined objects are still there. */
  lemma RootsStay(h: Heap, h': Heap, names: seq<int>, slots: seq<int>, sp: int, nil: int, symbolMax: int)
    requires ValidHeap(h, names, slots, sp, nil, symbolMax) && Wf(h') && h.objs <= h'.objs && |h.m| <= |h'.m|
    requires forall s :: nil <= s < symbolMax && 0 <= s < |h.m| ==> Size(h'.m[s]) == Size(h.m[s])
    ensures ValidHeap(h', names, slots, sp, nil, symbolMax)
  {
    hide Wf;
    hide RootSet;
    PredefinedStay(h, h', nil, symbolMax);
    hide Predefined;
  }

  lemma PredefinedStay(h: Heap, h': Heap, nil: int, symbolMax: int)
    requires Predefined(h, nil, symbolMax) && h.objs <= h'.objs && |h.m| <= |h'.m|
    requires forall s :: nil <= s < symbolMax && 0 <= s < |h.m| ==> Size(h'.m[s]) == Size(h.m[s])
    ensures Predefined(h', nil, symbolMax)
  {
    forall s | nil <= s < symbolMax ensures s in h'.objs && 0 <= s < |h'.m| && Size(h'.m[s]) == 1 {
      assert s in h.objs && 0 <= s < |h.m| && Size(h.m[s]) == 1;
    }
  }

  /** A one-cell object at the end of the heap. */
  lemma NewCell(h: Heap, h': Heap, x: int)
    requires Wf(h) && h'.objs == h.objs + {x} && h'.lo == h.lo && x == h.hi && h'.hi == x + 1 <= |h'.m|
    requires |h'.m| == |h.m| && forall i :: 0 <= i < x ==> h'.m[i] == h.m[i]
    requires WfEntry(h'.m[x], h'.objs)
    ensures Wf(h')
  {
    Appended(h, h', x);
  }

  /** What a mutator may rely on. */
  lemma Facts(c: Collector)
    requires c.Valid()
    ensures Wf(c.CurrentHeap()) && 1 <= c.base < c.free <= c.cells.Length
    ensures 0 <= c.sp <= c.stack.Length && c.nil == c.base + 1 <= c.symbolMax
    ensures ValidHeap(c.CurrentHeap(), c.Named(), c.stack[..], c.sp, c.nil, c.symbolMax)
    ensures c.CurrentHeap() == Heap(c.cells[..], c.objs, c.base + 1, c.free)
  {
  }

  /** The arena is a valid one again after a step that keeps the roots. */
  twostate lemma ValidAgain(c: Collector)
    requires old(c.Valid()) && Wf(c.CurrentHeap()) && old(c.objs) <= c.objs
    requires c.cells == old(c.cells) && old(c.free) <= c.free <= c.cells.Length
    requires c.base == old(c.base) && c.nil == old(c.nil) && c.symbolMax == old(c.symbolMax)
    requires c.sp == old(c.sp) && c.stack == old(c.stack) && c.stack[..] == old(c.stack[..])
    requires c.Named() == old(c.Named())
    requires forall s :: c.nil <= s < c.symbolMax && 0 <= s < c.cells.Length ==>
      Size(c.cells[s]) == Size(old(c.cells[s]))
    ensures c.Valid()
  {
    RootsStay(old(c.CurrentHeap()), c.CurrentHeap(), c.Named(), c.stack[..], c.sp, c.nil, c.symbolMax);
  }

  /** A cell of one's own: an object, whose fields are objects if they are
      traced. */
  method MakeCell(c: Collector, typ: int, car: int, cdr: int) returns (x: int)
    requires c.Valid() && c.free < c.cells.Length
    requires 0 <= typ < TBROKEN_HEART && !IsBlock(typ) && typ != TBYTES
    requires (TracesCar(typ) ==> car in c.objs) && (TracesCdr(typ) ==> cdr in c.objs)
    modifies c`free, c`objs, c.cells
    ensures c.Valid() && x == old(c.free) && c.free == x + 1 && c.objs == old(c.objs) + {x}
    ensures c.cells[x].typ == typ && c.cells[x].car == car && c.cells[x].cdr == cdr
    ensures forall i :: 0 <= i < x ==> c.cells[i] == old(c.cells[i])
  {
    hide Wf;
    hide ValidHeap;
    Facts(c);
    ghost var h := c.CurrentHeap();
    PredefinedBelow(c);
    hide c.Valid;
    x := c.free;
    c.free := c.free + 1;
    c.cells[x] := c.cells[x].(typ := typ, car := car, cdr := cdr);
    c.objs := c.objs + {x};
    NewCell(h, c.CurrentHeap(), x);
    ValidAgain(c);
  }

  lemma PredefinedBelow(c: Collector)
    requires c.Valid()
    ensures 0 <= c.nil <= c.symbolMax <= c.free
  {
    if c.nil < c.symbolMax {
      assert WfObject(c.CurrentHeap(), c.symbolMax - 1);
    }
  }

  method Cons(c: Collector, x: int, y: int) returns (r: int)
    requires c.Valid() && c.free < c.cells.Length && x in c.objs && y in c.objs
    modifies c`free, c`objs, c.cells
    ensures c.Valid() && r == old(c.free) && c.free == r + 1 && c.objs == old(c.objs) + {r}
    ensures c.cells[r].typ == TPAIR && c.cells[r].car == x && c.cells[r].cdr == y
    ensures forall i :: 0 <= i < r ==> c.cells[i] == old(c.cells[i])
  {
    r := MakeCell(c, TPAIR, x, y);
  }

  lemma ObjectFacts(c: Collector, o: int)
    requires c.Valid() && o in c.objs
    ensures 0 < o < c.free <= c.cells.Length && WfObject(c.CurrentHeap(), o)
    ensures !IsBlock(c.cells[o].typ) && c.cells[o].typ != TBYTES ==> WfEntry(c.cells[o], c.objs)
  {
  }

  /** Overwrites a field of a pair. */
  method SetCdr(c: Collector, x: int, y: int)
    requires c.Valid() && x in c.objs && y in c.objs && c.cells[x].typ == TPAIR
    modifies c.cells
    ensures c.Valid() && c.cells[x] == old(c.cells[x]).(cdr := y)
    ensures forall i :: 0 <= i < c.cells.Length && i != x ==> c.cells[i] == old(c.cells[i])
  {
    hide Wf;
    hide ValidHeap;
    Facts(c);
    ObjectFacts(c, x);
    ghost var h := c.CurrentHeap();
    hide c.Valid;
    c.cells[x] := c.cells[x].(cdr := y);
    Changed(h, c.CurrentHeap(), x);
    ValidAgain(c);
  }

  /** What may stand inside a vector: a number or character itself, or else a
      reference. */
  predicate Boxed(e: Cell) {
    e.typ == TCHAR || e.typ == TNUMBER || e.typ == TREF
  }

  /** What stands in a vector for object `x`, whose cell is `o`. */
  predicate Represents(e: Cell, o: Cell, x: int) {
    && Boxed(e)
    && if o.typ == TCHAR || o.typ == TNUMBER then e.typ == o.typ && e.cdr == o.cdr
       else e.typ == TREF && e.car == x
  }

  /** The cell to copy into a vector for an object. */
  method VectorEntry(c: Collector, x: int) returns (r: int)
    requires c.Valid() && x in c.objs && c.free < c.cells.Length
    modifies c`free, c`objs, c.cells
    ensures c.Valid() && c.objs == old(c.objs) + {r} && 0 <= r < c.free
    ensures if r == x then c.free == old(c.free) else r == old(c.free) && c.free == r + 1
    ensures Represents(c.cells[r], old(c.cells[x]), x)
    ensures forall i :: 0 <= i < old(c.free) ==> c.cells[i] == old(c.cells[i])
  {
    ObjectFacts(c, x);
    r := x;
    if c.cells[x].typ != TCHAR && c.cells[x].typ != TNUMBER {
      r := MakeCell(c, TREF, x, 0);
    }
  }

  /** Where a vector keeps its elements. */
  lemma RunFacts(c: Collector, v: int, i: int)
    requires c.Valid() && v in c.objs && c.cells[v].typ == TVECTOR && 0 <= i < c.cells[v].car
    ensures 0 <= c.cells[v].cdr + i < c.free <= c.cells.Length && c.cells[v].cdr + i != v
    ensures WfEntry(c.cells[c.cells[v].cdr + i], c.objs)
    ensures c.cells[v].cdr + i !in c.objs
  {
    Facts(c);
    hide c.Valid;
    hide ValidHeap;
    InRun(c.CurrentHeap(), v, i);
  }

  lemma InRun(h: Heap, v: int, i: int)
    requires Wf(h) && v in h.objs && 0 <= v < |h.m| && h.m[v].typ == TVECTOR && 0 <= i < h.m[v].car
    ensures
      var at := h.m[v].cdr + i;
      h.lo <= at < h.hi <= |h.m| && at != v && WfEntry(h.m[at], h.objs) && at !in h.objs
  {
    var at := h.m[v].cdr + i;
    assert WfObject(h, v);
    assert at in Footprint(h.m, v);
    if at in h.objs {
      OwnCell(h, at);
      assert false;
    }
  }

  lemma OwnCell(h: Heap, o: int)
    requires Wf(h) && o in h.objs
    ensures 0 <= o < |h.m| && o in Footprint(h.m, o)
  {
    assert WfObject(h, o);
  }

  /** Reads an element: never the address of a cell inside the vector. */
  method VectorRef(c: Collector, v: int, i: int) returns (r: int)
    requires c.Valid() && v in c.objs && c.cells[v].typ == TVECTOR && 0 <= i < c.cells[v].car
    requires Boxed(c.cells[c.cells[v].cdr + i]) && c.free < c.cells.Length
    modifies c`free, c`objs, c.cells
    ensures c.Valid() && old(c.objs) <= c.objs && r in c.objs
    ensures forall k :: 0 <= k < old(c.free) ==> c.cells[k] == old(c.cells[k])
    ensures
      var e := old(c.cells[c.cells[v].cdr + i]);
      var x := if e.typ == TREF then old(c.cells[e.car]) else e;
      if x.typ == TCHAR || x.typ == TNUMBER then c.cells[r].typ == x.typ && c.cells[r].cdr == x.cdr
      else e.typ == TREF && r == e.car
  {
    hide c.Valid, ValidHeap, Wf, WfObject;
    ObjectFacts(c, v);
    RunFacts(c, v, i);
    Facts(c);
    r := c.cells[v].cdr + i;
    if c.cells[r].typ == TREF {
      r := c.cells[r].car;
      ObjectFacts(c, r);
    }
    if c.cells[r].typ == TCHAR {
      r := MakeCell(c, TCHAR, 0, c.cells[r].cdr);
    } else if c.cells[r].typ == TNUMBER {
      r := MakeCell(c, TNUMBER, 0, c.cells[r].cdr);
    }
  }

  /** Copies the words of a cell. */
  method CopyCell(c: Collector, to: int, from: int)
    requires 0 <= to < c.cells.Length && 0 <= from < c.cells.Length
    modifies c.cells
    ensures c.cells[to] == old(c.cells[to]).(typ := old(c.cells[from]).typ, car := old(c.cells[from]).car,
                                             cdr := old(c.cells[from]).cdr)
    ensures forall i :: 0 <= i < c.cells.Length && i != to ==> c.cells[i] == old(c.cells[i])
  {
    c.cells[to] := c.cells[to].(typ := c.cells[from].typ, car := c.cells[from].car, cdr := c.cells[from].cdr);
  }

  /** Changes an element. */
  method VectorSet(c: Collector, v: int, i: int, x: int)
    requires c.Valid() && v in c.objs && c.cells[v].typ == TVECTOR && 0 <= i < c.cells[v].car
    requires x in c.objs && c.free < c.cells.Length
    modifies c`free, c`objs, c.cells
    ensures c.Valid() && old(c.objs) <= c.objs && c.free <= old(c.free) + 1
    ensures forall k :: 0 <= k < old(c.free) && k != old(c.cells[v].cdr) + i ==> c.cells[k] == old(c.cells[k])
    ensures Represents(c.cells[old(c.cells[v].cdr) + i], old(c.cells[x]), x)
  {
    hide *;
    RunFacts(c, v, i);
    ObjectFacts(c, v);
    ObjectFacts(c, x);
    var at := c.cells[v].cdr + i;
    var r := VectorEntry(c, x);
    assert c.cells[v] == old(c.cells[v]);
    RunFacts(c, v, i);
    Facts(c);
    ghost var o := old(c.cells[x]);
    Put(c, at, r, o, x);
  }

  /** Puts a boxed entry into a cell inside a vector. */
  method Put(c: Collector, at: int, r: int, ghost o: Cell, ghost x: int)
    requires c.Valid() && 0 <= at < c.free && WfEntry(c.cells[at], c.objs)
    requires r in c.objs && 0 <= r < c.free && Represents(c.cells[r], o, x)
    modifies c.cells
    ensures c.Valid() && Represents(c.cells[at], o, x)
    ensures forall i :: 0 <= i < c.cells.Length && i != at ==> c.cells[i] == old(c.cells[i])
  {
    hide Wf;
    hide ValidHeap;
    Facts(c);
    ObjectFacts(c, r);
    ghost var h := c.CurrentHeap();
    hide c.Valid;
    CopyCell(c, at, r);
    Changed(h, c.CurrentHeap(), at);
    ValidAgain(c);
  }

  /** What is put into a vector comes out of it: a number or character as one
      with the same value, anything else as itself. */
  method SetThenRef(c: Collector, v: int, i: int, x: int) returns (r: int)
    requires c.Valid() && v in c.objs && c.cells[v].typ == TVECTOR && 0 <= i < c.cells[v].car
    requires x in c.objs && c.free + 1 < c.cells.Length
    modifies c`free, c`objs, c.cells
    ensures c.Valid() && r in c.objs && 0 <= x < c.cells.Length && 0 <= r < c.cells.Length
    ensures var o := old(c.cells[x]);
      if o.typ == TCHAR || o.typ == TNUMBER then c.cells[r].typ == o.typ && c.cells[r].cdr == o.cdr else r == x
  {
    hide c.Valid, Wf, ValidHeap, WfEntry;
    ObjectFacts(c, v);
    ObjectFacts(c, x);
    RunFacts(c, v, i);
    VectorSet(c, v, i, x);
    RunFacts(c, v, i);
    ObjectFacts(c, v);
    r := VectorRef(c, v, i);
    ObjectFacts(c, r);
  }

  /** No object has a cell in [from, to). */
  ghost predicate Clear(h: Heap, from: int, to: int)
    requires Wf(h)
  {
    forall p, k :: p in h.objs && 0 <= p < |h.m| && k in Footprint(h.m, p) ==> !(from <= k < to)
  }

  /** Takes cells from the end of the heap that are no object yet. */
  method Alloc(c: Collector, n: nat) returns (x: int)
    requires c.Valid() && c.free + n <= c.cells.Length
    modifies c`free
    ensures c.Valid() && x == old(c.free) && c.free == x + n
    ensures Wf(c.CurrentHeap()) && Clear(c.CurrentHeap(), x, c.free)
  {
    Facts(c);
    ghost var h := c.CurrentHeap();
    x := c.free;
    c.free := c.free + n;
    Unaffected(h, c.CurrentHeap());
    ValidAgain(c);
    assert forall p :: p in h.objs ==> WfObject(h, p);
    forall p, k | p in h.objs && k in Footprint(h.m, p) ensures k < x {
      FootprintIn(h, p);
    }
  }

  /** After writes to cells that are no object's. */
  lemma StillClear(c: Collector, h: Heap, from: int, to: int)
    requires ValidHeap(h, c.Named(), c.stack[..], c.sp, c.nil, c.symbolMax) && Wf(h) && Clear(h, from, to)
    requires 1 <= c.base < c.free <= c.cells.Length == |h.m| && 0 <= c.sp <= c.stack.Length
    requires c.nil == c.base + 1 <= c.symbolMax
    requires h.objs == c.objs && h.lo == c.base + 1 && h.hi == c.free && 0 <= from <= to <= c.free
    requires forall i :: 0 <= i < |h.m| && !(from <= i < to) ==> c.cells[i] == h.m[i]
    ensures c.Valid() && Wf(c.CurrentHeap()) && Clear(c.CurrentHeap(), from, to)
  {
    var h' := c.CurrentHeap();
    ClearWrites(h, h', from, to);
    RootsStay(h, h', c.Named(), c.stack[..], c.sp, c.nil, c.symbolMax);
  }

  lemma ClearWrites(h: Heap, h': Heap, from: int, to: int)
    requires Wf(h) && Clear(h, from, to) && 0 <= from <= to
    requires h'.objs == h.objs && h'.lo == h.lo && h'.hi == h.hi && |h'.m| == |h.m|
    requires forall i :: 0 <= i < |h.m| && !(from <= i < to) ==> h'.m[i] == h.m[i]
    ensures Wf(h') && Clear(h', from, to)
    ensures forall o :: o in h.objs ==> 0 <= o < |h.m| && h'.m[o] == h.m[o]
  {
    forall o | o in h.objs
      ensures WfObject(h', o) && h'.m[o] == h.m[o] && Footprint(h'.m, o) == Footprint(h.m, o)
    {
      OwnCell(h, o);
      assert WfObject(h, o);
      if IsBlock(h.m[o].typ) {
        forall i | h.m[o].cdr <= i < h.m[o].cdr + h.m[o].car ensures h'.m[i] == h.m[i] {
          assert i in Footprint(h.m, o);
        }
      }
    }
  }

  /** Making an entry leaves cells clear that are. */
  lemma EntryClear(h: Heap, h': Heap, from: int, to: int, r: int)
    requires Wf(h) && Wf(h') && Clear(h, from, to) && to <= h.hi <= h'.hi && h'.lo == h.lo
    requires h'.objs == h.objs + {r} && |h'.m| == |h.m|
    requires r in h.objs || (to <= r < |h.m| && Boxed(h'.m[r]))
    requires forall i :: 0 <= i < h.hi ==> h'.m[i] == h.m[i]
    ensures Clear(h', from, to)
  {
    forall p | p in h.objs ensures 0 <= p < h.hi && Footprint(h'.m, p) == Footprint(h.m, p) {
      assert WfObject(h, p);
    }
  }

  /** The cells of a run are filled, and stand for the object `e` whose cell
      is `o`. */
  ghost predicate Filled(c: Collector, from: int, to: int, o: Cell, e: int)
    reads c, c.cells
  {
    0 <= from && to <= c.cells.Length &&
    forall i :: from <= i < to ==>
      Boxed(c.cells[i]) && WfEntry(c.cells[i], c.objs) && Represents(c.cells[i], o, e)
  }

  /** Copies a boxed cell into a clear one. */
  method CopyIn(c: Collector, from: int, to: int, at: int, r: int)
    requires c.Valid() && Wf(c.CurrentHeap()) && Clear(c.CurrentHeap(), from, to)
    requires 0 <= from <= at < to <= c.free && r in c.objs && 0 <= r < c.cells.Length && Boxed(c.cells[r])
    modifies c.cells
    ensures c.Valid() && Wf(c.CurrentHeap()) && Clear(c.CurrentHeap(), from, to)
    ensures Boxed(c.cells[at]) && WfEntry(c.cells[at], c.objs) && Cheney.SameWords(c.cells[at], old(c.cells[r]))
    ensures forall i :: 0 <= i < c.cells.Length && i != at ==> c.cells[i] == old(c.cells[i])
  {
    hide Wf;
    hide ValidHeap;
    hide Clear;
    ObjectFacts(c, r);
    Facts(c);
    ghost var h := c.CurrentHeap();
    CopyCell(c, at, r);
    StillClear(c, h, from, to);
  }

  /** Makes an entry, and keeps clear what is clear. */
  method EntryBeside(c: Collector, from: int, to: int, e: int) returns (r: int)
    requires c.Valid() && Wf(c.CurrentHeap()) && Clear(c.CurrentHeap(), from, to)
    requires 0 <= from <= to <= c.free < c.cells.Length && e in c.objs
    modifies c`free, c`objs, c.cells
    ensures c.Valid() && Wf(c.CurrentHeap()) && Clear(c.CurrentHeap(), from, to)
    ensures old(c.free) <= c.free <= old(c.free) + 1 && old(c.objs) <= c.objs
    ensures r in c.objs && 0 <= r < c.cells.Length && Boxed(c.cells[r])
    ensures 0 <= e < c.cells.Length && Represents(c.cells[r], old(c.cells[e]), e)
    ensures forall i :: 0 <= i < old(c.free) ==> c.cells[i] == old(c.cells[i])
  {
    hide Wf;
    hide ValidHeap;
    hide Clear;
    hide c.Valid;
    ObjectFacts(c, e);
    Facts(c);
    ghost var h := c.CurrentHeap();
    r := VectorEntry(c, e);
    Facts(c);
    EntryClear(h, c.CurrentHeap(), from, to, r);
  }

  /** One element of a new vector. */
  method FillOne(c: Collector, x: int, k: nat, i: nat, e: int, ghost o: Cell)
    requires c.Valid() && Wf(c.CurrentHeap()) && Clear(c.CurrentHeap(), x, x + 1 + k)
    requires 0 <= x && i < k && x + 1 + k <= c.free < c.cells.Length && e in c.objs
    requires Filled(c, x + 1, x + 1 + i, o, e) && 0 <= e < x && c.cells[e] == o
    modifies c`free, c`objs, c.cells
    ensures c.Valid() && Wf(c.CurrentHeap()) && Clear(c.CurrentHeap(), x, x + 1 + k)
    ensures old(c.free) <= c.free <= old(c.free) + 1 && old(c.objs) <= c.objs
    ensures Filled(c, x + 1, x + 1 + i + 1, o, e)
    ensures forall j :: 0 <= j <= x ==> c.cells[j] == old(c.cells[j])
  {
    hide Wf;
    hide ValidHeap;
    hide Clear;
    hide c.Valid;
    ghost var objs, m := c.objs, c.cells[..];
    var r := EntryBeside(c, x, x + 1 + k, e);
    CopyIn(c, x, x + 1 + k, x + 1 + i, r);
    FieldsGrow(c, objs, m, x + 1, x + 1 + i, o, e);
  }

  lemma FieldsGrow(c: Collector, objs: set<int>, m: seq<Cell>, from: int, to: int, o: Cell, e: int)
    requires objs <= c.objs && 0 <= from && to <= |m| == c.cells.Length
    requires forall i :: from <= i < to ==>
      Boxed(m[i]) && WfEntry(m[i], objs) && Represents(m[i], o, e) && c.cells[i] == m[i]
    ensures Filled(c, from, to, o, e)
  {
  }

  /** A vector of `k` elements, all of which stand for `e`. */
  method MakeVector(c: Collector, k: nat, e: int) returns (x: int)
    requires c.Valid() && e in c.objs && c.free + 1 + k + k <= c.cells.Length
    modifies c`free, c`objs, c.cells
    ensures c.Valid() && x == old(c.free) && x in c.objs && old(c.objs) <= c.objs
    ensures c.cells[x].typ == TVECTOR && c.cells[x].car == k && c.cells[x].cdr == x + 1
    ensures Filled(c, x + 1, x + 1 + k, old(c.cells[e]), e)
    ensures forall i :: 0 <= i < x ==> c.cells[i] == old(c.cells[i])
  {
    hide Wf;
    hide ValidHeap;
    hide Clear;
    hide c.Valid;
    hide Filled;
    ObjectFacts(c, e);
    ghost var o := c.cells[e];
    x := StartVector(c, k);
    ghost var start := c.free;
    var i := 0;
    NoneFilled(c, x + 1, o, e);
    while i < k
      invariant 0 <= i <= k && x + 1 + k <= c.free <= start + i && start + k <= c.cells.Length
      invariant 0 <= c.base < x && e in c.objs && old(c.objs) <= c.objs
      invariant c.Valid() && Wf(c.CurrentHeap()) && Clear(c.CurrentHeap(), x, x + 1 + k)
      invariant Filled(c, x + 1, x + 1 + i, o, e) && 0 <= e < x && c.cells[e] == o
      invariant c.cells[x].typ == TVECTOR && c.cells[x].car == k && c.cells[x].cdr == x + 1
      invariant forall j :: 0 <= j < x ==> c.cells[j] == old(c.cells[j])
    {
      FillOne(c, x, k, i, e, o);
      i := i + 1;
    }
    Claim(c, x, x + 1 + k, o, e);
  }

  lemma NoneFilled(c: Collector, from: int, o: Cell, e: int)
    requires 0 <= from <= c.cells.Length
    ensures Filled(c, from, from, o, e)
  {
  }

  /** The header of a vector, and room for its elements. */
  method StartVector(c: Collector, k: nat) returns (x: int)
    requires c.Valid() && c.free + 1 + k <= c.cells.Length
    modifies c`free, c.cells
    ensures c.Valid() && x == old(c.free) && c.free == x + 1 + k && 0 <= c.base < x
    ensures Wf(c.CurrentHeap()) && Clear(c.CurrentHeap(), x, x + 1 + k)
    ensures c.cells[x].typ == TVECTOR && c.cells[x].car == k && c.cells[x].cdr == x + 1
    ensures forall i :: 0 <= i < x ==> c.cells[i] == old(c.cells[i])
  {
    hide Wf;
    hide ValidHeap;
    hide Clear;
    Facts(c);
    x := Alloc(c, 1 + k);
    Header(c, x, k);
  }

  method Header(c: Collector, x: int, k: nat)
    requires c.Valid() && Wf(c.CurrentHeap()) && Clear(c.CurrentHeap(), x, x + 1 + k) && 0 <= x && x + 1 + k <= c.free
    modifies c.cells
    ensures c.Valid() && Wf(c.CurrentHeap()) && Clear(c.CurrentHeap(), x, x + 1 + k)
    ensures c.cells[x].typ == TVECTOR && c.cells[x].car == k && c.cells[x].cdr == x + 1
    ensures forall i :: 0 <= i < x ==> c.cells[i] == old(c.cells[i])
  {
    hide Wf;
    hide ValidHeap;
    hide Clear;
    Facts(c);
    ghost var h := c.CurrentHeap();
    c.cells[x] := c.cells[x].(typ := TVECTOR, car := k, cdr := x + 1);
    StillClear(c, h, x, x + 1 + k);
  }

  /** What is built in clear cells becomes an object. */
  method Claim(c: Collector, x: int, to: int, ghost o: Cell, ghost e: int)
    requires c.Valid() && Wf(c.CurrentHeap()) && Clear(c.CurrentHeap(), x, to)
    requires c.base < x < to <= c.free && x < c.cells.Length
    requires c.cells[x].typ == TVECTOR && c.cells[x].car == to - x - 1 && c.cells[x].cdr == x + 1
    requires Filled(c, x + 1, to, o, e)
    modifies c`objs
    ensures c.Valid() && c.objs == old(c.objs) + {x} && Filled(c, x + 1, to, o, e)
  {
    hide Wf, ValidHeap, c.Valid, Clear, WfEntry, Represents, Size;
    ghost var h, objs := c.CurrentHeap(), c.objs;
    Facts(c);
    Claimed(h, x, to);
    c.objs := c.objs + {x};
    FieldsGrow(c, objs, c.cells[..], x + 1, to, o, e);
    ValidAgain(c);
  }

  lemma Claimed(h: Heap, x: int, to: int)
    requires Wf(h) && Clear(h, x, to) && h.lo <= x < to <= h.hi <= |h.m|
    requires h.m[x].typ == TVECTOR && h.m[x].car == to - x - 1 && h.m[x].cdr == x + 1
    requires forall i :: x + 1 <= i < to ==> Boxed(h.m[i]) && WfEntry(h.m[i], h.objs)
    ensures Wf(h.(objs := h.objs + {x}))
  {
    assert x !in h.objs by {
      if x in h.objs {
        OwnCell(h, x);
      }
    }
    assert forall p :: p in h.objs ==> WfObject(h, p);
    OneMore(h, x);
  }

  /** A block of bytes, which are whatever they were. */
  method MakeBytes(c: Collector, length: nat) returns (x: int)
    requires c.Valid() && c.free + BytesCells(length) <= c.cells.Length
    modifies c`free, c`objs, c.cells
    ensures c.Valid() && x == old(c.free) && c.free == x + BytesCells(length) && c.objs == old(c.objs) + {x}
    ensures c.cells[x].typ == TBYTES && c.cells[x].car == length && |c.cells[x].payload| == length
    ensures forall i :: 0 <= i < x ==> c.cells[i] == old(c.cells[i])
  {
    hide Wf;
    hide ValidHeap;
    Facts(c);
    PredefinedBelow(c);
    ghost var h := c.CurrentHeap();
    hide c.Valid;
    var size := BytesCells(length);
    x := c.free;
    c.free := c.free + size;
    assert |seq<Byte>(length, _ => 0)| == length;
    var bytes: seq<Byte> :| |bytes| == length;
    c.cells[x] := c.cells[x].(typ := TBYTES, car := length, payload := bytes);
    c.objs := c.objs + {x};
    NewBytes(h, c.CurrentHeap(), x);
    ValidAgain(c);
  }

  lemma NewBytes(h: Heap, h': Heap, x: int)
    requires Wf(h) && h'.objs == h.objs + {x} && h'.lo == h.lo && x == h.hi < |h'.m| == |h.m|
    requires h'.m[x].typ == TBYTES && HasBytes(h'.m[x]) && h'.hi == x + Size(h'.m[x]) <= |h'.m|
    requires forall i :: 0 <= i < x ==> h'.m[i] == h.m[i]
    ensures Wf(h')
  {
    Appended(h, h', x);
  }
}
