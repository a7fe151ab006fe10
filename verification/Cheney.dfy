/** What holds at every moment of a collection.

    `h` is the heap when the collection starts and `m` the memory now.  `f`
    maps each object copied so far to its copy; `org` maps each cell of the new
    space, other than the raw cells of byte blocks, to the cell it is a copy
    of.  The copies are packed from `nlo` up to `free`, and the cells below
    `scan` already point into the new space.  `half` tells that at `scan`
    itself the first word does. */
module Cheney {
  import opened Cells

  datatype Space = Space(m: seq<Cell>, scan: int, half: bool, free: int,
                         f: map<int, int>, org: map<int, int>)

  /** Objects start inside the bounds of the heap. */
  ghost predicate InBounds(h: Heap) {
    && 0 <= h.lo <= h.hi <= |h.m|
    && (forall o :: o in h.objs ==> h.lo <= o < h.hi)
  }

  /** The old space: copied objects are broken hearts, the rest is as it was. */
  ghost predicate Marked(h: Heap, x: Space)
    requires InBounds(h) && |x.m| == |h.m|
  {
    && x.f.Keys <= h.objs
    && (forall o :: o in h.objs ==>
          if o in x.f then x.m[o].typ == TBROKEN_HEART && x.m[o].car == x.f[o]
          else x.m[o] == h.m[o])
    && (forall i :: h.lo <= i < h.hi && i !in h.objs ==> x.m[i] == h.m[i])
  }

  /** The copy of object `o`, whose header is `c`, lies inside the new space. */
  ghost predicate PlacedAt(c: Cell, nlo: int, x: Space, o: int)
    requires o in x.f
  {
    && nlo <= x.f[o] && x.f[o] + Size(c) <= x.free
    && x.f[o] in x.org && x.org[x.f[o]] == o
    && (forall k :: IsBlock(c.typ) && x.f[o] < k < x.f[o] + Size(c) ==>
          k in x.org && x.org[k] == c.cdr + (k - x.f[o] - 1))
  }

  /** Where the copies of objects lie. */
  ghost predicate Placed(h: Heap, nlo: int, x: Space)
    requires InBounds(h) && x.f.Keys <= h.objs
  {
    && (forall o :: o in x.f ==> PlacedAt(h.m[o], nlo, x, o))
    && (forall o, p :: o in x.f && p in x.f && o != p ==>
          || x.f[o] + Size(h.m[o]) <= x.f[p]
          || x.f[p] + Size(h.m[p]) <= x.f[o])
  }

  /** Cell `b` at address `c` is a copy of cell `a`, and points into the new
      space as far as it has been scanned. */
  ghost predicate CellCopied(a: Cell, b: Cell, c: int, car: bool, cdr: bool, f: map<int, int>) {
    && b.typ == a.typ
    && (if car && TracesCar(a.typ) then a.car in f && b.car == f[a.car] else b.car == a.car)
    && (if IsBlock(a.typ) then b.cdr == c + 1
        else if cdr && TracesCdr(a.typ) then a.cdr in f && b.cdr == f[a.cdr]
        else b.cdr == a.cdr)
    && (a.typ == TBYTES ==> HasBytes(b) && BlockBytes(b) == BlockBytes(a))
  }

  /** The cells of the new space and the cells they are copies of. */
  ghost predicate Origins(h: Heap, live: set<int>, nlo: int, x: Space)
    requires InBounds(h)
  {
    forall c :: c in x.org ==>
      && nlo <= c < x.free <= |x.m|
      && h.lo <= x.org[c] < h.hi
      && 0 <= h.m[x.org[c]].typ < TBROKEN_HEART
      && FieldsIn(h.m[x.org[c]], live)
  }

  ghost predicate Copied(h: Heap, x: Space)
    requires InBounds(h)
    requires forall c :: c in x.org ==> 0 <= c < |x.m| && h.lo <= x.org[c] < h.hi
  {
    forall c :: c in x.org ==>
      CellCopied(h.m[x.org[c]], x.m[c], c, c < x.scan || (x.half && c == x.scan), c < x.scan, x.f)
  }

  /** The new space has no gaps and no overlaps: a cell is followed by a cell or
      by the end. */
  ghost predicate Packed(nlo: int, x: Space)
    requires forall c :: c in x.org ==> 0 <= c < |x.m|
  {
    && (nlo in x.org || nlo == x.free)
    && (x.scan in x.org || (x.scan == x.free && !x.half))
    && (forall c {:trigger Next(x.m, c)} :: c in x.org ==> Next(x.m, c) in x.org || Next(x.m, c) == x.free)
    && (forall c, k {:trigger Next(x.m, c), k in x.org} :: c in x.org && k in x.org && c < k ==>
          Next(x.m, c) <= k)
  }

  function Next(m: seq<Cell>, c: int): (n: int)
    requires 0 <= c < |m|
    ensures c < n
  {
    c + Step(m[c])
  }

  ghost predicate Inv(h: Heap, live: set<int>, nlo: int, x: Space) {
    && InBounds(h) && live <= h.objs && |x.m| == |h.m|
    && h.hi < nlo <= x.scan <= x.free <= |x.m|
    && 0 <= nlo
    && x.f.Keys <= live
    && Marked(h, x)
    && Placed(h, nlo, x)
    && Origins(h, live, nlo, x)
    && Copied(h, x)
    && Packed(nlo, x)
  }

  /** What one copying step does to the memory: if object `o` has been copied
      before, nothing; otherwise `o` is copied to `free` and becomes a broken
      heart that points there. */
  ghost predicate Evacuated(m: seq<Cell>, free: int, o: int, m': seq<Cell>, free': int, n: int)
    requires 0 <= o < free <= |m| && |m'| == |m|
  {
    if m[o].typ == TBROKEN_HEART then m' == m && free' == free && n == m[o].car
    else
      && n == free && free' == free + Size(m[o]) <= |m|
      && (forall i {:trigger m'[i]} :: 0 <= i < |m| && !(free <= i < free') && i != o ==> m'[i] == m[i])
      && m'[o] == m[o].(typ := TBROKEN_HEART, car := free)
      && m'[free].typ == m[o].typ && m'[free].car == m[o].car
      && m'[free].cdr == (if IsBlock(m[o].typ) then free + 1 else m[o].cdr)
      && (m[o].typ == TBYTES ==>
            HasBytes(m'[free]) && BlockBytes(m'[free]) == BlockBytes(m[o]))
      && (IsBlock(m[o].typ) ==>
            forall i {:trigger m'[i]} :: free < i < free' ==>
              && 0 <= m[o].cdr + (i - free - 1) < |m|
              && SameWords(m'[i], m[m[o].cdr + (i - free - 1)]))
  }

  predicate SameWords(a: Cell, b: Cell) {
    a.typ == b.typ && a.car == b.car && a.cdr == b.cdr
  }

  /** There is room for one more reachable object. */
  lemma Room(h: Heap, live: set<int>, done: set<int>, o: int)
    requires Wf(h) && live <= h.objs && done <= live && o in live && o !in done
    ensures |Area(h, done)| + Size(h.m[o]) <= |Area(h, live)|
  {
    AreaAdd(h, done, o);
    AreaMonotone(h, done + {o}, live);
  }

  /** A run of consecutive addresses from `to` as copies of the run from `from`. */
  ghost function RunOrigins(to: int, from: int, n: int): (r: map<int, int>)
    ensures r.Keys == Range(to, to + n)
    ensures forall c :: c in r ==> r[c] == from + (c - to)
  {
    var addresses := Range(to, to + n);
    map c | c in addresses :: from + (c - to)
  }

  /** The bookkeeping after copying object `o`, whose header is `c`. */
  ghost predicate Extends(c: Cell, x: Space, o: int, y: Space) {
    && y.scan == x.scan && y.half == x.half && y.free == x.free + Size(c)
    && y.f == x.f[o := x.free]
    && (forall k :: k in x.org ==> k in y.org && y.org[k] == x.org[k])
    && x.free in y.org && y.org[x.free] == o
    && (forall k :: IsBlock(c.typ) && x.free < k < y.free ==>
          k in y.org && y.org[k] == c.cdr + (k - x.free - 1))
    && (forall k :: k in y.org ==>
          k in x.org || k == x.free || (IsBlock(c.typ) && x.free < k < y.free))
  }

  lemma Extend(c: Cell, x: Space, o: int, m': seq<Cell>) returns (y: Space)
    requires forall k :: k in x.org ==> k < x.free
    ensures y.m == m' && Extends(c, x, o, y)
  {
    y := x.(m := m', free := x.free + Size(c), f := x.f[o := x.free],
            org := if IsBlock(c.typ) then x.org[x.free := o] + RunOrigins(x.free + 1, c.cdr, c.car)
                   else x.org[x.free := o]);
  }

  lemma ExtendMarked(h: Heap, x: Space, o: int, y: Space)
    requires InBounds(h) && |x.m| == |y.m| == |h.m| && Marked(h, x)
    requires o in h.objs && o !in x.f && h.hi <= x.free < |x.m|
    requires h.m[o].typ != TBROKEN_HEART && Extends(h.m[o], x, o, y)
    requires Evacuated(x.m, x.free, o, y.m, y.free, x.free)
    ensures Marked(h, y)
  {
  }

  lemma ExtendPlaced(h: Heap, nlo: int, x: Space, o: int, y: Space)
    requires InBounds(h) && x.f.Keys <= h.objs && Placed(h, nlo, x)
    requires o in h.objs && o !in x.f && nlo <= x.free && Extends(h.m[o], x, o, y)
    ensures Placed(h, nlo, y)
  {
    forall p | p in y.f ensures PlacedAt(h.m[p], nlo, y, p) {
      if p != o {
        assert PlacedAt(h.m[p], nlo, x, p);
      }
    }
    forall p, q | p in y.f && q in y.f && p != q
      ensures y.f[p] + Size(h.m[p]) <= y.f[q] || y.f[q] + Size(h.m[q]) <= y.f[p]
    {
      if p != o { assert PlacedAt(h.m[p], nlo, x, p); }
      if q != o { assert PlacedAt(h.m[q], nlo, x, q); }
    }
  }

  /** The run of a vector never holds the start of an object. */
  lemma RunUntouched(h: Heap, o: int, i: int)
    requires Wf(h) && o in h.objs
    requires IsBlock(h.m[o].typ) && h.m[o].cdr <= i < h.m[o].cdr + h.m[o].car
    ensures i !in h.objs && WfEntry(h.m[i], h.objs)
  {
    assert WfObject(h, o);
    if i in h.objs {
      assert i in Footprint(h.m, i) by { assert WfObject(h, i); }
      assert false;
    }
  }

  /** What a vector's copied cells are made of. */
  ghost predicate GoodRun(h: Heap, live: set<int>, o: int)
    requires InBounds(h) && o in h.objs
  {
    IsBlock(h.m[o].typ) ==>
      && 0 <= h.m[o].car
      && h.lo <= h.m[o].cdr && h.m[o].cdr + h.m[o].car <= h.hi
      && forall i :: h.m[o].cdr <= i < h.m[o].cdr + h.m[o].car ==>
           i !in h.objs && WfEntry(h.m[i], live)
  }

  lemma ExtendOrigins(h: Heap, live: set<int>, nlo: int, x: Space, o: int, y: Space)
    requires InBounds(h) && Origins(h, live, nlo, x) && nlo <= x.free
    requires o in h.objs && 0 <= h.m[o].typ < TBROKEN_HEART
    requires FieldsIn(h.m[o], live) && GoodRun(h, live, o)
    requires Extends(h.m[o], x, o, y) && |y.m| == |x.m| && y.free <= |y.m|
    ensures Origins(h, live, nlo, y)
  {
    forall c | c in y.org
      ensures nlo <= c < y.free && h.lo <= y.org[c] < h.hi
      ensures 0 <= h.m[y.org[c]].typ < TBROKEN_HEART && FieldsIn(h.m[y.org[c]], live)
    {
      if c !in x.org && c != x.free {
        assert WfEntry(h.m[y.org[c]], live);
      }
    }
  }

  lemma CellGrows(a: Cell, b: Cell, c: int, car: bool, cdr: bool, f: map<int, int>, o: int, n: int)
    requires CellCopied(a, b, c, car, cdr, f) && o !in f
    ensures CellCopied(a, b, c, car, cdr, f[o := n])
  {
  }

  /** The memory at the copy of a fresh object. */
  lemma FreshCopy(h: Heap, x: Space, o: int, y: Space, c: int)
    requires InBounds(h) && |x.m| == |y.m| == |h.m| && o in h.objs && h.hi <= x.free < |x.m|
    requires Marked(h, x) && o !in x.f
    requires h.m[o].typ != TBROKEN_HEART && GoodRun(h, h.objs, o)
    requires Evacuated(x.m, x.free, o, y.m, y.free, x.free) && Extends(h.m[o], x, o, y)
    requires c in y.org && c !in x.org
    ensures x.free <= c < |y.m| && h.lo <= y.org[c] < h.hi
    ensures CellCopied(h.m[y.org[c]], y.m[c], c, false, false, y.f)
    ensures Step(y.m[c]) == if c == x.free then Step(h.m[o]) else 1
  {
    if c != x.free {
      var i := h.m[o].cdr + (c - x.free - 1);
      assert SameWords(y.m[c], x.m[i]);
      assert x.m[i] == h.m[i];
      assert WfEntry(h.m[i], h.objs);
    }
  }

  lemma ExtendCopied(h: Heap, x: Space, o: int, y: Space)
    requires InBounds(h) && |x.m| == |y.m| == |h.m| && o !in x.f
    requires y.f == x.f[o := x.free] && y.scan == x.scan && y.half == x.half
    requires x.scan <= x.free && (x.half ==> x.scan < x.free)
    requires forall c :: c in x.org ==> 0 <= c < |x.m| && h.lo <= x.org[c] < h.hi
    requires forall c :: c in y.org ==> 0 <= c < |x.m| && h.lo <= y.org[c] < h.hi
    requires Copied(h, x)
    requires forall c :: c in x.org ==> c in y.org && y.org[c] == x.org[c] && y.m[c] == x.m[c]
    requires forall c :: c in y.org && c !in x.org ==>
      x.free <= c && CellCopied(h.m[y.org[c]], y.m[c], c, false, false, y.f)
    ensures Copied(h, y)
  {
    forall c | c in y.org
      ensures CellCopied(h.m[y.org[c]], y.m[c], c, c < y.scan || (y.half && c == y.scan), c < y.scan, y.f)
    {
      if c in x.org {
        CellGrows(h.m[x.org[c]], x.m[c], c, c < x.scan || (x.half && c == x.scan), c < x.scan, x.f, o, x.free);
      }
    }
  }

  lemma ExtendPacked(c: Cell, nlo: int, x: Space, o: int, y: Space)
    requires 0 <= nlo <= x.scan <= x.free < |x.m| && |y.m| == |x.m|
    requires Extends(c, x, o, y)
    requires forall k :: k in x.org ==> nlo <= k < x.free && y.m[k] == x.m[k]
    requires forall k :: k in y.org ==> 0 <= k < |y.m|
    requires Packed(nlo, x)
    requires forall k :: k in y.org && k !in x.org ==> Step(y.m[k]) == if k == x.free then Step(c) else 1
    ensures Packed(nlo, y)
  {
    forall k | k in y.org ensures Next(y.m, k) in y.org || Next(y.m, k) == y.free {
      if k in x.org {
        assert Next(y.m, k) == Next(x.m, k);
      }
    }
    forall k, l | k in y.org && l in y.org && k < l ensures Next(y.m, k) <= l {
      if k in x.org {
        assert Next(y.m, k) == Next(x.m, k);
      }
    }
  }

  /** What a reachable object points at is reachable. */
  lemma LiveFields(h: Heap, roots: set<int>, o: int)
    requires Wf(h) && o in Live(h, roots)
    ensures FieldsIn(h.m[o], Live(h, roots)) && InBounds(h) && GoodRun(h, Live(h, roots), o)
  {
    assert WfObject(h, o);
    var live := Live(h, roots);
    forall p | p in h.objs && Refs(h, o, p) ensures p in live {
      LiveClosed(h, roots, o, p);
    }
    if IsBlock(h.m[o].typ) {
      forall i | h.m[o].cdr <= i < h.m[o].cdr + h.m[o].car ensures i !in h.objs && WfEntry(h.m[i], live) {
        RunUntouched(h, o, i);
        if TracesCar(h.m[i].typ) { assert CellRef(h.m[i], h.m[i].car); assert Refs(h, o, h.m[i].car); }
        if TracesCdr(h.m[i].typ) { assert CellRef(h.m[i], h.m[i].cdr); assert Refs(h, o, h.m[i].cdr); }
      }
    }
  }

  lemma EvacuateFresh(h: Heap, live: set<int>, nlo: int, x: Space, o: int, m': seq<Cell>)
    returns (y: Space)
    requires Inv(h, live, nlo, x) && o in live && o !in x.f
    requires 0 <= h.m[o].typ < TBROKEN_HEART && FieldsIn(h.m[o], live) && GoodRun(h, live, o)
    requires |m'| == |x.m| && x.free < |x.m|
    requires Evacuated(x.m, x.free, o, m', x.free + Size(h.m[o]), x.free)
    ensures Inv(h, live, nlo, y) && y.m == m' && Extends(h.m[o], x, o, y)
    ensures forall c :: c in x.org ==> m'[c] == x.m[c]
  {
    y := Extend(h.m[o], x, o, m');
    FreshParts(h, live, nlo, x, o, y);
    ExtendMarked(h, x, o, y);
    ExtendPlaced(h, nlo, x, o, y);
    ExtendOrigins(h, live, nlo, x, o, y);
    ExtendCopied(h, x, o, y);
    ExtendPacked(h.m[o], nlo, x, o, y);
  }

  lemma FreshParts(h: Heap, live: set<int>, nlo: int, x: Space, o: int, y: Space)
    requires Inv(h, live, nlo, x) && o in live && o !in x.f
    requires h.m[o].typ != TBROKEN_HEART && GoodRun(h, live, o)
    requires |y.m| == |x.m| && x.free < |x.m|
    requires Evacuated(x.m, x.free, o, y.m, y.free, x.free) && Extends(h.m[o], x, o, y)
    ensures forall c :: c in x.org ==> y.m[c] == x.m[c]
    ensures forall c :: c in y.org ==> 0 <= c < |y.m| && h.lo <= y.org[c] < h.hi
    ensures forall c :: c in y.org && c !in x.org ==>
      && x.free <= c
      && CellCopied(h.m[y.org[c]], y.m[c], c, false, false, y.f)
      && Step(y.m[c]) == if c == x.free then Step(h.m[o]) else 1
  {
    assert GoodRun(h, h.objs, o);
    forall c | c in y.org
      ensures 0 <= c < |y.m| && h.lo <= y.org[c] < h.hi
      ensures c !in x.org ==>
        && x.free <= c
        && CellCopied(h.m[y.org[c]], y.m[c], c, false, false, y.f)
        && Step(y.m[c]) == if c == x.free then Step(h.m[o]) else 1
    {
      if c !in x.org {
        FreshCopy(h, x, o, y, c);
      }
    }
  }

  lemma EvacuatedTarget(m: seq<Cell>, free: int, o: int, m': seq<Cell>, free': int, n: int)
    requires 0 <= o < free <= |m| && |m'| == |m| && Evacuated(m, free, o, m', free', n)
    requires m[o].typ != TBROKEN_HEART
    ensures n == free && free' == free + Size(m[o]) && free < |m|
  {
  }

  lemma HeartsAreForwarded(h: Heap, x: Space, o: int)
    requires InBounds(h) && |x.m| == |h.m| && Marked(h, x)
    requires o in h.objs && h.m[o].typ != TBROKEN_HEART
    ensures x.m[o].typ == TBROKEN_HEART <==> o in x.f
    ensures o in x.f ==> x.m[o].car == x.f[o]
    ensures o !in x.f ==> x.m[o] == h.m[o]
  {
  }

  /** One copying step keeps everything, and yields the copy of its argument. */
  lemma Evacuate(h: Heap, live: set<int>, nlo: int, x: Space, o: int,
                 m': seq<Cell>, free': int, n: int) returns (y: Space)
    requires Inv(h, live, nlo, x) && o in live
    requires 0 <= h.m[o].typ < TBROKEN_HEART && FieldsIn(h.m[o], live) && GoodRun(h, live, o)
    requires |m'| == |x.m| && Evacuated(x.m, x.free, o, m', free', n)
    ensures Inv(h, live, nlo, y)
    ensures y.m == m' && y.free == free' && y.scan == x.scan && y.half == x.half
    ensures y.f.Keys == x.f.Keys + {o} && y.f[o] == n
    ensures free' == x.free + if o in x.f then 0 else Size(h.m[o])
    ensures forall p :: p in x.f ==> y.f[p] == x.f[p]
    ensures forall c :: c in x.org ==> c in y.org && y.org[c] == x.org[c] && m'[c] == x.m[c]
  {
    HeartsAreForwarded(h, x, o);
    if o in x.f {
      y := x;
    } else {
      EvacuatedTarget(x.m, x.free, o, m', free', n);
      y := EvacuateFresh(h, live, nlo, x, o, m');
    }
  }

  /** A scanning step changes one cell of the new space and nothing else. */
  ghost predicate ScanStep(x: Space, y: Space) {
    && |y.m| == |x.m| && 0 <= x.scan < |x.m| && x.scan in x.org
    && y.free == x.free && y.f == x.f && y.org == x.org
    && y.m == x.m[x.scan := y.m[x.scan]] && Step(y.m[x.scan]) == Step(x.m[x.scan])
    && (if x.half then !y.half && y.scan == Next(x.m, x.scan) else y.half && y.scan == x.scan)
  }

  lemma StepPacked(nlo: int, x: Space, y: Space)
    requires forall c :: c in x.org ==> 0 <= c < |x.m|
    requires Packed(nlo, x) && ScanStep(x, y)
    ensures Packed(nlo, y)
    ensures forall c :: c in x.org && c > x.scan ==> Next(x.m, x.scan) <= c
  {
    assert forall c {:trigger Next(y.m, c)} :: 0 <= c < |x.m| ==> Next(y.m, c) == Next(x.m, c);
  }

  lemma StepKeeps(h: Heap, live: set<int>, nlo: int, x: Space, y: Space)
    requires Inv(h, live, nlo, x) && ScanStep(x, y)
    ensures Marked(h, y) && Placed(h, nlo, y) && Origins(h, live, nlo, y) && Packed(nlo, y)
    ensures y.scan <= y.free
  {
    StepPacked(nlo, x, y);
    forall o | o in y.f ensures PlacedAt(h.m[o], nlo, y, o) {
      assert PlacedAt(h.m[o], nlo, x, o);
    }
  }

  /** Every cell up to the new scan position is up to date. */
  lemma StepCopied(h: Heap, x: Space, y: Space)
    requires InBounds(h) && ScanStep(x, y)
    requires forall c :: c in x.org ==> 0 <= c < |x.m| && h.lo <= x.org[c] < h.hi
    requires Copied(h, x)
    requires x.half ==> forall c :: c in x.org && c > x.scan ==> y.scan <= c
    requires CellCopied(h.m[x.org[x.scan]], y.m[x.scan], x.scan, true, x.half, x.f)
    ensures Copied(h, y)
  {
  }

  lemma ScanStepKeeps(h: Heap, live: set<int>, nlo: int, x: Space, y: Space)
    requires Inv(h, live, nlo, x) && ScanStep(x, y)
    requires CellCopied(h.m[x.org[x.scan]], y.m[x.scan], x.scan, true, x.half, x.f)
    ensures Inv(h, live, nlo, y)
  {
    StepPacked(nlo, x, y);
    StepKeeps(h, live, nlo, x, y);
    StepCopied(h, x, y);
  }

  /** The scan has updated the first word of the cell at `scan`. */
  lemma RelocateCar(h: Heap, live: set<int>, nlo: int, x: Space, y: Space)
    requires Inv(h, live, nlo, x) && !x.half && x.scan < x.free
    requires TracesCar(x.m[x.scan].typ) ==> x.m[x.scan].car in x.f
    requires y == x.(half := true,
                     m := if TracesCar(x.m[x.scan].typ)
                          then x.m[x.scan := x.m[x.scan].(car := x.f[x.m[x.scan].car])] else x.m)
    ensures Inv(h, live, nlo, y)
  {
    ScanStepKeeps(h, live, nlo, x, y);
  }

  /** The scan has updated the second word of the cell at `scan` too, and moves on. */
  lemma RelocateCdr(h: Heap, live: set<int>, nlo: int, x: Space, y: Space)
    requires Inv(h, live, nlo, x) && x.half && x.scan < x.free
    requires TracesCdr(x.m[x.scan].typ) ==> x.m[x.scan].cdr in x.f
    requires y == x.(half := false, scan := Next(x.m, x.scan),
                     m := if TracesCdr(x.m[x.scan].typ)
                          then x.m[x.scan := x.m[x.scan].(cdr := x.f[x.m[x.scan].cdr])] else x.m)
    ensures Inv(h, live, nlo, y)
  {
    ScanStepKeeps(h, live, nlo, x, y);
  }
}
