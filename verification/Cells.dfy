/** The cells of the arena and the object graph they encode.

    An address is the index of a cell.  A cell has a type tag and two words;
    whether a word is an address or plain data depends on the tag.  Strings
    keep their characters in a byte block: a header cell followed by cells
    that are never looked at as cells.  The characters themselves are kept in
    the `payload` of the header. */
module Cells {
  import opened Bytes

  const TCHAR := 0
  const TBYTES := 1
  const TCLOSURE := 2
  const TCONTINUATION := 3
  const TKEYWORD := 4
  const TMACRO := 5
  const TNUMBER := 6
  const TPAIR := 7
  const TPORT := 8
  const TREF := 9
  const TSPECIAL := 10
  const TSTRING := 11
  const TSTRUCT := 12
  const TSYMBOL := 13
  const TVALUES := 14
  const TBINDING := 15
  const TVECTOR := 16
  const TBROKEN_HEART := 17

  const WORD_SIZE := 8

  datatype Cell = Cell(typ: int, car: int, cdr: int, payload: seq<Byte>)

  /** The tags whose first word is an address. */
  predicate TracesCar(t: int) {
    t == TMACRO || t == TPAIR || t == TREF || t == TBINDING
  }

  /** The tags whose second word is the address of another object. */
  predicate TracesCdr(t: int) {
    || t == TCLOSURE || t == TCONTINUATION || t == TKEYWORD || t == TMACRO
    || t == TPAIR || t == TPORT || t == TSPECIAL || t == TSTRING
    || t == TSYMBOL || t == TVALUES
  }

  /** The tags whose second word is the address of a run of `length` cells. */
  predicate IsBlock(t: int) {
    t == TSTRUCT || t == TVECTOR
  }

  /** The number of cells a byte block of `length` bytes takes: the words of
      the header and the bytes, each counted as a whole cell. */
  function BytesCells(length: nat): (n: nat)
    ensures 1 <= n
    ensures 2 * WORD_SIZE + length <= n * WORD_SIZE < 3 * WORD_SIZE + length
  {
    (WORD_SIZE + WORD_SIZE + length - 1 + WORD_SIZE) / WORD_SIZE
  }

  /** The number of cells an object takes when it is copied. */
  function Size(c: Cell): (n: nat)
    ensures 1 <= n
  {
    if IsBlock(c.typ) then (if c.car < 0 then 1 else 1 + c.car)
    else if c.typ == TBYTES then (if c.car < 0 then 1 else BytesCells(c.car))
    else 1
  }

  /** Where the cell after `c` starts in a space that is packed without gaps. */
  function Step(c: Cell): (n: nat)
    ensures 1 <= n <= Size(c)
  {
    if c.typ == TBYTES then Size(c) else 1
  }

  /** The header of a byte block has all the bytes its length promises. */
  predicate HasBytes(c: Cell) {
    0 <= c.car <= |c.payload|
  }

  /** The bytes of a byte block. */
  function BlockBytes(c: Cell): seq<Byte> {
    if HasBytes(c) then c.payload[..c.car] else []
  }

  /** The addresses in [from, to). */
  ghost function Range(from: int, to: int): (r: set<int>)
    ensures forall i :: i in r <==> from <= i < to
    ensures |r| == if from <= to then to - from else 0
    decreases if from <= to then to - from else 0
  {
    if from < to then Range(from, to - 1) + {to - 1} else {}
  }

  lemma SubsetSize<T>(a: set<T>, b: set<T>)
    requires a <= b
    ensures |a| <= |b|
  {
    assert |b| == |a| + |b - a| by { assert a + (b - a) == b; }
  }

  /** A heap: the memory, and which addresses in [lo, hi) are the starts of
      objects. */
  datatype Heap = Heap(m: seq<Cell>, objs: set<int>, lo: int, hi: int)

  /** The addresses an object occupies: its header, and the run of cells of a
      vector or struct or the raw cells of a byte block. */
  ghost function Footprint(m: seq<Cell>, o: int): set<int>
    requires 0 <= o < |m|
  {
    if IsBlock(m[o].typ) then {o} + Range(m[o].cdr, m[o].cdr + m[o].car)
    else Range(o, o + Size(m[o]))
  }

  /** The fields of one cell point at starts of objects. */
  ghost predicate FieldsIn(c: Cell, s: set<int>) {
    && (TracesCar(c.typ) ==> c.car in s)
    && (TracesCdr(c.typ) ==> c.cdr in s)
  }

  /** A cell inside a vector or struct: one cell long, its fields addresses of
      objects. */
  ghost predicate WfEntry(c: Cell, objs: set<int>) {
    && 0 <= c.typ < TBROKEN_HEART && !IsBlock(c.typ) && c.typ != TBYTES
    && FieldsIn(c, objs)
  }

  ghost predicate WfObject(h: Heap, o: int) {
    && 0 <= h.lo <= o < h.hi <= |h.m|
    && 0 <= h.m[o].typ < TBROKEN_HEART
    && FieldsIn(h.m[o], h.objs)
    && (h.m[o].typ == TBYTES ==>
          HasBytes(h.m[o]) && o + Size(h.m[o]) <= h.hi)
    && (IsBlock(h.m[o].typ) ==>
          && 0 <= h.m[o].car
          && h.lo <= h.m[o].cdr && h.m[o].cdr + h.m[o].car <= h.hi
          && !(h.m[o].cdr <= o < h.m[o].cdr + h.m[o].car)
          && forall i :: h.m[o].cdr <= i < h.m[o].cdr + h.m[o].car ==> WfEntry(h.m[i], h.objs))
  }

  /** No cell belongs to two objects. */
  ghost predicate Apart(m: seq<Cell>, objs: set<int>)
    requires forall o :: o in objs ==> 0 <= o < |m|
  {
    forall o, p, c :: o in objs && p in objs && c in Footprint(m, o) && c in Footprint(m, p) ==> o == p
  }

  /** Every traced field points at the start of an object, and no two objects
      share a cell; so nothing points inside a vector or a byte block. */
  ghost predicate Wf(h: Heap) {
    && 0 <= h.lo <= h.hi <= |h.m|
    && (forall o :: o in h.objs ==> WfObject(h, o))
    && Apart(h.m, h.objs)
  }

  /** The address stored in a traced field of one cell. */
  ghost predicate CellRef(c: Cell, p: int) {
    || (TracesCar(c.typ) && c.car == p)
    || (TracesCdr(c.typ) && c.cdr == p)
  }

  /** Object `o` holds a reference to `p`, in its header or in its run of cells. */
  ghost predicate Refs(h: Heap, o: int, p: int)
    requires Wf(h) && o in h.objs
  {
    || CellRef(h.m[o], p)
    || (IsBlock(h.m[o].typ) &&
        exists i :: h.m[o].cdr <= i < h.m[o].cdr + h.m[o].car && CellRef(h.m[i], p))
  }

  /** A walk from a root along references. */
  ghost predicate Path(h: Heap, roots: set<int>, path: seq<int>)
    requires Wf(h)
  {
    && path != [] && path[0] in roots
    && (forall i :: 0 <= i < |path| ==> path[i] in h.objs)
    && (forall i :: 0 < i < |path| ==> Refs(h, path[i - 1], path[i]))
  }

  ghost predicate Reachable(h: Heap, roots: set<int>, o: int)
    requires Wf(h)
  {
    exists path :: Path(h, roots, path) && path[|path| - 1] == o
  }

  /** The reachable objects. */
  ghost function Live(h: Heap, roots: set<int>): (live: set<int>)
    requires Wf(h)
    ensures live <= h.objs
  {
    set o | o in h.objs && Reachable(h, roots, o)
  }

  /** All cells of a set of objects. */
  ghost function Area(h: Heap, s: set<int>): set<int>
    requires Wf(h) && s <= h.objs
  {
    set o, c | o in s && c in Footprint(h.m, o) :: c
  }

  lemma FootprintSize(h: Heap, o: int)
    requires Wf(h) && o in h.objs
    ensures |Footprint(h.m, o)| == Size(h.m[o])
    ensures Footprint(h.m, o) <= Range(h.lo, h.hi)
  {
    assert WfObject(h, o);
    if IsBlock(h.m[o].typ) {
      var r := Range(h.m[o].cdr, h.m[o].cdr + h.m[o].car);
      assert o !in r;
      assert |{o} + r| == 1 + |r|;
    }
  }

  /** Objects own their cells: a new object brings in exactly its size. */
  lemma AreaAdd(h: Heap, s: set<int>, o: int)
    requires Wf(h) && s <= h.objs && o in h.objs && o !in s
    ensures |Area(h, s + {o})| == |Area(h, s)| + Size(h.m[o])
  {
    FootprintSize(h, o);
    var before, added := Area(h, s), Footprint(h.m, o);
    forall c | c in before ensures c !in added {
      var p :| p in s && c in Footprint(h.m, p);
    }
    assert before !! added;
    assert Area(h, s + {o}) == before + added;
  }

  lemma AreaMonotone(h: Heap, s: set<int>, t: set<int>)
    requires Wf(h) && s <= t <= h.objs
    ensures |Area(h, s)| <= |Area(h, t)| <= h.hi - h.lo
  {
    assert Area(h, s) <= Area(h, t);
    SubsetSize(Area(h, s), Area(h, t));
    forall o | o in t ensures Footprint(h.m, o) <= Range(h.lo, h.hi) {
      FootprintSize(h, o);
    }
    SubsetSize(Area(h, t), Range(h.lo, h.hi));
  }

  lemma LiveClosed(h: Heap, roots: set<int>, o: int, p: int)
    requires Wf(h) && o in Live(h, roots) && p in h.objs && Refs(h, o, p)
    ensures p in Live(h, roots)
  {
    var path :| Path(h, roots, path) && path[|path| - 1] == o;
    var next := path + [p];
    assert Path(h, roots, next);
    assert next[|next| - 1] == p;
  }

  lemma RootLive(h: Heap, roots: set<int>, r: int)
    requires Wf(h) && r in roots && r in h.objs
    ensures r in Live(h, roots)
  {
    assert Path(h, roots, [r]);
    assert [r][|[r]| - 1] == r;
  }

  lemma RootsLive(h: Heap, roots: set<int>)
    requires Wf(h) && roots <= h.objs
    ensures roots <= Live(h, roots)
  {
    forall o | o in roots ensures o in Live(h, roots) {
      RootLive(h, roots, o);
    }
  }

  /** A set with the roots that is closed under references holds every
      reachable object. */
  lemma LiveLeast(h: Heap, roots: set<int>, s: set<int>)
    requires Wf(h) && roots <= s
    requires forall o, p :: o in s && o in h.objs && Refs(h, o, p) ==> p in s
    ensures Live(h, roots) <= s
  {
    forall o | o in Live(h, roots) ensures o in s {
      var path :| Path(h, roots, path) && path[|path| - 1] == o;
      PathStays(h, roots, s, path, |path| - 1);
    }
  }

  lemma {:induction false} PathStays(h: Heap, roots: set<int>, s: set<int>, path: seq<int>, k: nat)
    requires Wf(h) && roots <= s && Path(h, roots, path) && k < |path|
    requires forall o, p :: o in s && o in h.objs && Refs(h, o, p) ==> p in s
    ensures path[k] in s
  {
    if k > 0 {
      PathStays(h, roots, s, path, k - 1);
      assert Refs(h, path[k - 1], path[k]);
    }
  }

  /** The j-th cell of a vector or struct. */
  ghost function Entry(h: Heap, o: int, j: int): Cell
    requires 0 <= o < |h.m| && 0 <= h.m[o].cdr + j < |h.m|
  {
    h.m[h.m[o].cdr + j]
  }

  /** Cell `b` is cell `a` with its addresses renamed by `f`. */
  ghost predicate SameCell(a: Cell, b: Cell, f: map<int, int>) {
    && b.typ == a.typ
    && (if TracesCar(a.typ) then a.car in f && b.car == f[a.car] else b.car == a.car)
    && (if TracesCdr(a.typ) then a.cdr in f && b.cdr == f[a.cdr]
        else IsBlock(a.typ) || a.typ == TBYTES || b.cdr == a.cdr)
  }

  /** Object `n` of `h'` is object `o` of `h` with its addresses renamed by `f`:
      same tag, length, data words, entries and bytes. */
  ghost predicate SameObject(h: Heap, o: int, h': Heap, n: int, f: map<int, int>)
    requires WfObject(h, o) && WfObject(h', n)
  {
    && SameCell(h.m[o], h'.m[n], f)
    && (h.m[o].typ == TBYTES ==> BlockBytes(h'.m[n]) == BlockBytes(h.m[o]))
    && (IsBlock(h.m[o].typ) ==>
          forall j :: 0 <= j < h.m[o].car ==> SameCell(Entry(h, o, j), Entry(h', n, j), f))
  }

  ghost function Image(f: map<int, int>): set<int> {
    set o | o in f :: f[o]
  }

  /** `f` is an isomorphism from the objects `s` of `h` onto the whole of `h'`. */
  ghost predicate Isomorphic(h: Heap, s: set<int>, h': Heap, f: map<int, int>)
    requires Wf(h) && Wf(h')
  {
    && s <= h.objs && f.Keys == s && Image(f) == h'.objs
    && (forall o, p :: o in f && p in f && o != p ==> f[o] != f[p])
    && (forall o :: o in f ==> SameObject(h, o, h', f[o], f))
  }
}
