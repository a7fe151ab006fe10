/** What an isomorphism of heaps means to a program.

    A program sees the heap by following fields from its roots and looking at
    tags, lengths, data words and bytes, and by asking whether two walks end at
    the same object. */
module Graph {
  import opened Bytes
  import opened Cells
  import opened Wrappers

  datatype Selector = Car | Cdr | EntryCar(i: int) | EntryCdr(i: int)

  ghost function CarOf(c: Cell): Option<int> {
    if TracesCar(c.typ) then Some(c.car) else None
  }

  ghost function CdrOf(c: Cell): Option<int> {
    if TracesCdr(c.typ) then Some(c.cdr) else None
  }

  /** Follows one field of an object. */
  ghost function Select(h: Heap, o: int, s: Selector): (r: Option<int>)
    requires Wf(h) && o in h.objs
    ensures r.Some? ==> Refs(h, o, r.value) && r.value in h.objs
  {
    assert WfObject(h, o);
    match s
    case Car => CarOf(h.m[o])
    case Cdr => CdrOf(h.m[o])
    case EntryCar(i) =>
      if IsBlock(h.m[o].typ) && 0 <= i < h.m[o].car then
        assert WfEntry(h.m[h.m[o].cdr + i], h.objs);
        CarOf(Entry(h, o, i))
      else None
    case EntryCdr(i) =>
      if IsBlock(h.m[o].typ) && 0 <= i < h.m[o].car then
        assert WfEntry(h.m[h.m[o].cdr + i], h.objs);
        CdrOf(Entry(h, o, i))
      else None
  }

  /** Follows a walk of fields; None if a field is not there. */
  ghost function Follow(h: Heap, o: int, walk: seq<Selector>): (r: Option<int>)
    requires Wf(h) && o in h.objs
    ensures r.Some? ==> r.value in h.objs
    decreases |walk|
  {
    if walk == [] then Some(o)
    else
      var next := Select(h, o, walk[0]);
      if next.None? then None else Follow(h, next.value, walk[1..])
  }

  /** What is in a cell besides addresses. */
  datatype Data = Data(typ: int, car: int, cdr: int)

  ghost function DataOf(c: Cell): Data {
    Data(c.typ, if TracesCar(c.typ) then 0 else c.car,
         if TracesCdr(c.typ) || IsBlock(c.typ) || c.typ == TBYTES then 0 else c.cdr)
  }

  datatype Look = Look(header: Data, bytes: seq<Byte>, entries: seq<Data>)

  /** What can be seen of an object itself. */
  ghost function Observe(h: Heap, o: int): Look
    requires Wf(h) && o in h.objs
  {
    assert WfObject(h, o);
    Look(DataOf(h.m[o]), if h.m[o].typ == TBYTES then BlockBytes(h.m[o]) else [],
         if IsBlock(h.m[o].typ)
         then seq(h.m[o].car, i requires 0 <= i < h.m[o].car => DataOf(Entry(h, o, i)))
         else [])
  }

  ghost function Rename(x: Option<int>, g: map<int, int>): Option<int> {
    if x.Some? && x.value in g then Some(g[x.value]) else None
  }

  /** A set of objects that holds whatever they point at. */
  ghost predicate Downward(h: Heap, live: set<int>)
    requires Wf(h)
  {
    live <= h.objs && forall o, p :: o in live && Refs(h, o, p) ==> p in live
  }

  lemma SelectAgrees(h: Heap, live: set<int>, h': Heap, g: map<int, int>, o: int, s: Selector)
    requires Wf(h) && Wf(h') && Downward(h, live) && Isomorphic(h, live, h', g) && o in live
    ensures g[o] in h'.objs
    ensures Select(h', g[o], s) == Rename(Select(h, o, s), g)
    ensures Select(h, o, s).Some? ==> Select(h, o, s).value in live
  {
    assert g[o] in Image(g);
    assert WfObject(h, o) && WfObject(h', g[o]) && SameObject(h, o, h', g[o], g);
    if (s.EntryCar? || s.EntryCdr?) && IsBlock(h.m[o].typ) && 0 <= s.i < h.m[o].car {
      assert SameCell(Entry(h, o, s.i), Entry(h', g[o], s.i), g);
    }
  }

  /** Walks in the two heaps run in parallel. */
  lemma {:induction false} FollowAgrees(h: Heap, live: set<int>, h': Heap, g: map<int, int>,
                                        o: int, walk: seq<Selector>)
    requires Wf(h) && Wf(h') && Downward(h, live) && Isomorphic(h, live, h', g) && o in live
    ensures g[o] in h'.objs
    ensures Follow(h', g[o], walk) == Rename(Follow(h, o, walk), g)
    ensures Follow(h, o, walk).Some? ==> Follow(h, o, walk).value in live
    decreases |walk|
  {
    assert g[o] in Image(g);
    if walk != [] {
      SelectAgrees(h, live, h', g, o, walk[0]);
      var next := Select(h, o, walk[0]);
      if next.Some? {
        FollowAgrees(h, live, h', g, next.value, walk[1..]);
      }
    }
  }

  lemma ObserveAgrees(h: Heap, live: set<int>, h': Heap, g: map<int, int>, o: int)
    requires Wf(h) && Wf(h') && Isomorphic(h, live, h', g) && o in live
    ensures g[o] in h'.objs && Observe(h', g[o]) == Observe(h, o)
  {
    assert g[o] in Image(g);
    assert WfObject(h, o) && WfObject(h', g[o]) && SameObject(h, o, h', g[o], g);
    if IsBlock(h.m[o].typ) {
      forall i | 0 <= i < h.m[o].car ensures DataOf(Entry(h, o, i)) == DataOf(Entry(h', g[o], i)) {
        assert SameCell(Entry(h, o, i), Entry(h', g[o], i), g);
      }
    }
  }

  lemma LiveDownward(h: Heap, roots: set<int>)
    requires Wf(h)
    ensures Downward(h, Live(h, roots))
  {
    forall o, p | o in Live(h, roots) && Refs(h, o, p) ensures p in Live(h, roots) {
      RefsInside(h, o, p);
      LiveClosed(h, roots, o, p);
    }
  }

  lemma RefsInside(h: Heap, o: int, p: int)
    requires Wf(h) && o in h.objs && Refs(h, o, p)
    ensures p in h.objs
  {
    assert WfObject(h, o);
    if !CellRef(h.m[o], p) {
      var i :| h.m[o].cdr <= i < h.m[o].cdr + h.m[o].car && CellRef(h.m[i], p);
      assert WfEntry(h.m[i], h.objs);
    }
  }

  /** No program can tell a heap from its copy: walks from corresponding roots
      exist in both or in neither, show the same things, and end at the same
      object in one exactly when they do in the other. */
  lemma Indistinguishable(h: Heap, roots: set<int>, h': Heap, g: map<int, int>,
                          r: int, walk: seq<Selector>, r': int, walk': seq<Selector>)
    requires Wf(h) && Wf(h') && roots <= h.objs && Isomorphic(h, Live(h, roots), h', g)
    requires r in roots && r' in roots
    ensures r in g && r' in g && g[r] in h'.objs && g[r'] in h'.objs
    ensures Follow(h', g[r], walk).Some? <==> Follow(h, r, walk).Some?
    ensures Follow(h, r, walk).Some? ==>
      Observe(h', Follow(h', g[r], walk).value) == Observe(h, Follow(h, r, walk).value)
    ensures Follow(h, r, walk).Some? && Follow(h, r', walk').Some? ==>
      (Follow(h', g[r], walk) == Follow(h', g[r'], walk') <==> Follow(h, r, walk) == Follow(h, r', walk'))
  {
    var live := Live(h, roots);
    RootsLive(h, roots);
    LiveDownward(h, roots);
    FollowAgrees(h, live, h', g, r, walk);
    FollowAgrees(h, live, h', g, r', walk');
    var o := Follow(h, r, walk);
    if o.Some? {
      ObserveAgrees(h, live, h', g, o.value);
    }
  }

  /** The copy of an object is one of the objects of the copy, as large as the
      original, and the copy of nothing else. */
  lemma ObjectAgrees(h: Heap, live: set<int>, h': Heap, g: map<int, int>, o: int)
    requires Wf(h) && Wf(h') && Isomorphic(h, live, h', g) && o in live
    ensures o in g && o in h.objs && g[o] in h'.objs
    ensures 0 <= o < |h.m| && 0 <= g[o] < |h'.m| && Size(h'.m[g[o]]) == Size(h.m[o])
    ensures forall p :: p in live && p != o ==> p in g && g[p] != g[o]
  {
    assert g[o] in Image(g);
    assert WfObject(h, o) && SameObject(h, o, h', g[o], g);
  }

  lemma RefsAgree(h: Heap, live: set<int>, h': Heap, g: map<int, int>, o: int, p: int)
    requires Wf(h) && Wf(h') && Downward(h, live) && Isomorphic(h, live, h', g)
    requires o in live && Refs(h, o, p)
    ensures p in live && g[o] in h'.objs && Refs(h', g[o], g[p])
  {
    ObjectAgrees(h, live, h', g, o);
    assert WfObject(h, o) && WfObject(h', g[o]) && SameObject(h, o, h', g[o], g);
    if !CellRef(h.m[o], p) {
      var i :| h.m[o].cdr <= i < h.m[o].cdr + h.m[o].car && CellRef(h.m[i], p);
      var j := i - h.m[o].cdr;
      assert SameCell(Entry(h, o, j), Entry(h', g[o], j), g);
      assert CellRef(h'.m[h'.m[g[o]].cdr + j], g[p]);
    }
  }

  /** Reachability carries over: a copy holds no garbage. */
  lemma CopyIsLive(h: Heap, roots: set<int>, h': Heap, g: map<int, int>, roots': set<int>)
    requires Wf(h) && Wf(h') && roots <= h.objs && Isomorphic(h, Live(h, roots), h', g)
    requires forall r :: r in roots && r in g ==> g[r] in roots'
    ensures Live(h', roots') == h'.objs
  {
    forall n | n in h'.objs ensures n in Live(h', roots') {
      var o :| o in g && g[o] == n;
      var path :| Path(h, roots, path) && path[|path| - 1] == o;
      PathAgrees(h, roots, h', g, roots', path, |path| - 1);
    }
  }

  lemma {:induction false} PathAgrees(h: Heap, roots: set<int>, h': Heap, g: map<int, int>, roots': set<int>,
                                      path: seq<int>, k: nat)
    requires Wf(h) && Wf(h') && roots <= h.objs && Isomorphic(h, Live(h, roots), h', g)
    requires forall r :: r in roots && r in g ==> g[r] in roots'
    requires Path(h, roots, path) && k < |path|
    ensures path[k] in g && g[path[k]] in Live(h', roots')
  {
    var o := path[k];
    if k == 0 {
      RootAgrees(h, roots, h', g, roots', o);
    } else {
      PathAgrees(h, roots, h', g, roots', path, k - 1);
      assert Refs(h, path[k - 1], o);
      StepAgrees(h, roots, h', g, roots', path[k - 1], o);
    }
  }

  lemma RootAgrees(h: Heap, roots: set<int>, h': Heap, g: map<int, int>, roots': set<int>, r: int)
    requires Wf(h) && Wf(h') && roots <= h.objs && Isomorphic(h, Live(h, roots), h', g)
    requires forall r :: r in roots && r in g ==> g[r] in roots'
    requires r in roots
    ensures r in g && g[r] in Live(h', roots')
  {
    RootLive(h, roots, r);
    assert g[r] in Image(g);
    RootLive(h', roots', g[r]);
  }

  lemma StepAgrees(h: Heap, roots: set<int>, h': Heap, g: map<int, int>, roots': set<int>, o: int, p: int)
    requires Wf(h) && Wf(h') && roots <= h.objs && Isomorphic(h, Live(h, roots), h', g)
    requires o in g && g[o] in Live(h', roots') && Refs(h, o, p)
    ensures p in g && g[p] in Live(h', roots')
  {
    LiveDownward(h, roots);
    RefsAgree(h, Live(h, roots), h', g, o, p);
    assert g[p] in Image(g);
    LiveClosed(h', roots', g[o], g[p]);
  }

  /** A copy takes as many cells as the original. */
  lemma {:induction false} AreaAgrees(h: Heap, live: set<int>, h': Heap, g: map<int, int>, s: set<int>)
    requires Wf(h) && Wf(h') && Isomorphic(h, live, h', g) && s <= live
    ensures (set o | o in s :: g[o]) <= h'.objs
    ensures |Area(h', set o | o in s :: g[o])| == |Area(h, s)|
  {
    hide Footprint, Size;
    forall o | o in s ensures o in g && o in h.objs && g[o] in h'.objs {
      ObjectAgrees(h, live, h', g, o);
    }
    var s' := set o | o in s :: g[o];
    if o :| o in s {
      ObjectAgrees(h, live, h', g, o);
      var t := s - {o};
      AreaAgrees(h, live, h', g, t);
      AreaAdd(h, t, o);
      assert t + {o} == s;
      var t' := set p | p in t :: g[p];
      AreaAdd(h', t', g[o]);
      assert t' + {g[o]} == s';
    } else {
      assert s' == {} && Area(h, s) == {} && Area(h', s') == {};
    }
  }
}
