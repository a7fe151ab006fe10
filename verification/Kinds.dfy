/** What a collection does with each kind of object, kind by kind: which words
    are addresses that follow their objects, and which are data that stay. */
module Kinds {
  import opened Bytes
  import opened Cells
  import opened Collector
  import Decoding

  /** An address: of an object that is kept, and of its copy in the copy. */
  ghost predicate Follows(a: int, a': int, g: map<int, int>) {
    a in g && a' == g[a]
  }

  /** The words of a cell and of its copy. */
  ghost predicate Kept(c: Cell, c': Cell, g: map<int, int>) {
    && c'.typ == c.typ
    && (c.typ == TPAIR || c.typ == TMACRO ==> Follows(c.car, c'.car, g) && Follows(c.cdr, c'.cdr, g))
    && (c.typ == TREF || c.typ == TBINDING ==> Follows(c.car, c'.car, g) && c'.cdr == c.cdr)
    && (c.typ == TCLOSURE || c.typ == TCONTINUATION || c.typ == TVALUES ==>
          c'.car == c.car && Follows(c.cdr, c'.cdr, g))
    && (c.typ == TSTRING || c.typ == TSYMBOL || c.typ == TKEYWORD || c.typ == TSPECIAL || c.typ == TPORT ==>
          c'.car == c.car && Follows(c.cdr, c'.cdr, g))
    && (c.typ == TNUMBER || c.typ == TCHAR ==> c'.car == c.car && c'.cdr == c.cdr)
    && (c.typ == TBYTES ==> c'.car == c.car <= |c.payload| && c.car <= |c'.payload|)
    && (c.typ == TVECTOR || c.typ == TSTRUCT ==> c'.car == c.car)
  }

  /** An object and its copy: the header, the bytes, and the elements. */
  ghost predicate KeptWhole(h: Heap, o: int, h': Heap, o': int, g: map<int, int>)
    requires Wf(h) && Wf(h') && o in h.objs && o' in h'.objs
  {
    assert WfObject(h, o) && WfObject(h', o');
    && Kept(h.m[o], h'.m[o'], g)
    && (h.m[o].typ == TBYTES ==> 0 <= h.m[o].car && h'.m[o'].payload[..h.m[o].car] == h.m[o].payload[..h.m[o].car])
    && (h.m[o].typ == TVECTOR || h.m[o].typ == TSTRUCT ==>
          forall j :: 0 <= j < h.m[o].car ==> Kept(Entry(h, o, j), Entry(h', o', j), g))
  }

  lemma CellKept(h: Heap, live: set<int>, c: Cell, c': Cell, g: map<int, int>)
    requires Wf(h) && g.Keys == live && SameCell(c, c', g)
    requires c.typ == TBYTES ==> HasBytes(c) && HasBytes(c')
    ensures Kept(c, c', g)
  {
  }

  /** Every object that is kept is kept whole, whatever its kind. */
  lemma ObjectKept(h: Heap, live: set<int>, h': Heap, g: map<int, int>, o: int)
    requires Wf(h) && Wf(h') && Isomorphic(h, live, h', g) && o in live
    ensures o in g && g[o] in h'.objs && 0 <= o < |h.m| && 0 <= g[o] < |h'.m| && KeptWhole(h, o, h', g[o], g)
  {
    assert g[o] in Image(g);
    assert WfObject(h, o) && WfObject(h', g[o]) && SameObject(h, o, h', g[o], g);
    hide Wf, Isomorphic, WfObject, SameCell;
    CellKept(h, live, h.m[o], h'.m[g[o]], g);
  }
  /** A name stays the same name: of strings, symbols, keywords and special
      values. */
  lemma NameKept(h: Heap, live: set<int>, h': Heap, g: map<int, int>, o: int, typ: int, s: string)
    requires Wf(h) && Wf(h') && Isomorphic(h, live, h', g) && o in live
    requires typ == TSTRING || typ == TSYMBOL || typ == TKEYWORD || typ == TSPECIAL
    ensures g[o] in h'.objs && (Decoding.IsNamed(h', g[o], typ, s) <==> Decoding.IsNamed(h, o, typ, s))
  {
    hide Wf, Isomorphic, Decoding.CodesOf;
    ObjectKept(h, live, h', g, o);
    IsomorphicKeys(h, live, h', g);
    if h.m[o].typ == typ {
      ObjectKept(h, live, h', g, h.m[o].cdr);
      var b, b' := h.m[h.m[o].cdr], h'.m[h'.m[g[o]].cdr];
      if b.typ == TBYTES {
        assert BlockBytes(b') == BlockBytes(b);
      }
    }
  }

  lemma IsomorphicKeys(h: Heap, live: set<int>, h': Heap, g: map<int, int>)
    requires Wf(h) && Wf(h') && Isomorphic(h, live, h', g)
    ensures g.Keys == live <= h.objs
  {
  }

  /** After a collection every object that could be reached is whole, kind by
      kind, and has the name it had. */
  lemma CollectionKeeps(h: Heap, h': Heap, g: map<int, int>, names: seq<int>, names': seq<int>,
                        slots: seq<int>, slots': seq<int>, sp: int, nil: int, symbolMax: int, o: int)
    requires Wf(h)
    requires Preserves(h, Live(h, RootSet(names, slots, sp, nil, symbolMax)), h', g, names, names', slots, slots',
                       sp, nil, symbolMax)
    requires o in Live(h, RootSet(names, slots, sp, nil, symbolMax))
    ensures Wf(h') && o in g && g[o] in h'.objs && KeptWhole(h, o, h', g[o], g)
    ensures forall s :: Decoding.IsNamed(h', g[o], TKEYWORD, s) <==> Decoding.IsNamed(h, o, TKEYWORD, s)
    ensures forall s :: Decoding.IsNamed(h', g[o], TSYMBOL, s) <==> Decoding.IsNamed(h, o, TSYMBOL, s)
    ensures forall s :: Decoding.IsNamed(h', g[o], TSTRING, s) <==> Decoding.IsNamed(h, o, TSTRING, s)
    ensures forall s :: Decoding.IsNamed(h', g[o], TSPECIAL, s) <==> Decoding.IsNamed(h, o, TSPECIAL, s)
  {
    var live := Live(h, RootSet(names, slots, sp, nil, symbolMax));
    hide RootSet, Wf, Isomorphic, Renamed, Decoding.IsNamed;
    ObjectKept(h, live, h', g, o);
    forall s ensures Decoding.IsNamed(h', g[o], TKEYWORD, s) <==> Decoding.IsNamed(h, o, TKEYWORD, s) {
      NameKept(h, live, h', g, o, TKEYWORD, s);
    }
    forall s ensures Decoding.IsNamed(h', g[o], TSYMBOL, s) <==> Decoding.IsNamed(h, o, TSYMBOL, s) {
      NameKept(h, live, h', g, o, TSYMBOL, s);
    }
    forall s ensures Decoding.IsNamed(h', g[o], TSTRING, s) <==> Decoding.IsNamed(h, o, TSTRING, s) {
      NameKept(h, live, h', g, o, TSTRING, s);
    }
    forall s ensures Decoding.IsNamed(h', g[o], TSPECIAL, s) <==> Decoding.IsNamed(h, o, TSPECIAL, s) {
      NameKept(h, live, h', g, o, TSPECIAL, s);
    }
  }
}
