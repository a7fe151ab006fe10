/** What the cells of the arena stand for: the values that the interpreter works
    with.  A collection at any time, and whatever is made in between, leaves
    these values alone. */
module Decoding {
  import opened Bytes
  import opened Cells
  import opened Collector
  import Graph
  import Mutator
  import opened Values
  import opened Wrappers

  function CodesOf(s: string): Text {
    seq(|s|, i requires 0 <= i < |s| => s[i] as int % 256)
  }

  /** The names of the symbols that the evaluator knows. */
  function NameOf(s: Symbol): string {
    match s
    case Quote => "quote"
    case Begin => "begin"
    case Lambda => "lambda"
    case If => "if"
    case Set => "set!"
    case Define => "define"
    case DefineMacro => "define-macro"
    case CallCc => "call-with-current-continuation"
    case CallWithValues => "call-with-values"
    case CurrentEnvironment => "current-environment"
    case Named(name) => name
  }

  function SpecialName(v: Value): string {
    match v
    case Nil => "()"
    case False => "#f"
    case True => "#t"
    case Unspecified => "*unspecified*"
    case Undefined => "*undefined*"
    case ClosureMark => "*closure*"
    case _ => "*circular*"
  }

  ghost predicate IsCell(h: Heap, o: int, typ: int)
    requires Wf(h)
  {
    o in h.objs && 0 <= o < |h.m| && h.m[o].typ == typ
  }

  /** A cell with the length of a text, and a byte block that begins with it. */
  ghost predicate IsNamed(h: Heap, o: int, typ: int, s: string)
    requires Wf(h)
  {
    && IsCell(h, o, typ) && h.m[o].car == |s| && IsCell(h, h.m[o].cdr, TBYTES)
    && var bytes := BlockBytes(h.m[h.m[o].cdr]);
       |s| <= |bytes| && bytes[..|s|] == CodesOf(s)
  }

  /** The parts of a closure. */
  ghost predicate IsClosure(h: Heap, o: int)
    requires Wf(h)
  {
    && IsCell(h, o, TCLOSURE) && IsCell(h, h.m[o].cdr, TPAIR)
    && IsCell(h, h.m[h.m[o].cdr].car, TPAIR) && IsCell(h, h.m[h.m[o].cdr].cdr, TPAIR)
    && IsNamed(h, h.m[h.m[h.m[o].cdr].car].car, TSPECIAL, SpecialName(CircularMark))
  }

  /** Object `o` stands for the value. */
  ghost predicate Means(h: Heap, o: int, v: Value)
    requires Wf(h)
    decreases v
  {
    match v
    case Num(n) => IsCell(h, o, TNUMBER) && h.m[o].cdr == n
    case Chr(n) => IsCell(h, o, TCHAR) && h.m[o].cdr == n
    case Str(s) => IsNamed(h, o, TSTRING, s)
    case Sym(s) => IsNamed(h, o, TSYMBOL, NameOf(s))
    case Pair(a, d) => IsCell(h, o, TPAIR) && Means(h, h.m[o].car, a) && Means(h, h.m[o].cdr, d)
    case Multiple(l) => IsCell(h, o, TVALUES) && Means(h, h.m[o].cdr, l)
    case Closure(f, b, env) =>
      && IsClosure(h, o)
      && var p := h.m[h.m[o].cdr];
         Means(h, h.m[p.cdr].car, f) && Means(h, h.m[p.cdr].cdr, b) && Means(h, h.m[p.car].cdr, env)
    case _ => Constant(v) && IsNamed(h, o, TSPECIAL, SpecialName(v))
  }

  /** The fields of an object and of its copy. */
  lemma FieldsAgree(h: Heap, live: set<int>, h': Heap, g: map<int, int>, o: int, typ: int)
    requires Wf(h) && Wf(h') && Graph.Downward(h, live) && Isomorphic(h, live, h', g) && o in live
    ensures IsCell(h', g[o], typ) <==> IsCell(h, o, typ)
    ensures 0 <= o < |h.m| && 0 <= g[o] < |h'.m|
    ensures if TracesCar(h.m[o].typ) then h.m[o].car in live && h'.m[g[o]].car == g[h.m[o].car]
            else h'.m[g[o]].car == h.m[o].car
    ensures if TracesCdr(h.m[o].typ) then h.m[o].cdr in live && h'.m[g[o]].cdr == g[h.m[o].cdr]
            else IsBlock(h.m[o].typ) || h.m[o].typ == TBYTES || h'.m[g[o]].cdr == h.m[o].cdr
    ensures h.m[o].typ == TBYTES ==> BlockBytes(h'.m[g[o]]) == BlockBytes(h.m[o])
  {
    assert g[o] in Image(g);
    assert WfObject(h, o) && WfObject(h', g[o]) && SameObject(h, o, h', g[o], g);
    assert TracesCar(h.m[o].typ) ==> Refs(h, o, h.m[o].car);
    assert TracesCdr(h.m[o].typ) ==> Refs(h, o, h.m[o].cdr);
  }

  lemma NamedAgree(h: Heap, live: set<int>, h': Heap, g: map<int, int>, o: int, typ: int, s: string)
    requires Wf(h) && Wf(h') && Graph.Downward(h, live) && Isomorphic(h, live, h', g) && o in live
    requires TracesCdr(typ) && !TracesCar(typ)
    ensures IsNamed(h', g[o], typ, s) <==> IsNamed(h, o, typ, s)
  {
    hide Wf, Isomorphic, CodesOf;
    FieldsAgree(h, live, h', g, o, typ);
    if IsCell(h, o, typ) {
      FieldsAgree(h, live, h', g, h.m[o].cdr, TBYTES);
    }
  }

  lemma ClosureAgree(h: Heap, live: set<int>, h': Heap, g: map<int, int>, o: int)
    requires Wf(h) && Wf(h') && Graph.Downward(h, live) && Isomorphic(h, live, h', g) && o in live
    ensures IsClosure(h', g[o]) <==> IsClosure(h, o)
    ensures IsClosure(h, o) ==>
      var p, p' := h.m[h.m[o].cdr], h'.m[h'.m[g[o]].cdr];
      && h.m[p.cdr].car in live && h'.m[p'.cdr].car == g[h.m[p.cdr].car]
      && h.m[p.cdr].cdr in live && h'.m[p'.cdr].cdr == g[h.m[p.cdr].cdr]
      && h.m[p.car].cdr in live && h'.m[p'.car].cdr == g[h.m[p.car].cdr]
  {
    hide Wf, Isomorphic, IsNamed;
    FieldsAgree(h, live, h', g, o, TCLOSURE);
    if IsCell(h, o, TCLOSURE) {
      var p := h.m[o].cdr;
      FieldsAgree(h, live, h', g, p, TPAIR);
      if IsCell(h, p, TPAIR) {
        FieldsAgree(h, live, h', g, h.m[p].car, TPAIR);
        FieldsAgree(h, live, h', g, h.m[p].cdr, TPAIR);
        if IsCell(h, h.m[p].car, TPAIR) {
          NamedAgree(h, live, h', g, h.m[h.m[p].car].car, TSPECIAL, SpecialName(CircularMark));
        }
      }
    }
  }

  /** The copy of an object stands for the value that the object stood for. */
  lemma {:induction false} MeansAgrees(h: Heap, live: set<int>, h': Heap, g: map<int, int>, o: int, v: Value)
    requires Wf(h) && Wf(h') && Graph.Downward(h, live) && Isomorphic(h, live, h', g) && o in live
    ensures Means(h', g[o], v) <==> Means(h, o, v)
    decreases v
  {
    hide Wf, Isomorphic, IsNamed, Graph.Downward;
    match v
    case Num(_) => FieldsAgree(h, live, h', g, o, TNUMBER);
    case Chr(_) => FieldsAgree(h, live, h', g, o, TCHAR);
    case Str(s) => NamedAgree(h, live, h', g, o, TSTRING, s);
    case Sym(s) => NamedAgree(h, live, h', g, o, TSYMBOL, NameOf(s));
    case Pair(a, d) =>
      FieldsAgree(h, live, h', g, o, TPAIR);
      if IsCell(h, o, TPAIR) {
        MeansAgrees(h, live, h', g, h.m[o].car, a);
        MeansAgrees(h, live, h', g, h.m[o].cdr, d);
      }
    case Multiple(l) =>
      FieldsAgree(h, live, h', g, o, TVALUES);
      if IsCell(h, o, TVALUES) {
        MeansAgrees(h, live, h', g, h.m[o].cdr, l);
      }
    case Closure(f, b, env) =>
      ClosureAgree(h, live, h', g, o);
      if IsClosure(h, o) {
        var p := h.m[h.m[o].cdr];
        MeansAgrees(h, live, h', g, h.m[p.cdr].car, f);
        MeansAgrees(h, live, h', g, h.m[p.cdr].cdr, b);
        MeansAgrees(h, live, h', g, h.m[p.car].cdr, env);
      }
    case _ => NamedAgree(h, live, h', g, o, TSPECIAL, SpecialName(v));
  }

  /** Texts and symbols that are written in one way only. */
  predicate Canonical(v: Value) {
    match v
    case Str(s) => AllBytes(s)
    case Sym(Named(name)) => AllBytes(name) && !Reserved(name)
    case Pair(a, d) => Canonical(a) && Canonical(d)
    case Multiple(l) => Canonical(l)
    case Closure(f, b, env) => Canonical(f) && Canonical(b) && Canonical(env)
    case _ => true
  }

  predicate AllBytes(s: string) {
    forall i :: 0 <= i < |s| ==> s[i] as int < 256
  }

  predicate Reserved(name: string) {
    || name == "quote" || name == "begin" || name == "lambda" || name == "if" || name == "set!" || name == "define"
    || name == "define-macro" || name == "call-with-current-continuation" || name == "call-with-values"
    || name == "current-environment"
  }

  lemma CodesOnce(s: string, t: string)
    requires AllBytes(s) && AllBytes(t) && CodesOf(s) == CodesOf(t)
    ensures s == t
  {
    assert |CodesOf(s)| == |s| && |CodesOf(t)| == |t|;
    forall i | 0 <= i < |s| ensures s[i] == t[i] {
      assert CodesOf(s)[i] == CodesOf(t)[i];
    }
  }

  lemma NamesOnce(x: Symbol, y: Symbol)
    requires Canonical(Sym(x)) && Canonical(Sym(y)) && NameOf(x) == NameOf(y)
    ensures x == y
  {
    assert "quote"[0] == 'q' && "begin"[0] == 'b' && "lambda"[0] == 'l' && "define"[0] == 'd';
  }

  lemma SymbolBytes(x: Symbol)
    requires Canonical(Sym(x))
    ensures AllBytes(NameOf(x))
  {
  }

  lemma NamedOnce(h: Heap, o: int, typ: int, s: string, t: string)
    requires Wf(h) && AllBytes(s) && AllBytes(t) && IsNamed(h, o, typ, s) && IsNamed(h, o, typ, t)
    ensures s == t
  {
    CodesOnce(s, t);
  }

  lemma SpecialsOnce(v: Value, w: Value)
    requires Constant(v) && Constant(w) && SpecialName(v) == SpecialName(w)
    ensures v == w
  {
    assert "#f"[1] == 'f' && "#t"[1] == 't' && "()"[0] == '(';
    assert |"*closure*"| == 9 && |"*circular*"| == 10 && |"*undefined*"| == 11 && |"*unspecified*"| == 13;
  }

  /** The tag of the cell that a value is in. */
  function TypeOf(v: Value): int {
    match v
    case Num(_) => TNUMBER
    case Chr(_) => TCHAR
    case Str(_) => TSTRING
    case Sym(_) => TSYMBOL
    case Pair(_, _) => TPAIR
    case Multiple(_) => TVALUES
    case Closure(_, _, _) => TCLOSURE
    case _ => TSPECIAL
  }

  lemma MeansType(h: Heap, o: int, v: Value)
    requires Wf(h) && Means(h, o, v)
    ensures IsCell(h, o, TypeOf(v))
    ensures TypeOf(v) == TSPECIAL ==> Constant(v)
  {
  }

  lemma SpecialBytes(v: Value)
    ensures AllBytes(SpecialName(v))
  {
  }

  /** An object stands for one value at most. */
  lemma {:induction false} MeansOne(h: Heap, o: int, v: Value, w: Value)
    requires Wf(h) && Means(h, o, v) && Means(h, o, w) && Canonical(v) && Canonical(w)
    ensures v == w
    decreases v
  {
    hide Wf, IsNamed;
    MeansType(h, o, v);
    MeansType(h, o, w);
    assert TypeOf(v) == TypeOf(w);
    match v
    case Num(_) =>
    case Chr(_) =>
    case Str(s) => NamedOnce(h, o, TSTRING, s, w.s);
    case Sym(x) =>
      SymbolBytes(x);
      SymbolBytes(w.sym);
      NamedOnce(h, o, TSYMBOL, NameOf(x), NameOf(w.sym));
      NamesOnce(x, w.sym);
    case Pair(a, d) =>
      MeansOne(h, h.m[o].car, a, w.car);
      MeansOne(h, h.m[o].cdr, d, w.cdr);
    case Multiple(l) => MeansOne(h, h.m[o].cdr, l, w.list);
    case Closure(f, b, env) =>
      var p := h.m[h.m[o].cdr];
      MeansOne(h, h.m[p.cdr].car, f, w.formals);
      MeansOne(h, h.m[p.cdr].cdr, b, w.body);
      MeansOne(h, h.m[p.car].cdr, env, w.env);
    case _ =>
      SpecialBytes(v);
      SpecialBytes(w);
      NamedOnce(h, o, TSPECIAL, SpecialName(v), SpecialName(w));
      SpecialsOnce(v, w);
  }

  /** What has been copied stands for what it stood for. */
  lemma CopyMeans(h: Heap, h': Heap, g: map<int, int>, names: seq<int>, names': seq<int>,
                  slots: seq<int>, slots': seq<int>, sp: int, nil: int, symbolMax: int, o: int, v: Value)
    requires Wf(h)
    requires Preserves(h, Live(h, RootSet(names, slots, sp, nil, symbolMax)), h', g, names, names', slots, slots',
                       sp, nil, symbolMax)
    requires o in g
    ensures Wf(h') && (Means(h', g[o], v) <==> Means(h, o, v))
  {
    var roots := RootSet(names, slots, sp, nil, symbolMax);
    Graph.LiveDownward(h, roots);
    hide Means, RootSet, Wf, Graph.Downward, Renamed;
    MeansAgrees(h, Live(h, roots), h', g, o, v);
  }

  /** After a collection the roots stand for what they stood for. */
  lemma RootsMean(h: Heap, h': Heap, g: map<int, int>, names: seq<int>, names': seq<int>,
                  slots: seq<int>, slots': seq<int>, sp: int, nil: int, symbolMax: int, v: Value)
    requires Wf(h) && 0 <= sp
    requires Preserves(h, Live(h, RootSet(names, slots, sp, nil, symbolMax)), h', g, names, names', slots, slots',
                       sp, nil, symbolMax)
    ensures Wf(h') && |names'| == |names| && |slots'| == |slots|
    ensures forall i :: 0 <= i < |names| ==> (Means(h', names'[i], v) <==> Means(h, names[i], v))
    ensures forall i :: sp <= i < |slots| ==> (Means(h', slots'[i], v) <==> Means(h, slots[i], v))
    ensures forall s :: nil <= s < symbolMax ==> (Means(h', s, v) <==> Means(h, s, v))
  {
    hide Means, Wf, Isomorphic, Live, RootSet;
    forall i | 0 <= i < |names| ensures Means(h', names'[i], v) <==> Means(h, names[i], v) {
      CopyMeans(h, h', g, names, names', slots, slots', sp, nil, symbolMax, names[i], v);
    }
    forall i | sp <= i < |slots| ensures Means(h', slots'[i], v) <==> Means(h, slots[i], v) {
      CopyMeans(h, h', g, names, names', slots, slots', sp, nil, symbolMax, slots[i], v);
    }
    forall s | nil <= s < symbolMax ensures Means(h', s, v) <==> Means(h, s, v) {
      CopyMeans(h, h', g, names, names', slots, slots', sp, nil, symbolMax, s, v);
    }
  }

  /** All objects keep their cells; there may be others. */
  ghost predicate Extends(h: Heap, h': Heap)
    requires Wf(h)
  {
    h.objs <= h'.objs && |h.m| <= |h'.m| && forall p :: p in h.objs && 0 <= p < |h.m| ==> h'.m[p] == h.m[p]
  }

  lemma FieldsStay(h: Heap, h': Heap, o: int)
    requires Wf(h) && Wf(h') && Extends(h, h') && o in h.objs
    ensures 0 <= o < |h.m| <= |h'.m| && o in h'.objs && h'.m[o] == h.m[o]
    ensures TracesCar(h.m[o].typ) ==> h.m[o].car in h.objs
    ensures TracesCdr(h.m[o].typ) ==> h.m[o].cdr in h.objs
  {
    assert WfObject(h, o);
  }

  lemma NamedStays(h: Heap, h': Heap, o: int, typ: int, s: string)
    requires Wf(h) && Wf(h') && Extends(h, h') && o in h.objs && TracesCdr(typ)
    ensures IsNamed(h', o, typ, s) <==> IsNamed(h, o, typ, s)
  {
    hide Wf, Extends, CodesOf;
    FieldsStay(h, h', o);
    if h.m[o].typ == typ {
      FieldsStay(h, h', h.m[o].cdr);
    }
  }

  lemma ClosureStays(h: Heap, h': Heap, o: int)
    requires Wf(h) && Wf(h') && Extends(h, h') && o in h.objs
    ensures IsClosure(h', o) <==> IsClosure(h, o)
    ensures IsClosure(h, o) ==>
      var p := h.m[h.m[o].cdr];
      && h.m[o].cdr < |h'.m| && h'.m[o] == h.m[o] && h'.m[h.m[o].cdr] == p
      && p.cdr < |h'.m| && h'.m[p.cdr] == h.m[p.cdr] && p.car < |h'.m| && h'.m[p.car] == h.m[p.car]
      && h.m[p.cdr].car in h.objs && h.m[p.cdr].cdr in h.objs && h.m[p.car].cdr in h.objs
  {
    hide Wf, Extends, IsNamed;
    FieldsStay(h, h', o);
    if h.m[o].typ == TCLOSURE {
      var p := h.m[o].cdr;
      FieldsStay(h, h', p);
      if h.m[p].typ == TPAIR {
        FieldsStay(h, h', h.m[p].car);
        FieldsStay(h, h', h.m[p].cdr);
        if h.m[h.m[p].car].typ == TPAIR {
          NamedStays(h, h', h.m[h.m[p].car].car, TSPECIAL, SpecialName(CircularMark));
        }
      }
    }
  }

  /** Objects that keep their cells stand for what they stood for, whatever
      there is besides. */
  lemma {:induction false} MeansStays(h: Heap, h': Heap, o: int, v: Value)
    requires Wf(h) && Wf(h') && Extends(h, h') && o in h.objs
    ensures Means(h', o, v) <==> Means(h, o, v)
    decreases v
  {
    hide Wf, Extends, IsNamed;
    FieldsStay(h, h', o);
    match v
    case Num(_) =>
    case Chr(_) =>
    case Str(s) => NamedStays(h, h', o, TSTRING, s);
    case Sym(s) => NamedStays(h, h', o, TSYMBOL, NameOf(s));
    case Pair(a, d) =>
      if h.m[o].typ == TPAIR {
        MeansStays(h, h', h.m[o].car, a);
        MeansStays(h, h', h.m[o].cdr, d);
      }
    case Multiple(l) =>
      if h.m[o].typ == TVALUES {
        MeansStays(h, h', h.m[o].cdr, l);
      }
    case Closure(f, b, env) =>
      ClosureStays(h, h', o);
      if IsClosure(h, o) {
        var p := h.m[h.m[o].cdr];
        MeansStays(h, h', h.m[p.cdr].car, f);
        MeansStays(h, h', h.m[p.cdr].cdr, b);
        MeansStays(h, h', h.m[p.car].cdr, env);
      }
    case _ => NamedStays(h, h', o, TSPECIAL, SpecialName(v));
  }

  /** What the interpreter does with its registers, and a collection, which may
      come at any time. */
  datatype Op =
    | Collect
    | Move(dst: nat, x: nat)
    | MakeNumber(dst: nat, n: int)
    | Cons(dst: nat, x: nat, y: nat)
    | Car(dst: nat, x: nat)
    | Cdr(dst: nat, x: nat)
  {
    predicate Valid() {
      && (!Collect? ==> dst < 4) && (Move? || Cons? || Car? || Cdr? ==> x < 4) && (Cons? ==> y < 4)
    }

    /** The values of the registers afterwards; a collection does nothing. */
    function Effect(vs: seq<Value>): Option<seq<Value>>
      requires Valid() && |vs| == 4
    {
      match this
      case Collect => Some(vs)
      case Move(dst, x) => Some(vs[dst := vs[x]])
      case MakeNumber(dst, n) => Some(vs[dst := Num(n)])
      case Cons(dst, x, y) => Some(vs[dst := Pair(vs[x], vs[y])])
      case Car(dst, x) => if vs[x].Pair? then Some(vs[dst := vs[x].car]) else None
      case Cdr(dst, x) => if vs[x].Pair? then Some(vs[dst := vs[x].cdr]) else None
    }
  }

  ghost function After(ops: seq<Op>, vs: seq<Value>): Option<seq<Value>>
    requires |vs| == 4 && forall i :: 0 <= i < |ops| ==> ops[i].Valid()
  {
    if ops == [] then Some(vs)
    else
      var before := After(ops[..|ops| - 1], vs);
      if before.None? || |before.value| != 4 then None else ops[|ops| - 1].Effect(before.value)
  }

  /** The fields of a new pair are what it was made of. */
  lemma ConsFields(dst: nat, x: nat, y: nat, to: nat, vs: seq<Value>)
    requires |vs| == 4 && dst < 4 && x < 4 && y < 4 && to < 4
    ensures After([Cons(dst, x, y), Op.Car(to, dst)], vs) == Some(vs[dst := Pair(vs[x], vs[y])][to := vs[x]])
    ensures After([Cons(dst, x, y), Op.Cdr(to, dst)], vs) == Some(vs[dst := Pair(vs[x], vs[y])][to := vs[y]])
  {
    var first := [Cons(dst, x, y)];
    assert first[..0] == [] && After([], vs) == Some(vs);
    assert After(first, vs) == Some(vs[dst := Pair(vs[x], vs[y])]);
    AfterOneMore(first, Op.Car(to, dst), vs);
    AfterOneMore(first, Op.Cdr(to, dst), vs);
    assert first + [Op.Car(to, dst)] == [Cons(dst, x, y), Op.Car(to, dst)];
    assert first + [Op.Cdr(to, dst)] == [Cons(dst, x, y), Op.Cdr(to, dst)];
  }

  lemma AfterOneMore(ops: seq<Op>, op: Op, vs: seq<Value>)
    requires |vs| == 4 && op.Valid() && forall i :: 0 <= i < |ops| ==> ops[i].Valid()
    requires After(ops, vs).Some? && |After(ops, vs).value| == 4
    ensures After(ops + [op], vs) == op.Effect(After(ops, vs).value)
  {
    assert (ops + [op])[..|ops|] == ops;
  }

  function Registers(c: Collector): (regs: seq<int>)
    reads c
    ensures |regs| == 4
  {
    [c.r0, c.r1, c.r2, c.r3]
  }

  ghost predicate AllMean(h: Heap, regs: seq<int>, vs: seq<Value>)
    requires Wf(h)
  {
    |regs| == |vs| && forall i :: 0 <= i < |regs| ==> Means(h, regs[i], vs[i])
  }

  /** The registers stand for the values. */
  ghost predicate Stand(c: Collector, vs: seq<Value>)
    reads c, c.cells, c.stack
  {
    c.Ready() && |vs| == 4 && Wf(c.CurrentHeap()) && AllMean(c.CurrentHeap(), Registers(c), vs)
  }

  lemma OneChanged(h: Heap, regs: seq<int>, vs: seq<Value>, i: nat, x: int, v: Value)
    requires Wf(h) && AllMean(h, regs, vs) && i < |regs| && Means(h, x, v)
    ensures AllMean(h, regs[i := x], vs[i := v])
  {
    hide Means;
  }

  method SetRegister(c: Collector, i: nat, x: int, ghost vs: seq<Value>, ghost v: Value)
    requires Stand(c, vs) && i < 4 && x in c.objs && Means(c.CurrentHeap(), x, v)
    modifies c`r0, c`r1, c`r2, c`r3
    ensures Stand(c, vs[i := v])
  {
    hide Means, Wf, AllMean, ValidHeap;
    ghost var h, regs := c.CurrentHeap(), Registers(c);
    OneChanged(h, regs, vs, i, x, v);
    if i == 0 {
      c.r0 := x;
    } else if i == 1 {
      c.r1 := x;
    } else if i == 2 {
      c.r2 := x;
    } else {
      c.r3 := x;
    }
    assert c.CurrentHeap() == h && Registers(c) == regs[i := x];
  }

  /** Room for one more cell, or for a copy of all there is. */
  predicate Room(c: Collector, op: Op)
    reads c, c.cells
  {
    match op
    case Collect => c.free + 2 + (c.free - c.base - 1) <= c.cells.Length
    case MakeNumber(_, _) => c.free < c.cells.Length
    case Cons(_, _, _) => c.free < c.cells.Length
    case _ => true
  }

  /** What there is cannot take more room than it has. */
  lemma RoomForAll(c: Collector)
    requires c.Ready() && Room(c, Collect)
    ensures Wf(c.CurrentHeap()) && c.free + 2 + |Area(c.CurrentHeap(), c.Reached())| <= c.cells.Length
  {
    c.ReadyHeap();
    AreaMonotone(c.CurrentHeap(), c.Reached(), c.CurrentHeap().objs);
  }

  lemma AllAgree(h: Heap, live: set<int>, h': Heap, g: map<int, int>, regs: seq<int>, regs': seq<int>, vs: seq<Value>)
    requires Wf(h) && Wf(h') && Graph.Downward(h, live) && Isomorphic(h, live, h', g) && AllMean(h, regs, vs)
    requires Renamed(regs, 0, |regs|, regs', g)
    ensures AllMean(h', regs', vs)
  {
    hide Means, Graph.Downward;
    forall i | 0 <= i < |regs| ensures Means(h', regs'[i], vs[i]) {
      var w := regs[i];
      assert w in g;
      MeansAgrees(h, live, h', g, w, vs[i]);
    }
  }

  lemma AllStay(h: Heap, h': Heap, regs: seq<int>, vs: seq<Value>)
    requires Wf(h) && Wf(h') && Extends(h, h') && AllMean(h, regs, vs)
    requires forall i :: 0 <= i < |regs| ==> regs[i] in h.objs
    ensures AllMean(h', regs, vs)
  {
    hide Means, Wf, Extends;
    forall i | 0 <= i < |regs| ensures Means(h', regs[i], vs[i]) {
      MeansStays(h, h', regs[i], vs[i]);
    }
  }

  lemma Reordered(a: int, b: int, c: int, d: int, a': int, b': int, c': int, d': int, g: map<int, int>)
    requires Renamed([d, c, b, a], 0, 4, [d', c', b', a'], g)
    ensures Renamed([a, b, c, d], 0, 4, [a', b', c', d'], g)
  {
    var was, now := [d, c, b, a], [d', c', b', a'];
    assert was[0] in g && was[1] in g && was[2] in g && was[3] in g;
    assert now[0] == g[was[0]] && now[1] == g[was[1]] && now[2] == g[was[2]] && now[3] == g[was[3]];
  }

  /** What a collection says of the registers, whose values it keeps. */
  lemma Collected(h: Heap, live: set<int>, h': Heap, g: map<int, int>, names: seq<int>, names': seq<int>,
                  slots: seq<int>, slots': seq<int>, sp: int, nil: int, symbolMax: int,
                  regs: seq<int>, regs': seq<int>, vs: seq<Value>)
    requires Wf(h) && live == Live(h, RootSet(names, slots, sp, nil, symbolMax))
    requires Preserves(h, live, h', g, names, names', slots, slots', sp, nil, symbolMax)
    requires AllMean(h, regs, vs) && Renamed(regs, 0, |regs|, regs', g)
    ensures Wf(h') && AllMean(h', regs', vs)
  {
    Graph.LiveDownward(h, RootSet(names, slots, sp, nil, symbolMax));
    hide Wf, Isomorphic, Live, RootSet, AllMean, Renamed, Graph.Downward;
    AllAgree(h, live, h', g, regs, regs', vs);
  }

  method CollectNow(c: Collector, ghost vs: seq<Value>)
    requires Stand(c, vs) && Room(c, Collect)
    modifies c, c.cells, c.stack
    ensures Stand(c, vs) && c.cells == old(c.cells) && c.stack == old(c.stack)
  {
    hide Wf, Preserves, Renamed, Live, RootSet, Area, ValidHeap, AllMean, Predefined;
    RoomForAll(c);
    ghost var h, live, regs := c.CurrentHeap(), c.Reached(), Registers(c);
    ghost var names, slots := c.Named(), c.Pushed();
    var g := c.Gc();
    Reordered(regs[0], regs[1], regs[2], regs[3], c.r0, c.r1, c.r2, c.r3, g);
    Collected(h, live, c.CurrentHeap(), g, names, c.Named(), slots, c.stack[..], c.sp - FRAME_SIZE, c.nil, c.symbolMax,
              regs, Registers(c), vs);
  }

  lemma NewExtends(h: Heap, h': Heap, x: int)
    requires Wf(h) && h'.objs == h.objs + {x} && x == h.hi && |h'.m| == |h.m|
    requires forall i :: 0 <= i < x ==> h'.m[i] == h.m[i]
    ensures Extends(h, h')
  {
    assert forall p :: p in h.objs ==> WfObject(h, p);
  }

  /** A new cell, behind all there is. */
  method NewCell(c: Collector, typ: int, car: int, cdr: int, ghost vs: seq<Value>) returns (x: int)
    requires Stand(c, vs) && c.free < c.cells.Length
    requires (typ == TNUMBER || typ == TPAIR) && (typ == TPAIR ==> car in c.objs && cdr in c.objs)
    modifies c`free, c`objs, c.cells
    ensures Stand(c, vs) && x in c.objs && IsCell(c.CurrentHeap(), x, typ)
    ensures c.cells[x].car == car && c.cells[x].cdr == cdr
    ensures old(Wf(c.CurrentHeap())) && old(c.objs) <= c.objs && Extends(old(c.CurrentHeap()), c.CurrentHeap())
  {
    hide Wf, AllMean, ValidHeap;
    ghost var h, regs := c.CurrentHeap(), Registers(c);
    x := Mutator.MakeCell(c, typ, car, cdr);
    Mutator.Facts(c);
    NewExtends(h, c.CurrentHeap(), x);
    AllStay(h, c.CurrentHeap(), regs, vs);
    Mutator.ObjectFacts(c, x);
  }

  lemma RegisterFacts(c: Collector, vs: seq<Value>, i: nat)
    requires Stand(c, vs) && i < 4
    ensures Registers(c)[i] in c.objs && 0 <= Registers(c)[i] < c.cells.Length
    ensures Means(c.CurrentHeap(), Registers(c)[i], vs[i])
    ensures c.cells[Registers(c)[i]].typ == TPAIR ==>
      c.cells[Registers(c)[i]].car in c.objs && c.cells[Registers(c)[i]].cdr in c.objs
  {
    hide ValidHeap, Means;
    Mutator.ObjectFacts(c, Registers(c)[i]);
    assert WfObject(c.CurrentHeap(), Registers(c)[i]);
  }

  /** A pair exactly if its cell is one. */
  lemma PairFacts(h: Heap, o: int, v: Value)
    requires Wf(h) && Means(h, o, v)
    ensures 0 <= o < |h.m| && (v.Pair? <==> h.m[o].typ == TPAIR)
    ensures v.Pair? ==> Means(h, h.m[o].car, v.car) && Means(h, h.m[o].cdr, v.cdr)
  {
    MeansType(h, o, v);
  }

  lemma PairMeans(h: Heap, o: int, a: Value, d: Value)
    requires Wf(h) && IsCell(h, o, TPAIR) && Means(h, h.m[o].car, a) && Means(h, h.m[o].cdr, d)
    ensures Means(h, o, Pair(a, d))
  {
  }

  /** Does one thing, if there is room and the fields that it takes are there. */
  method Do(c: Collector, op: Op, ghost vs: seq<Value>) returns (ok: bool)
    requires Stand(c, vs) && op.Valid()
    modifies c, c.cells, c.stack
    ensures c.cells == old(c.cells) && c.stack == old(c.stack)
    ensures ok <==> old(Room(c, op)) && op.Effect(vs).Some?
    ensures Stand(c, if ok then op.Effect(vs).value else vs)
    ensures !ok ==> Room(c, op) == old(Room(c, op))
  {
    hide Wf, AllMean, ValidHeap, Means, Stand, Extends;
    ok := Room(c, op);
    if !ok {
      return;
    }
    match op
    case Collect => CollectNow(c, vs);
    case Move(dst, x) =>
      StandFacts(c, vs);
      RegisterFacts(c, vs, x);
      SetRegister(c, dst, Registers(c)[x], vs, vs[x]);
    case MakeNumber(dst, n) => DoNumber(c, dst, n, vs);
    case Cons(dst, x, y) => DoCons(c, dst, x, y, vs);
    case Car(dst, x) => ok := DoField(c, dst, x, true, vs);
    case Cdr(dst, x) => ok := DoField(c, dst, x, false, vs);
  }

  lemma StandFacts(c: Collector, vs: seq<Value>)
    requires Stand(c, vs)
    ensures |vs| == 4 && Wf(c.CurrentHeap())
  {
  }

  method DoNumber(c: Collector, dst: nat, n: int, ghost vs: seq<Value>)
    requires Stand(c, vs) && dst < 4 && c.free < c.cells.Length
    modifies c, c.cells
    ensures c.cells == old(c.cells) && c.stack == old(c.stack) && Stand(c, vs[dst := Num(n)])
  {
    hide Wf, AllMean, ValidHeap, Stand, Extends;
    var x := NewCell(c, TNUMBER, 0, n, vs);
    StandFacts(c, vs);
    SetRegister(c, dst, x, vs, Num(n));
  }

  method DoCons(c: Collector, dst: nat, x: nat, y: nat, ghost vs: seq<Value>)
    requires Stand(c, vs) && dst < 4 && x < 4 && y < 4 && c.free < c.cells.Length
    modifies c, c.cells
    ensures c.cells == old(c.cells) && c.stack == old(c.stack) && Stand(c, vs[dst := Pair(vs[x], vs[y])])
  {
    hide Wf, AllMean, ValidHeap, Stand, Extends, Means;
    StandFacts(c, vs);
    RegisterFacts(c, vs, x);
    RegisterFacts(c, vs, y);
    ghost var h := c.CurrentHeap();
    var a, d := Registers(c)[x], Registers(c)[y];
    var r := NewCell(c, TPAIR, a, d, vs);
    StandFacts(c, vs);
    MeansStays(h, c.CurrentHeap(), a, vs[x]);
    MeansStays(h, c.CurrentHeap(), d, vs[y]);
    PairMeans(c.CurrentHeap(), r, vs[x], vs[y]);
    SetRegister(c, dst, r, vs, Pair(vs[x], vs[y]));
  }

  method DoField(c: Collector, dst: nat, x: nat, first: bool, ghost vs: seq<Value>) returns (ok: bool)
    requires Stand(c, vs) && dst < 4 && x < 4
    modifies c`r0, c`r1, c`r2, c`r3
    ensures |vs| == 4 && ok == vs[x].Pair?
    ensures Stand(c, if ok then vs[dst := if first then vs[x].car else vs[x].cdr] else vs)
  {
    hide Wf, AllMean, ValidHeap, Stand, Means;
    StandFacts(c, vs);
    RegisterFacts(c, vs, x);
    var r := Registers(c)[x];
    PairFacts(c.CurrentHeap(), r, vs[x]);
    ok := c.cells[r].typ == TPAIR;
    if ok {
      SetRegister(c, dst, if first then c.cells[r].car else c.cells[r].cdr, vs, if first then vs[x].car else vs[x].cdr);
    }
  }

  /** Any row of such steps, with collections in between or not, until one
      cannot be done: the registers stand for what the steps make of values. */
  method Perform(c: Collector, ops: seq<Op>, ghost vs: seq<Value>) returns (done: nat)
    requires Stand(c, vs) && forall i :: 0 <= i < |ops| ==> ops[i].Valid()
    modifies c, c.cells, c.stack
    ensures done <= |ops| && |vs| == 4 && After(ops[..done], vs).Some?
    ensures Stand(c, After(ops[..done], vs).value)
    ensures done < |ops| ==>
      |After(ops[..done], vs).value| == 4 &&
      (!Room(c, ops[done]) || ops[done].Effect(After(ops[..done], vs).value).None?)
  {
    hide Stand, Room;
    StandFacts(c, vs);
    done := 0;
    ghost var now := vs;
    while done < |ops|
      invariant done <= |ops| && After(ops[..done], vs) == Some(now) && Stand(c, now)
      invariant c.cells == old(c.cells) && c.stack == old(c.stack)
    {
      StandFacts(c, now);
      var ok := Do(c, ops[done], now);
      if !ok {
        return;
      }
      assert ops[..done + 1][..done] == ops[..done];
      now := ops[done].Effect(now).value;
      done := done + 1;
    }
  }

  /** Without the collections, the values are the same. */
  lemma {:induction false} CollectionsDoNothing(ops: seq<Op>, vs: seq<Value>)
    requires |vs| == 4 && forall i :: 0 <= i < |ops| ==> ops[i].Valid()
    ensures forall i :: 0 <= i < |Steps(ops)| ==> Steps(ops)[i].Valid()
    ensures After(Steps(ops), vs) == After(ops, vs)
    ensures After(ops, vs).Some? ==> |After(ops, vs).value| == 4
  {
    if ops != [] {
      var front, last := ops[..|ops| - 1], ops[|ops| - 1];
      CollectionsDoNothing(front, vs);
      if last.Collect? {
        assert Steps(ops) == Steps(front);
      } else {
        assert Steps(ops)[..|Steps(ops)| - 1] == Steps(front);
      }
    }
  }

  function Steps(ops: seq<Op>): seq<Op> {
    if ops == [] then []
    else Steps(ops[..|ops| - 1]) + if ops[|ops| - 1].Collect? then [] else [ops[|ops| - 1]]
  }
}
