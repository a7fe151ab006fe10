/** Which names the expander replaces: those that nothing around them binds. */
module Scoping {
  import opened Values
  import opened Expander

  /** What comes behind the first element of a list, as code: not the formals
      of a lambda or define, and nothing that is quoted. */
  function Tail(t: Tree): (s: Tree)
    requires t.Node?
    ensures s == t.cdr || (t.cdr.Node? && s == t.cdr.cdr) || s == Tip(Empty)
  {
    if HasFormals(t.car) then if t.cdr.Node? then t.cdr.cdr else Tip(Empty)
    else if t.car == Tip(Name(Quote)) then Tip(Empty)
    else t.cdr
  }

  /** The tails of lists that are code. */
  ghost function Code(t: Tree): set<Tree>
    decreases Pairs(t)
  {
    if t.Tip? then {}
    else
      Smaller(t);
      {t} + Code(t.car) + Code(Tail(t))
  }

  /** The lists inside `t` that are code. */
  ghost function Bodies(t: Tree): set<Tree>
    decreases Pairs(t)
  {
    if t.Tip? then {}
    else
      Smaller(t);
      (if t.car.Node? then {t.car} else {}) + Bodies(t.car) + Bodies(Tail(t))
  }

  lemma Smaller(t: Tree)
    requires t.Node?
    ensures Pairs(Tail(t)) < Pairs(t) && Pairs(t.car) < Pairs(t)
  {
  }

  /** A lambda or define around a cell brings a name: among the formals, or, of
      a definition that is not at top level, as its name. */
  ghost predicate BoundByFormals(t: Tree, c: Cell, name: Symbol, top: bool) {
    exists l :: l in Code(t) && Brings(l, c, name, top && l == t)
  }

  ghost predicate Brings(l: Tree, c: Cell, name: Symbol, top: bool) {
    && l.Node? && HasFormals(l.car) && l.cdr.Node? && c in CellsOf(l.cdr.cdr)
    && name in Brought(l, top)
  }

  /** A list around a cell defines a name. */
  ghost predicate BoundInside(t: Tree, c: Cell, name: Symbol) {
    exists l :: l in Bodies(t) && Defines(l, c, name)
  }

  ghost predicate Defines(l: Tree, c: Cell, name: Symbol) {
    c in CellsOf(l) && name in InternalNames(l)
  }

  /** The cell holds a name, in code, that is neither in `bound` nor bound by
      anything around it. */
  ghost predicate Free(t: Tree, bound: set<Symbol>, top: bool, c: Cell) {
    exists s :: s in Code(t) && FreeAt(t, bound, top, c, s)
  }

  ghost predicate FreeAt(t: Tree, bound: set<Symbol>, top: bool, c: Cell, s: Tree) {
    && s.Node? && s.cell == c && Replaceable(s.car, bound)
    && !HasFormals(s.car) && s.car != Tip(Name(Quote))
    && !BoundByFormals(t, c, s.car.atom.symbol, top)
    && !BoundInside(t, c, s.car.atom.symbol)
  }

  lemma {:induction false} CodeInside(t: Tree, s: Tree)
    requires s in Code(t)
    ensures s.Node? && CellsOf(s) <= CellsOf(t)
    decreases Pairs(t)
  {
    Smaller(t);
    if s in Code(t.car) {
      CodeInside(t.car, s);
    } else if s in Code(Tail(t)) {
      CodeInside(Tail(t), s);
    }
  }

  lemma {:induction false} BodiesInside(t: Tree, s: Tree)
    requires s in Bodies(t)
    ensures s.Node? && CellsOf(s) <= CellsOf(t)
    decreases Pairs(t)
  {
    Smaller(t);
    if s in Bodies(t.car) {
      BodiesInside(t.car, s);
    } else if s in Bodies(Tail(t)) {
      BodiesInside(Tail(t), s);
    }
  }

  lemma TailFacts(t: Tree)
    requires t.Node? && Distinct(t)
    ensures Distinct(t.car) && Distinct(Tail(t))
    ensures CellsOf(Tail(t)) <= CellsOf(t.cdr) && CellsOf(t.car) !! CellsOf(Tail(t))
    ensures t.cell !in CellsOf(t.car) && t.cell !in CellsOf(Tail(t))
    ensures Pairs(Tail(t)) < Pairs(t) && Pairs(t.car) < Pairs(t)
    ensures HasFormals(t.car) && t.cdr.Node? ==> Tail(t) == t.cdr.cdr
  {
  }

  /** Behind the first element of a list only what that element brings is new. */
  lemma FreeInTail(t: Tree, bound: set<Symbol>, top: bool, c: Cell)
    requires t.Node? && Distinct(t) && c in CellsOf(Tail(t))
    ensures Free(t, bound, top, c) <==>
      Free(Tail(t), bound + (if HasFormals(t.car) then Brought(t, top) else {}), false, c)
  {
    TailFacts(t);
    var d := Tail(t);
    var more := bound + (if HasFormals(t.car) then Brought(t, top) else {});
    if s :| s in Code(t) && FreeAt(t, bound, top, c, s) {
      CodeOfTail(t, s, c);
      TailBinds(t, c, s.car.atom.symbol, top);
      assert FreeAt(d, more, false, c, s);
    }
    if s :| s in Code(d) && FreeAt(d, more, false, c, s) {
      TailBinds(t, c, s.car.atom.symbol, top);
      assert FreeAt(t, bound, top, c, s);
    }
  }

  /** Code that holds a cell of the tail is code of the tail. */
  lemma CodeOfTail(t: Tree, s: Tree, c: Cell)
    requires t.Node? && Distinct(t) && c in CellsOf(Tail(t))
    requires s in Code(t) && s != t && c in CellsOf(s)
    ensures s in Code(Tail(t))
  {
    TailFacts(t);
    if s in Code(t.car) {
      CodeInside(t.car, s);
    }
  }

  lemma CodeOfCar(t: Tree, s: Tree, c: Cell)
    requires t.Node? && Distinct(t) && c in CellsOf(t.car)
    requires s in Code(t) && s != t && c in CellsOf(s)
    ensures s in Code(t.car)
  {
    TailFacts(t);
    if s in Code(Tail(t)) {
      CodeInside(Tail(t), s);
    }
  }

  /** A list is not code inside its own parts. */
  lemma NotInside(t: Tree, s: Tree)
    requires t.Node? && Distinct(t)
    requires s in Code(t.car) || s in Code(Tail(t))
    ensures s != t
  {
    TailFacts(t);
    if s in Code(t.car) {
      CodeInside(t.car, s);
    } else {
      CodeInside(Tail(t), s);
    }
    assert t.cell in CellsOf(t);
  }

  lemma BringsInside(l: Tree, c: Cell, name: Symbol, top: bool)
    requires Brings(l, c, name, top)
    ensures c in CellsOf(l)
  {
  }

  lemma TailBinds(t: Tree, c: Cell, name: Symbol, top: bool)
    requires t.Node? && Distinct(t) && c in CellsOf(Tail(t))
    ensures BoundByFormals(t, c, name, top) <==>
      BoundByFormals(Tail(t), c, name, false) || (HasFormals(t.car) && name in Brought(t, top))
    ensures BoundInside(t, c, name) <==> BoundInside(Tail(t), c, name)
  {
    hide BoundByFormals, BoundInside;
    TailBound(t, c, name, top);
    TailBinding(t, c, name, top);
    TailDefines(t, c, name);
  }

  lemma TailBound(t: Tree, c: Cell, name: Symbol, top: bool)
    requires t.Node? && Distinct(t) && c in CellsOf(Tail(t))
    ensures BoundByFormals(t, c, name, top) ==>
      BoundByFormals(Tail(t), c, name, false) || (HasFormals(t.car) && name in Brought(t, top))
  {
    hide Distinct, Pairs, CellsOf, FormalNames, InternalNames, Brought, Tail, DefinedName;
    TailFacts(t);
    var d := Tail(t);
    if l :| l in Code(t) && Brings(l, c, name, top && l == t) {
      BringsInside(l, c, name, top && l == t);
      if l != t {
        CodeOfTail(t, l, c);
        assert Brings(l, c, name, false && l == d);
      }
    }
  }

  lemma BroughtByFormals(t: Tree, top: bool)
    requires t.Node? && !t.cdr.Node?
    ensures Brought(t, top) == {}
  {
  }

  lemma TailBinding(t: Tree, c: Cell, name: Symbol, top: bool)
    requires t.Node? && Distinct(t) && c in CellsOf(Tail(t))
    ensures BoundByFormals(Tail(t), c, name, false) || (HasFormals(t.car) && name in Brought(t, top)) ==>
      BoundByFormals(t, c, name, top)
  {
    hide Distinct, Pairs, CellsOf, FormalNames, InternalNames, Brought, Tail, DefinedName;
    TailFacts(t);
    if !t.cdr.Node? {
      BroughtByFormals(t, top);
    }
    var d := Tail(t);
    if l :| l in Code(d) && Brings(l, c, name, false && l == d) {
      NotInside(t, l);
      assert l in Code(t) && Brings(l, c, name, top && l == t);
    }
    if HasFormals(t.car) && name in Brought(t, top) {
      assert t in Code(t) && Brings(t, c, name, top && t == t);
    }
  }

  lemma TailDefines(t: Tree, c: Cell, name: Symbol)
    requires t.Node? && Distinct(t) && c in CellsOf(Tail(t))
    ensures BoundInside(t, c, name) <==> BoundInside(Tail(t), c, name)
  {
    TailFacts(t);
    if l :| l in Bodies(t) && Defines(l, c, name) {
      if l in Bodies(t.car) {
        BodiesInside(t.car, l);
      }
    }
  }

  /** In the first element, itself a list, its own definitions are new. */
  lemma FreeInCar(t: Tree, bound: set<Symbol>, top: bool, c: Cell)
    requires t.Node? && t.car.Node? && Distinct(t) && c in CellsOf(t.car)
    ensures Free(t, bound, top, c) <==> Free(t.car, bound + InternalNames(t.car), false, c)
  {
    TailFacts(t);
    var a := t.car;
    var more := bound + InternalNames(a);
    if s :| s in Code(t) && FreeAt(t, bound, top, c, s) {
      CodeOfCar(t, s, c);
      CarBinds(t, c, s.car.atom.symbol, top);
      assert FreeAt(a, more, false, c, s);
    }
    if s :| s in Code(a) && FreeAt(a, more, false, c, s) {
      CarBinds(t, c, s.car.atom.symbol, top);
      assert FreeAt(t, bound, top, c, s);
    }
  }

  lemma CarBinds(t: Tree, c: Cell, name: Symbol, top: bool)
    requires t.Node? && t.car.Node? && Distinct(t) && c in CellsOf(t.car)
    ensures BoundByFormals(t, c, name, top) <==> BoundByFormals(t.car, c, name, false)
    ensures BoundInside(t, c, name) <==> BoundInside(t.car, c, name) || name in InternalNames(t.car)
  {
    hide Distinct;
    hide Pairs;
    hide CellsOf;
    hide FormalNames;
    hide InternalNames;
    hide Brought;
    hide Tail;
    hide DefinedName;
    TailFacts(t);
    var a := t.car;
    if l :| l in Code(t) && Brings(l, c, name, top && l == t) {
      BringsInside(l, c, name, top && l == t);
      CodeOfCar(t, l, c);
      assert Brings(l, c, name, false && l == a);
    }
    if l :| l in Code(a) && Brings(l, c, name, false && l == a) {
      NotInside(t, l);
      assert l in Code(t) && Brings(l, c, name, top && l == t);
    }
    CarDefines(t, c, name);
  }

  lemma CarDefines(t: Tree, c: Cell, name: Symbol)
    requires t.Node? && t.car.Node? && Distinct(t) && c in CellsOf(t.car)
    ensures BoundInside(t, c, name) <==> BoundInside(t.car, c, name) || name in InternalNames(t.car)
  {
    TailFacts(t);
    if l :| l in Bodies(t) && Defines(l, c, name) {
      if l in Bodies(Tail(t)) {
        BodiesInside(Tail(t), l);
      }
    }
    if name in InternalNames(t.car) {
      assert t.car in Bodies(t) && Defines(t.car, c, name);
    }
  }

  /** The walk over a list marks exactly the free names. */
  lemma {:induction false} WalkMarksFree(t: Tree, bound: set<Symbol>, top: bool, c: Cell)
    requires Distinct(t)
    ensures c in WalkMarks(t, bound, top) <==> Free(t, bound, top, c)
    decreases Pairs(t)
  {
    if t.Tip? {
    } else {
      TailFacts(t);
      if c in CellsOf(t.car) && t.car.Node? {
        FreeInCar(t, bound, top, c);
        WalkMarksFree(t.car, bound + InternalNames(t.car), false, c);
        WalkInside(Tail(t), bound, false);
      } else if c in CellsOf(Tail(t)) {
        FreeInTail(t, bound, top, c);
        assert bound + {} == bound;
        if t.car.Node? {
          MarksInside(t.car, bound, false);
        }
        WalkMarksFree(Tail(t), bound + (if HasFormals(t.car) then Brought(t, top) else {}), false, c);
      } else {
        Elsewhere(t, bound, top, c);
      }
    }
  }

  lemma Elsewhere(t: Tree, bound: set<Symbol>, top: bool, c: Cell)
    requires t.Node? && Distinct(t)
    requires c !in CellsOf(t.car) && c !in CellsOf(Tail(t))
    ensures c in WalkMarks(t, bound, top) <==> Free(t, bound, top, c)
  {
    TailFacts(t);
    if t.car.Node? {
      MarksInside(t.car, bound, false);
    }
    WalkInside(Tail(t), bound, false);
    WalkInside(Tail(t), bound + (if HasFormals(t.car) then Brought(t, top) else {}), false);
    if s :| s in Code(t) && FreeAt(t, bound, top, c, s) {
      OnlyHere(t, s, c);
    }
    if c == t.cell && Replaceable(t.car, bound) && !HasFormals(t.car) && t.car != Tip(Name(Quote)) {
      NothingBinds(t, t.car.atom.symbol, top);
      assert t in Code(t) && FreeAt(t, bound, top, c, t);
    }
  }

  lemma OnlyHere(t: Tree, s: Tree, c: Cell)
    requires t.Node? && s in Code(t) && c in CellsOf(s)
    requires c !in CellsOf(t.car) && c !in CellsOf(Tail(t))
    ensures s == t
  {
    if s in Code(t.car) {
      CodeInside(t.car, s);
    } else if s in Code(Tail(t)) {
      CodeInside(Tail(t), s);
    }
  }

  lemma NothingBinds(t: Tree, name: Symbol, top: bool)
    requires t.Node? && Distinct(t)
    ensures !BoundByFormals(t, t.cell, name, top) && !BoundInside(t, t.cell, name)
  {
    NoFormalsBind(t, name, top);
    NoDefinitionBinds(t, name);
  }

  lemma NoFormalsBind(t: Tree, name: Symbol, top: bool)
    requires t.Node? && Distinct(t)
    ensures !BoundByFormals(t, t.cell, name, top)
  {
    hide Distinct, Pairs, FormalNames, InternalNames, Brought, Tail, DefinedName;
    TailFacts(t);
    if l :| l in Code(t) && Brings(l, t.cell, name, top && l == t) {
      OnlyHere(t, l, t.cell);
      assert false;
    }
  }

  lemma NoDefinitionBinds(t: Tree, name: Symbol)
    requires t.Node? && Distinct(t)
    ensures !BoundInside(t, t.cell, name)
  {
    hide Distinct, Pairs, FormalNames, InternalNames, Brought, Tail, DefinedName;
    TailFacts(t);
    if l :| l in Bodies(t) && Defines(l, t.cell, name) {
      if l in Bodies(t.car) {
        BodiesInside(t.car, l);
      } else if l in Bodies(Tail(t)) {
        BodiesInside(Tail(t), l);
      }
    }
  }

  /** The expander replaces a name exactly if it is free: not bound by formals,
      proper, dotted or single, of a lambda or define around it, nor by a
      definition inside a body around it, and not quoted. */
  lemma MarksExactly(t: Tree, bound: set<Symbol>, c: Cell)
    requires Distinct(t)
    ensures c in Marks(t, bound, true) <==> Free(t, bound + InternalNames(t), true, c)
  {
    WalkMarksFree(t, bound + InternalNames(t), true, c);
  }

  /** Nothing in a quoted list is replaced. */
  lemma {:induction false} QuotedUntouched(t: Tree, bound: set<Symbol>, top: bool, q: Tree)
    requires Distinct(t) && q in Bodies(t) && q.Node? && q.car == Tip(Name(Quote))
    ensures CellsOf(q) !! WalkMarks(t, bound, top)
    decreases Pairs(t)
  {
    TailFacts(t);
    var d := Tail(t);
    var more := bound + (if HasFormals(t.car) then Brought(t, top) else {});
    assert bound + {} == bound;
    if t.car.Node? {
      MarksInside(t.car, bound, false);
    }
    WalkInside(d, more, false);
    if q in Bodies(d) {
      BodiesInside(d, q);
      QuotedUntouched(d, more, false, q);
    } else if q == t.car {
      assert Marks(q, bound, false) == {};
    } else {
      BodiesInside(t.car, q);
      QuotedUntouched(t.car, bound + InternalNames(t.car), false, q);
    }
  }
}
