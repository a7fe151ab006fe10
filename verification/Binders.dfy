/** What binds a name against the expander, spelled out: formals of each form,
    definitions of each form, and the words that are never replaced. */
module Binders {
  import opened Values
  import opened Expander
  import opened Scoping

  /** The items of a list, proper or not; none of an atom. */
  function ItemsOf(w: Tree): seq<Tree> {
    if w.Tip? then [] else [w.car] + ItemsOf(w.cdr)
  }

  /** What a list ends in; an atom itself. */
  function EndOf(w: Tree): Atom {
    if w.Tip? then w.atom else EndOf(w.cdr)
  }

  /** Is a name among formals, in the list or as the one that ends it? */
  predicate FormalOf(f: Tree, n: Symbol) {
    Tip(Name(n)) in ItemsOf(f) || EndOf(f) == Name(n)
  }

  lemma {:induction false} FormalsExactly(f: Tree, n: Symbol)
    ensures n in FormalNames(f) <==> FormalOf(f, n)
  {
    if f.Node? {
      FormalsExactly(f.cdr, n);
    }
  }

  /** A lambda or define at the start of a list brings a formal; a definition at
      top level does not bring its own name. */
  predicate FormalAt(l: Tree, n: Symbol, top: bool) {
    && l.Node? && l.cdr.Node?
    && if l.car == Tip(Name(Lambda)) then FormalOf(l.cdr.car, n)
       else if l.car != Tip(Name(Define)) && l.car != Tip(Name(DefineMacro)) then false
       else if top then l.cdr.car.Node? && FormalOf(l.cdr.car.cdr, n)
       else FormalOf(l.cdr.car, n)
  }

  lemma BroughtExactly(l: Tree, n: Symbol, top: bool)
    requires l.Node? && l.cdr.Node?
    ensures HasFormals(l.car) && n in Brought(l, top) <==> FormalAt(l, n, top)
  {
    hide FormalNames, FormalOf;
    FormalsExactly(l.cdr.car, n);
    if l.cdr.car.Node? {
      FormalsExactly(l.cdr.car.cdr, n);
    }
  }

  /** `(define n ...)` or `(define (n ...) ...)`, or the same of a macro. */
  predicate DefinitionOf(form: Tree, n: Symbol) {
    && form.Node? && (form.car == Tip(Name(Define)) || form.car == Tip(Name(DefineMacro)))
    && form.cdr.Node?
    && (form.cdr.car == Tip(Name(n)) || (form.cdr.car.Node? && form.cdr.car.car == Tip(Name(n))))
  }

  /** There is no quote among the first `k` items, nor right behind them. */
  predicate Unquoted(items: seq<Tree>, k: nat) {
    forall j :: 0 <= j <= k && j < |items| ==> items[j] != Tip(Name(Quote))
  }

  ghost predicate DefinedIn(items: seq<Tree>, n: Symbol) {
    exists k :: 0 <= k < |items| && Unquoted(items, k) && DefinitionOf(items[k], n)
  }

  lemma DefinedNow(items: seq<Tree>, n: Symbol)
    requires items != []
    ensures DefinedIn(items, n) <==>
      items[0] != Tip(Name(Quote)) && (DefinitionOf(items[0], n) || DefinedIn(items[1..], n))
  {
    var rest := items[1..];
    if k :| 0 <= k < |items| && Unquoted(items, k) && DefinitionOf(items[k], n) {
      assert items[0] != Tip(Name(Quote));
      if k > 0 {
        forall j | 0 <= j <= k - 1 && j < |rest| ensures rest[j] != Tip(Name(Quote)) {
          assert rest[j] == items[j + 1];
        }
        assert Unquoted(rest, k - 1) && rest[k - 1] == items[k];
      }
    }
    if items[0] != Tip(Name(Quote)) {
      if DefinitionOf(items[0], n) {
        assert Unquoted(items, 0);
      }
      if k :| 0 <= k < |rest| && Unquoted(rest, k) && DefinitionOf(rest[k], n) {
        forall j | 0 <= j <= k + 1 && j < |items| ensures items[j] != Tip(Name(Quote)) {
          assert j > 0 ==> items[j] == rest[j - 1];
        }
        assert Unquoted(items, k + 1) && items[k + 1] == rest[k];
      }
    }
  }

  /** A list defines a name if and only if a definition of it is among the items
      in front of any quote. */
  lemma {:induction false} InternalExactly(w: Tree, n: Symbol)
    ensures n in InternalNames(w) <==> DefinedIn(ItemsOf(w), n)
  {
    if w.Node? {
      DefinedNow(ItemsOf(w), n);
      assert ItemsOf(w)[1..] == ItemsOf(w.cdr);
      InternalExactly(w.cdr, n);
    }
  }

  predicate IsName(a: Tree) {
    a.Tip? && a.atom.Name?
  }

  /** Of a list that is code, the lists in it are code, and what is behind a
      first element that is no quote; behind a lambda or define, what is behind
      its formals. */
  lemma CodeClosed(t: Tree, l: Tree)
    requires l in Code(t) && l.Node?
    ensures t.Node? && t in Code(t)
    ensures l.car.Node? ==> l.car in Code(t)
    ensures l.cdr.Node? && !IsName(l.car) ==> l.cdr in Code(t)
    ensures l.cdr.Node? && IsName(l.car) ==>
      var n := l.car.atom.symbol;
      && (n !in {Lambda, Define, DefineMacro, Quote} ==> l.cdr in Code(t))
      && (n in {Lambda, Define, DefineMacro} && l.cdr.cdr.Node? ==> l.cdr.cdr in Code(t))
  {
    CodeOfCode(t, l);
    Smaller(l);
    assert l in Code(l);
    assert l.car.Node? ==> l.car in Code(l.car) && Code(l.car) <= Code(l);
    assert Tail(l).Node? ==> Tail(l) in Code(Tail(l)) && Code(Tail(l)) <= Code(l);
  }

  lemma {:induction false} CodeOfCode(t: Tree, l: Tree)
    requires l in Code(t)
    ensures Code(l) <= Code(t)
    decreases Pairs(t)
  {
    Smaller(t);
    if l in Code(t.car) {
      CodeOfCode(t.car, l);
    } else if l in Code(Tail(t)) {
      CodeOfCode(Tail(t), l);
    }
  }

  lemma {:induction false} CodeStands(t: Tree, s: Tree)
    requires Stands(t) && s in Code(t)
    ensures s.Node? && Stands(s) && s.cell.car == ItemOf(s.car)
    decreases Pairs(t)
  {
    Smaller(t);
    if s in Code(t.car) {
      CodeStands(t.car, s);
    } else if s in Code(Tail(t)) {
      CodeStands(Tail(t), s);
    }
  }

  /** A cell is behind formals that a name is among. */
  ghost predicate BehindFormals(l: Tree, c: Cell, n: Symbol, top: bool) {
    FormalAt(l, n, top) && c in CellsOf(l.cdr.cdr)
  }

  /** A cell is in a list that defines a name. */
  ghost predicate WithDefinition(w: Tree, c: Cell, n: Symbol) {
    c in CellsOf(w) && DefinedIn(ItemsOf(w), n)
  }

  lemma BehindIsBrought(l: Tree, c: Cell, n: Symbol, top: bool)
    ensures Brings(l, c, n, top) <==> BehindFormals(l, c, n, top)
  {
    hide CellsOf, FormalOf, FormalNames;
    if l.Node? && l.cdr.Node? {
      BroughtExactly(l, n, top);
    }
  }

  ghost predicate FormalsAround(t: Tree, c: Cell, n: Symbol) {
    exists l :: l in Code(t) && BehindFormals(l, c, n, l == t)
  }

  ghost predicate DefinitionAround(t: Tree, c: Cell, n: Symbol) {
    DefinedIn(ItemsOf(t), n) || exists w :: w in Bodies(t) && WithDefinition(w, c, n)
  }

  /** What formals bind. */
  lemma FormalsBind(t: Tree, c: Cell, n: Symbol)
    ensures BoundByFormals(t, c, n, true) <==> FormalsAround(t, c, n)
  {
    hide FormalAt, Brought, CellsOf, HasFormals;
    if BoundByFormals(t, c, n, true) {
      var l :| l in Code(t) && Brings(l, c, n, true && l == t);
      BehindIsBrought(l, c, n, l == t);
      assert BehindFormals(l, c, n, l == t);
    }
    if FormalsAround(t, c, n) {
      var l :| l in Code(t) && BehindFormals(l, c, n, l == t);
      BehindIsBrought(l, c, n, l == t);
      assert Brings(l, c, n, true && l == t);
    }
  }

  /** What definitions bind. */
  lemma DefinitionsBind(t: Tree, c: Cell, n: Symbol)
    ensures BoundInside(t, c, n) || n in InternalNames(t) <==> DefinitionAround(t, c, n)
  {
    hide ItemsOf, DefinedIn, InternalNames, CellsOf;
    InternalExactly(t, n);
    if BoundInside(t, c, n) {
      var w :| w in Bodies(t) && Defines(w, c, n);
      InternalExactly(w, n);
      assert WithDefinition(w, c, n);
    }
    if exists w :: w in Bodies(t) && WithDefinition(w, c, n) {
      var w :| w in Bodies(t) && WithDefinition(w, c, n);
      InternalExactly(w, n);
      assert Defines(w, c, n);
    }
  }

  /** Everything that can keep a name from being replaced: the words that the
      expander goes by, the formals that it was given, formals and definitions
      around the cell. */
  ghost predicate Kept(t: Tree, bound: set<Symbol>, n: Symbol, c: Cell) {
    || n in {Lambda, Define, DefineMacro, Quote, CurrentEnvironment} || n in bound
    || DefinitionAround(t, c, n) || FormalsAround(t, c, n)
  }

  lemma FreeUnlessKept(t: Tree, bound: set<Symbol>, s: Tree)
    requires s.Node?
    ensures FreeAt(t, bound + InternalNames(t), true, s.cell, s)
      <==> IsName(s.car) && !Kept(t, bound, s.car.atom.symbol, s.cell)
  {
    hide InternalNames, BoundByFormals, BoundInside, DefinitionAround, FormalsAround, Code, Bodies;
    if IsName(s.car) {
      DefinitionsBind(t, s.cell, s.car.atom.symbol);
      FormalsBind(t, s.cell, s.car.atom.symbol);
    }
  }

  /** A cell of the code that holds a name is replaced if and only if nothing
      keeps it. */
  lemma ReplacedExactly(t: Tree, bound: set<Symbol>, s: Tree)
    requires Distinct(t) && Stands(t) && s in Code(t)
    ensures s.Node? && s.cell.car == ItemOf(s.car)
    ensures s.cell in Marks(t, bound, true) <==> IsName(s.car) && !Kept(t, bound, s.car.atom.symbol, s.cell)
  {
    hide Distinct, CellsOf, Marks, Code, Kept, FreeAt, InternalNames;
    CodeStands(t, s);
    FreeUnlessKept(t, bound, s);
    MarksExactly(t, bound, s.cell);
    if r :| r in Code(t) && FreeAt(t, bound + InternalNames(t), true, s.cell, r) {
      CodeStands(t, r);
      FreeCell(t, bound + InternalNames(t), s.cell, r);
      SameCell(t, bound + InternalNames(t), s, r);
    }
  }

  lemma SameCell(t: Tree, bound: set<Symbol>, s: Tree, r: Tree)
    requires s.Node? && r.Node? && FreeAt(t, bound, true, s.cell, r) && ItemOf(s.car) == ItemOf(r.car)
    ensures FreeAt(t, bound, true, s.cell, s)
  {
    hide Code, Bodies, CellsOf;
  }

  /** What is replaced is code that holds a name. */
  lemma ReplacedIsCode(t: Tree, bound: set<Symbol>, c: Cell) returns (s: Tree)
    requires Distinct(t) && Stands(t) && c in Marks(t, bound, true)
    ensures s in Code(t) && s.Node? && s.cell == c && c.car.Leaf? && c.car.atom.Name?
    ensures !Kept(t, bound, c.car.atom.symbol, c)
  {
    hide Distinct, Marks, Code, Kept, FreeAt, InternalNames;
    MarksExactly(t, bound, c);
    s :| s in Code(t) && FreeAt(t, bound + InternalNames(t), true, c, s);
    CodeStands(t, s);
    FreeCell(t, bound + InternalNames(t), c, s);
    FreeUnlessKept(t, bound, s);
  }

  lemma FreeCell(t: Tree, bound: set<Symbol>, c: Cell, s: Tree)
    requires FreeAt(t, bound, true, c, s)
    ensures s.Node? && s.cell == c
  {
  }

  /** No cell in the body of a lambda that holds a formal of it is replaced,
      wherever in the code the lambda is; be the formals proper, dotted or one
      name. */
  lemma FormalsKept(t: Tree, bound: set<Symbol>, l: Tree, n: Symbol, c: Cell)
    requires Distinct(t) && Stands(t) && l in Code(t)
    requires l.Node? && l.car == Tip(Name(Lambda)) && l.cdr.Node? && FormalOf(l.cdr.car, n)
    requires c in CellsOf(l.cdr.cdr) && c.car == Leaf(Name(n))
    ensures c !in Marks(t, bound, true)
  {
    hide Distinct, CellsOf, Marks, FormalOf, DefinitionAround;
    assert FormalsAround(t, c, n) by {
      assert BehindFormals(l, c, n, l == t);
    }
    if c in Marks(t, bound, true) {
      var s := ReplacedIsCode(t, bound, c);
    }
  }

  /** No cell in a list that holds a name is replaced, if among the items of the
      list, in front of any quote, there is a definition of it. */
  lemma DefinitionsKept(t: Tree, bound: set<Symbol>, w: Tree, n: Symbol, c: Cell)
    requires Distinct(t) && Stands(t) && (w == t || w in Bodies(t)) && DefinedIn(ItemsOf(w), n)
    requires c in CellsOf(w) && c.car == Leaf(Name(n))
    ensures c !in Marks(t, bound, true)
  {
    hide Distinct, CellsOf, Marks, FormalsAround, DefinedIn;
    assert DefinitionAround(t, c, n) by {
      assert w == t || WithDefinition(w, c, n);
    }
    if c in Marks(t, bound, true) {
      var s := ReplacedIsCode(t, bound, c);
    }
  }

  /** Nothing in formals is replaced, nor the word in front of them. */
  lemma {:induction false} FormalsUntouched(t: Tree, bound: set<Symbol>, top: bool, l: Tree)
    requires Distinct(t) && l in Code(t) && l.Node? && l.cdr.Node?
    requires l.car == Tip(Name(Lambda)) || l.car == Tip(Name(Define)) || l.car == Tip(Name(DefineMacro))
    ensures {l.cell, l.cdr.cell} + CellsOf(l.cdr.car) !! WalkMarks(t, bound, top)
    ensures {l.cell, l.cdr.cell} + CellsOf(l.cdr.car) <= CellsOf(l)
    decreases Pairs(t)
  {
    TailFacts(t);
    CodeInside(t, l);
    var d := Tail(t);
    var more := bound + (if HasFormals(t.car) then Brought(t, top) else {});
    assert bound + {} == bound;
    if t.car.Node? {
      MarksInside(t.car, bound, false);
    }
    WalkInside(d, more, false);
    if l == t {
    } else if l in Code(d) {
      CodeInside(d, l);
      FormalsUntouched(d, more, false, l);
    } else {
      CodeInside(t.car, l);
      FormalsUntouched(t.car, bound + InternalNames(t.car), false, l);
    }
  }

  /** The formals that the expander is given: names, the last of which may stand
      behind a dot. */
  function GivenFormals(names: seq<Symbol>, rest: Formals): Formals {
    if names == [] then rest else More(names[0], GivenFormals(names[1..], rest))
  }

  lemma {:induction false} GivenExactly(names: seq<Symbol>, rest: Formals, n: Symbol)
    requires !rest.More?
    ensures n in NamesOf(GivenFormals(names, rest)) <==> n in names || rest == Rest(n)
  {
    if names != [] {
      GivenExactly(names[1..], rest, n);
      assert names == [names[0]] + names[1..];
    }
  }

  /** A definition has a second element. */
  predicate Complete(form: Tree) {
    form.Node? && (form.car == Tip(Name(Define)) || form.car == Tip(Name(DefineMacro))) ==> form.cdr.Node?
  }

  /** So have all in front of any quote. */
  ghost predicate AllComplete(items: seq<Tree>) {
    forall k :: 0 <= k < |items| && Unquoted(items, k) ==> Complete(items[k])
  }

  lemma CompleteNow(items: seq<Tree>)
    requires items != []
    ensures AllComplete(items) <==> items[0] == Tip(Name(Quote)) || (Complete(items[0]) && AllComplete(items[1..]))
  {
    hide Complete;
    var rest := items[1..];
    forall k | 0 <= k < |rest| && items[0] != Tip(Name(Quote))
      ensures Unquoted(items, k + 1) <==> Unquoted(rest, k)
      ensures items[k + 1] == rest[k]
    {
      assert forall j :: 0 <= j <= k && j < |rest| ==> rest[j] == items[j + 1];
      assert forall j :: 0 < j <= k + 1 && j < |items| ==> items[j] == rest[j - 1];
    }
    if AllComplete(items) && items[0] != Tip(Name(Quote)) {
      assert Unquoted(items, 0);
      forall k | 0 <= k < |rest| && Unquoted(rest, k) ensures Complete(rest[k]) {
        assert Unquoted(items, k + 1);
      }
    }
    if items[0] == Tip(Name(Quote)) {
      forall k: nat ensures !Unquoted(items, k) {
        assert items[0] == Tip(Name(Quote));
      }
    } else if Complete(items[0]) && AllComplete(rest) {
      forall k | 0 <= k < |items| && Unquoted(items, k) ensures Complete(items[k]) {
        assert k > 0 ==> Unquoted(rest, k - 1) && items[k] == rest[k - 1];
      }
    }
  }

  lemma {:induction false} NamedExactly(w: Tree)
    ensures NamedDefinitions(w) <==> AllComplete(ItemsOf(w))
  {
    if w.Node? {
      CompleteNow(ItemsOf(w));
      assert ItemsOf(w)[1..] == ItemsOf(w.cdr);
      NamedExactly(w.cdr);
    }
  }

  /** Something stands behind a lambda or define at the start of a list. */
  predicate Followed(l: Tree) {
    l.Node? && (l.car == Tip(Name(Lambda)) || l.car == Tip(Name(Define)) || l.car == Tip(Name(DefineMacro))) ==>
      l.cdr.Node?
  }

  ghost predicate AllFollowed(t: Tree) {
    forall l :: l in Code(t) ==> Followed(l)
  }

  ghost predicate BodiesComplete(t: Tree) {
    forall w :: w in Bodies(t) ==> AllComplete(ItemsOf(w))
  }

  lemma {:induction false} ShapedExactly(t: Tree)
    ensures Shaped(t) <==> AllFollowed(t) && BodiesComplete(t)
    decreases Pairs(t)
  {
    hide AllComplete, ItemsOf, NamedDefinitions;
    if t.Node? {
      Smaller(t);
      ShapedExactly(t.car);
      ShapedExactly(Tail(t));
      NamedExactly(t.car);
      PartsOfCode(t);
    }
  }

  lemma PartsOfCode(t: Tree)
    requires t.Node?
    ensures AllFollowed(t) <==> Followed(t) && AllFollowed(t.car) && AllFollowed(Tail(t))
    ensures BodiesComplete(t) <==>
      (t.car.Node? ==> AllComplete(ItemsOf(t.car))) && BodiesComplete(t.car) && BodiesComplete(Tail(t))
  {
    hide AllComplete, ItemsOf, Followed;
    Smaller(t);
    if AllFollowed(t.car) && AllFollowed(Tail(t)) && Followed(t) {
      forall l | l in Code(t) ensures Followed(l) {
      }
    }
  }

  /** Code is expandable if and only if something stands behind every lambda and
      define that code begins with, and every definition that the first pass
      comes to has a second element. */
  lemma ExpandableExactly(t: Tree)
    ensures Expandable(t) <==> AllComplete(ItemsOf(t)) && BodiesComplete(t) && AllFollowed(t)
  {
    hide Shaped, NamedDefinitions, AllComplete, ItemsOf, BodiesComplete, AllFollowed;
    NamedExactly(t);
    ShapedExactly(t);
  }
}
