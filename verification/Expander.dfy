/** Binding the variables of code in place, ahead of its evaluation. */
module Expander {
  import opened Values

  datatype Atom = Name(symbol: Symbol) | Bound(symbol: Symbol) | Empty | Constant(n: int)

  /** What a field of a cell holds: an atom, or the address of a pair. */
  datatype Item = Leaf(atom: Atom) | Ref(cell: Cell)

  class Cell {
    var car: Item
    var cdr: Item

    constructor (a: Item, d: Item)
      ensures car == a && cdr == d
    {
      car := a;
      cdr := d;
    }
  }

  /** Code as a tree, that knows where its pairs are. */
  datatype Tree = Tip(atom: Atom) | Node(cell: Cell, car: Tree, cdr: Tree)

  function ItemOf(t: Tree): Item {
    match t
    case Tip(a) => Leaf(a)
    case Node(c, _, _) => Ref(c)
  }

  ghost function CellsOf(t: Tree): set<Cell> {
    match t
    case Tip(_) => {}
    case Node(c, a, d) => {c} + CellsOf(a) + CellsOf(d)
  }

  /** No pair is in two places. */
  ghost predicate Distinct(t: Tree) {
    match t
    case Tip(_) => true
    case Node(c, a, d) =>
      && c !in CellsOf(a) && c !in CellsOf(d) && CellsOf(a) !! CellsOf(d)
      && Distinct(a) && Distinct(d)
  }

  /** The fields of the cells as they were at first. */
  datatype Heap = Heap(car: map<Cell, Item>, cdr: map<Cell, Item>)

  ghost predicate Holds(h: Heap, t: Tree) {
    match t
    case Tip(_) => true
    case Node(c, a, d) =>
      && c in h.car && c in h.cdr && h.car[c] == ItemOf(a) && h.cdr[c] == ItemOf(d)
      && Holds(h, a) && Holds(h, d)
  }

  predicate IsDefine(a: Tree) {
    a == Tip(Name(Define)) || a == Tip(Name(DefineMacro))
  }

  predicate HasFormals(a: Tree) {
    a == Tip(Name(Lambda)) || IsDefine(a)
  }

  /** A definition has a second element. */
  predicate DefinesSomething(form: Tree) {
    form.Node? && IsDefine(form.car) ==> form.cdr.Node?
  }

  /** So have all definitions in a list, up to a quote. */
  predicate NamedDefinitions(t: Tree) {
    match t
    case Tip(_) => true
    case Node(_, a, d) => a == Tip(Name(Quote)) || (DefinesSomething(a) && NamedDefinitions(d))
  }

  /** Where a list that is code has a lambda or define as an element, something
      follows it; so it is in the lists in it, and their definitions are named.
      Nothing is asked of formals, nor of what is quoted. */
  predicate Shaped(t: Tree) {
    match t
    case Tip(_) => true
    case Node(_, a, d) =>
      if a.Node? then NamedDefinitions(a) && Shaped(a) && Shaped(d)
      else if HasFormals(a) then d.Node? && Shaped(d.cdr)
      else a == Tip(Name(Quote)) || Shaped(d)
  }

  /** Code in which the expander finds whatever it looks for. */
  predicate Expandable(t: Tree) {
    NamedDefinitions(t) && Shaped(t)
  }

  /** Quoted data may end in any name. */
  lemma QuotedExpandable(c: Cell, name: Symbol, behind: Cell, data: Tree)
    ensures Expandable(Node(c, Tip(Name(Quote)), Node(behind, Tip(Name(name)), data)))
    ensures Expandable(Node(c, Node(behind, Tip(Name(Quote)), data), Tip(Empty)))
  {
  }

  /** The names in formals: a list, a dotted list, or a single name. */
  function FormalNames(f: Tree): set<Symbol> {
    match f
    case Node(_, a, d) => (if a.Tip? && a.atom.Name? then {a.atom.symbol} else {}) + FormalNames(d)
    case Tip(a) => if a.Name? then {a.symbol} else {}
  }

  /** What a definition in a body defines. */
  function DefinedName(form: Tree): set<Symbol> {
    if form.Node? && IsDefine(form.car) && form.cdr.Node? then
      var x := if form.cdr.car.Node? then form.cdr.car.car else form.cdr.car;
      if x.Tip? && x.atom.Name? then {x.atom.symbol} else {}
    else {}
  }

  /** The internal definitions of a body, up to a quote. */
  function InternalNames(t: Tree): set<Symbol> {
    match t
    case Tip(_) => {}
    case Node(_, a, d) => if a == Tip(Name(Quote)) then {} else DefinedName(a) + InternalNames(d)
  }

  /** The formals that a lambda or define at the start of `t` brings; of a
      definition at top level, only those behind the name. */
  function Brought(t: Tree, top: bool): set<Symbol>
    requires t.Node?
  {
    if !t.cdr.Node? then {}
    else if t.car == Tip(Name(Lambda)) || !top then FormalNames(t.cdr.car)
    else if t.cdr.car.Node? then FormalNames(t.cdr.car.cdr)
    else {}
  }

  predicate Replaceable(a: Tree, bound: set<Symbol>) {
    a.Tip? && a.atom.Name? && a.atom.symbol != CurrentEnvironment && a.atom.symbol !in bound
  }

  /** The cells whose name is replaced when a list is expanded. */
  ghost function Marks(t: Tree, bound: set<Symbol>, top: bool): set<Cell>
    decreases t, 1
  {
    WalkMarks(t, bound + InternalNames(t), top)
  }

  ghost function WalkMarks(t: Tree, bound: set<Symbol>, top: bool): set<Cell>
    decreases t, 0
  {
    match t
    case Tip(_) => {}
    case Node(c, a, d) =>
      if a.Node? then Marks(a, bound, false) + WalkMarks(d, bound, false)
      else if HasFormals(a) then if d.Node? then WalkMarks(d.cdr, bound + Brought(t, top), false) else {}
      else if a == Tip(Name(Quote)) then {}
      else (if Replaceable(a, bound) then {c} else {}) + WalkMarks(d, bound, false)
  }

  lemma MarksInside(t: Tree, bound: set<Symbol>, top: bool)
    ensures Marks(t, bound, top) <= CellsOf(t) && WalkMarks(t, bound, top) <= CellsOf(t)
    decreases t
  {
    WalkInside(t, bound, top);
    WalkInside(t, bound + InternalNames(t), top);
  }

  lemma {:induction false} WalkInside(t: Tree, bound: set<Symbol>, top: bool)
    ensures WalkMarks(t, bound, top) <= CellsOf(t)
    decreases t
  {
    if t.Node? {
      if t.car.Node? {
        WalkInside(t.car, bound + InternalNames(t.car), false);
        WalkInside(t.cdr, bound, false);
      } else if HasFormals(t.car) {
        if t.cdr.Node? {
          WalkInside(t.cdr.cdr, bound + Brought(t, top), false);
        }
      } else if t.car != Tip(Name(Quote)) {
        WalkInside(t.cdr, bound, false);
      }
    }
  }

  /** A list of formals of the expander: names in front of what it started with. */
  datatype Formals = End | Rest(name: Symbol) | More(name: Symbol, rest: Formals)

  function NamesOf(f: Formals): set<Symbol> {
    match f
    case End => {}
    case Rest(n) => {n}
    case More(n, rest) => {n} + NamesOf(rest)
  }

  /** Is a name among the formals? */
  method FormalP(x: Symbol, formals: Formals) returns (r: bool)
    ensures r == (x in NamesOf(formals))
  {
    var f := formals;
    while f.More?
      invariant x in NamesOf(formals) <==> x in NamesOf(f)
      decreases f
    {
      if f.name == x {
        return true;
      }
      f := f.rest;
    }
    r := f.Rest? && f.name == x;
  }

  /** How far an expansion has come: some names are replaced by bindings. */
  ghost predicate State(h: Heap, done: set<Cell>)
    reads h.car.Keys
  {
    && h.car.Keys == h.cdr.Keys
    && forall c :: c in h.car ==>
         && c.cdr == h.cdr[c]
         && c.car == (if c in done && h.car[c].Leaf? && h.car[c].atom.Name?
                      then Leaf(Bound(h.car[c].atom.symbol)) else h.car[c])
  }

  /** A tree that the expansion has not come to yet. */
  ghost predicate Untouched(h: Heap, done: set<Cell>, t: Tree) {
    Holds(h, t) && Distinct(t) && CellsOf(t) !! done
  }

  method AddFormals(formals: Formals, x0: Item, ghost h: Heap, ghost done: set<Cell>, ghost t: Tree)
    returns (r: Formals)
    requires State(h, done) && Untouched(h, done, t) && x0 == ItemOf(t)
    ensures NamesOf(r) == NamesOf(formals) + FormalNames(t)
  {
    hide State, Untouched;
    var x := x0;
    ghost var s := t;
    r := formals;
    while x.Ref?
      invariant x == ItemOf(s) && Untouched(h, done, s)
      invariant NamesOf(r) + FormalNames(s) == NamesOf(formals) + FormalNames(t)
      decreases s
    {
      Part(h, done, s);
      var a := x.cell.car;
      if a.Leaf? && a.atom.Name? {
        r := More(a.atom.symbol, r);
      }
      x := x.cell.cdr;
      s := s.cdr;
    }
    if x.atom.Name? {
      r := More(x.atom.symbol, r);
    }
  }

  /** The first pass over a list: its internal definitions become formals.  It
      strays where a definition ends behind its first element. */
  method AddDefinitions(formals: Formals, x0: Item, ghost h: Heap, ghost done: set<Cell>, ghost t: Tree)
    returns (r: Formals, ok: bool)
    requires State(h, done) && Untouched(h, done, t) && x0 == ItemOf(t)
    ensures ok == NamedDefinitions(t)
    ensures ok ==> NamesOf(r) == NamesOf(formals) + InternalNames(t)
  {
    hide State, Untouched, DefinedName, NamesOf, DefinesSomething;
    var v := x0;
    ghost var s := t;
    r, ok := formals, true;
    while v.Ref?
      invariant v == ItemOf(s) && Untouched(h, done, s)
      invariant NamedDefinitions(t) == NamedDefinitions(s)
      invariant NamesOf(r) + InternalNames(s) == NamesOf(formals) + InternalNames(t)
      decreases s
    {
      Part(h, done, s);
      var a := v.cell.car;
      if a == Leaf(Name(Quote)) {
        break;
      }
      r, ok := AddDefined(r, a, h, done, s.car);
      if !ok {
        return;
      }
      v := v.cell.cdr;
      s := s.cdr;
    }
  }

  /** What the fields of an untouched pair hold. */
  lemma Part(h: Heap, done: set<Cell>, t: Tree)
    requires State(h, done) && Untouched(h, done, t) && t.Node?
    ensures Untouched(h, done, t.car) && Untouched(h, done, t.cdr)
    ensures t.cell.car == ItemOf(t.car) && t.cell.cdr == ItemOf(t.cdr)
  {
    assert t.cell in h.car && t.cell in CellsOf(t);
  }

  method AddDefined(formals: Formals, a: Item, ghost h: Heap, ghost done: set<Cell>, ghost t: Tree)
    returns (r: Formals, ok: bool)
    requires State(h, done) && Untouched(h, done, t) && a == ItemOf(t)
    ensures ok == DefinesSomething(t)
    ensures ok ==> NamesOf(r) == NamesOf(formals) + DefinedName(t)
  {
    hide State, Untouched;
    r, ok := formals, true;
    if a.Ref? {
      Part(h, done, t);
      var head := a.cell.car;
      if head == Leaf(Name(Define)) || head == Leaf(Name(DefineMacro)) {
        if !a.cell.cdr.Ref? {
          return r, false;
        }
        Part(h, done, t.cdr);
        if t.cdr.car.Node? {
          Part(h, done, t.cdr.car);
        }
        var name := a.cell.cdr.cell.car;
        if name.Ref? {
          name := name.cell.car;
        }
        if name.Leaf? && name.atom.Name? {
          r := More(name.atom.symbol, r);
        }
      }
    }
  }

  /** Lists that are still to be expanded, each with the names bound in it. */
  datatype Pending = Pending(tree: Tree, bound: set<Symbol>)

  predicate AllExpandable(pending: seq<Pending>) {
    forall i :: 0 <= i < |pending| ==> Expandable(pending[i].tree)
  }

  ghost function PendingMarks(pending: seq<Pending>): set<Cell> {
    if pending == [] then {}
    else Marks(pending[0].tree, pending[0].bound, false) + PendingMarks(pending[1..])
  }

  /** How many pairs there are. */
  ghost function Pairs(t: Tree): nat {
    match t
    case Tip(_) => 0
    case Node(_, a, d) => 1 + Pairs(a) + Pairs(d)
  }

  ghost function PendingPairs(pending: seq<Pending>): nat {
    if pending == [] then 0 else Pairs(pending[0].tree) + PendingPairs(pending[1..])
  }

  /** The list in hand and those that are pending are untouched and apart. */
  ghost predicate Ready(h: Heap, done: set<Cell>, s: Tree, pending: seq<Pending>) {
    && Untouched(h, done, s)
    && (forall i :: 0 <= i < |pending| ==>
          pending[i].tree.Node? && Untouched(h, done, pending[i].tree) && CellsOf(s) !! CellsOf(pending[i].tree))
    && (forall i, j :: 0 <= i < j < |pending| ==> CellsOf(pending[i].tree) !! CellsOf(pending[j].tree))
  }

  /** The registers hold what is pending. */
  ghost predicate Fits(work: seq<(Item, Formals)>, pending: seq<Pending>) {
    && |work| == |pending|
    && forall i :: 0 <= i < |work| ==>
         work[i].0 == ItemOf(pending[i].tree) && NamesOf(work[i].1) == pending[i].bound
  }

  lemma ReadyTail(h: Heap, done: set<Cell>, s: Tree, pending: seq<Pending>)
    requires Ready(h, done, s, pending) && s.Node?
    ensures Ready(h, done, s.cdr, pending)
  {
  }

  lemma ReadyPush(h: Heap, done: set<Cell>, s: Tree, bound: set<Symbol>, pending: seq<Pending>)
    requires Ready(h, done, s, pending) && s.Node? && s.car.Node?
    ensures Ready(h, done, s.cdr, [Pending(s.car, bound)] + pending)
    ensures PendingMarks([Pending(s.car, bound)] + pending) == Marks(s.car, bound, false) + PendingMarks(pending)
    ensures PendingPairs([Pending(s.car, bound)] + pending) == Pairs(s.car) + PendingPairs(pending)
    ensures AllExpandable([Pending(s.car, bound)] + pending) <==> Expandable(s.car) && AllExpandable(pending)
  {
    var more := [Pending(s.car, bound)] + pending;
    assert more[1..] == pending;
    assert forall i :: 0 < i < |more| ==> more[i] == pending[i - 1];
  }

  lemma ReadyMark(h: Heap, done: set<Cell>, s: Tree, pending: seq<Pending>)
    requires Ready(h, done, s, pending) && s.Node?
    ensures Ready(h, done + {s.cell}, s.cdr, pending)
  {
    assert s.cell in CellsOf(s);
  }

  lemma ReadyPop(h: Heap, done: set<Cell>, s: Tree, pending: seq<Pending>)
    requires Ready(h, done, s, pending) && pending != []
    ensures Ready(h, done, pending[0].tree, pending[1..])
    ensures AllExpandable(pending) <==> Expandable(pending[0].tree) && AllExpandable(pending[1..])
    ensures PendingMarks(pending) ==
      Marks(pending[0].tree, pending[0].bound, false) + PendingMarks(pending[1..])
    ensures PendingPairs(pending) == Pairs(pending[0].tree) + PendingPairs(pending[1..])
    ensures pending[0].tree.Node?
  {
    var rest := pending[1..];
    assert forall i :: 0 <= i < |rest| ==> rest[i] == pending[i + 1];
  }

  /** What there is to do for a list, by its first element. */
  lemma WalkUnfold(h: Heap, done: set<Cell>, s: Tree, bound: set<Symbol>, top: bool, pending: seq<Pending>)
    requires Ready(h, done, s, pending) && s.Node?
    ensures Shaped(s) <==>
      if s.car.Node? then Expandable(s.car) && Shaped(s.cdr)
      else if HasFormals(s.car) then s.cdr.Node? && Shaped(s.cdr.cdr)
      else s.car == Tip(Name(Quote)) || Shaped(s.cdr)
    ensures WalkMarks(s, bound, top) ==
      if s.car.Node? then Marks(s.car, bound, false) + WalkMarks(s.cdr, bound, false)
      else if HasFormals(s.car) then
        if s.cdr.Node? then WalkMarks(s.cdr.cdr, bound + Brought(s, top), false) else {}
      else if s.car == Tip(Name(Quote)) then {}
      else (if Replaceable(s.car, bound) then {s.cell} else {}) + WalkMarks(s.cdr, bound, false)
  {
  }

  lemma ReadyFacts(h: Heap, done: set<Cell>, s: Tree, pending: seq<Pending>)
    requires Ready(h, done, s, pending)
    ensures Untouched(h, done, s)
    ensures Ready(h, done, Tip(Empty), pending)
    ensures s.Node? ==> s.cell in h.car
  {
  }

  lemma NothingToWalk(s: Tree, bound: set<Symbol>, top: bool)
    requires s.Tip?
    ensures WalkMarks(s, bound, top) == {} && Shaped(s)
  {
  }

  lemma MarksAre(s: Tree, bound: set<Symbol>, top: bool)
    ensures Marks(s, bound, top) == WalkMarks(s, bound + InternalNames(s), top)
  {
  }

  lemma NotDone(h: Heap, done: set<Cell>, s: Tree, pending: seq<Pending>)
    requires Ready(h, done, s, pending) && s.Node?
    ensures s.cell !in done
  {
    assert s.cell in CellsOf(s);
  }

  /** Replaces a name by its binding. */
  method Mark(c: Cell, symbol: Symbol, ghost h: Heap, ghost done: set<Cell>, ghost s: Tree, ghost pending: seq<Pending>)
    requires State(h, done) && Ready(h, done, s, pending) && s.Node? && s.cell == c
    requires c.car == Leaf(Name(symbol)) && c in h.car
    modifies c`car
    ensures State(h, done + {c}) && Ready(h, done + {c}, s.cdr, pending)
  {
    ReadyMark(h, done, s, pending);
    NotDone(h, done, s, pending);
    hide Ready;
    c.car := Leaf(Bound(symbol));
  }

  /** Is the atom a name that is to be replaced? */
  method IsVariable(a: Atom, formals: Formals) returns (r: bool)
    ensures r == Replaceable(Tip(a), NamesOf(formals)) && (r ==> a.Name?)
  {
    r := a.Name? && a.symbol != CurrentEnvironment;
    if r {
      var bound := FormalP(a.symbol, formals);
      r := !bound;
    }
  }

  /** Expands one list.  Lists in it are left for later.  It strays, and stops,
      where a lambda or define is the last element. */
  method ExpandList(x0: Item, formals: Formals, work0: seq<(Item, Formals)>, top0: bool,
                    ghost h: Heap, ghost done0: set<Cell>, ghost t: Tree, ghost pending0: seq<Pending>)
    returns (ok: bool, work: seq<(Item, Formals)>, ghost done: set<Cell>, ghost pending: seq<Pending>)
    requires State(h, done0) && Ready(h, done0, t, pending0) && x0 == ItemOf(t) && Fits(work0, pending0)
    modifies h.car.Keys
    ensures State(h, done)
    ensures done <= done0 + Marks(t, NamesOf(formals), top0) + PendingMarks(pending0)
    ensures Expandable(t) && AllExpandable(pending0) <==> ok && AllExpandable(pending)
    ensures ok ==> Ready(h, done, Tip(Empty), pending) && Fits(work, pending)
    ensures ok ==>
      done + PendingMarks(pending) == done0 + Marks(t, NamesOf(formals), top0) + PendingMarks(pending0)
    ensures ok ==> PendingPairs(pending) + (if t.Node? then 1 else 0) <= Pairs(t) + PendingPairs(pending0)
  {
    hide Ready, State, Untouched, Marks, WalkMarks, PendingMarks, AllExpandable, Shaped, NamedDefinitions;
    hide Fits, Brought, InternalNames, NamesOf, Pairs, PendingPairs, Replaceable;
    ReadyFacts(h, done0, t, pending0);
    var r1, top := x0, top0;
    work, done, pending := work0, done0, pending0;
    var r2;
    r2, ok := AddDefinitions(formals, x0, h, done0, t);
    if !ok {
      return;
    }
    ghost var s := t;
    ghost var all := done0 + Marks(t, NamesOf(formals), top0) + PendingMarks(pending0);
    MarksAre(t, NamesOf(formals), top0);
    while r1.Ref?
      invariant State(h, done) && Ready(h, done, s, pending) && r1 == ItemOf(s) && Fits(work, pending)
      invariant ok && (Expandable(t) && AllExpandable(pending0) <==> Shaped(s) && AllExpandable(pending))
      invariant done + WalkMarks(s, NamesOf(r2), top) + PendingMarks(pending) == all
      invariant PendingPairs(pending) + Pairs(s) + (if s == t then 0 else 1) <= Pairs(t) + PendingPairs(pending0)
      decreases s
    {
      ReadyFacts(h, done, s, pending);
      PairsOf(s);
      Part(h, done, s);
      WalkUnfold(h, done, s, NamesOf(r2), top, pending);
      var a := r1.cell.car;
      if a.Ref? {
        ReadyPush(h, done, s, NamesOf(r2), pending);
        FitsPush(work, pending, a, r2, s.car);
        work := [(a, r2)] + work;
        pending := [Pending(s.car, NamesOf(r2))] + pending;
      } else if a == Leaf(Name(Lambda)) || a == Leaf(Name(Define)) || a == Leaf(Name(DefineMacro)) {
        if !r1.cell.cdr.Ref? {
          ok := false;
          return;
        }
        Part(h, done, s.cdr);
        PairsOf(s.cdr);
        ReadyTail(h, done, s, pending);
        r2 := AddBrought(r2, a, r1.cell.cdr.cell.car, top, h, done, s);
        r1 := r1.cell.cdr;
        s := s.cdr;
        ReadyTail(h, done, s, pending);
      } else if a == Leaf(Name(Quote)) {
        break;
      } else {
        ReadyTail(h, done, s, pending);
        var replace := IsVariable(a.atom, r2);
        if replace {
          Mark(r1.cell, a.atom.symbol, h, done, s, pending);
          done := done + {s.cell};
        }
      }
      r1 := r1.cell.cdr;
      s := s.cdr;
      top := false;
      ReadyFacts(h, done, s, pending);
    }
    ReadyFacts(h, done, s, pending);
    PairsOf(s);
    if s.Tip? {
      NothingToWalk(s, NamesOf(r2), top);
    }
  }

  lemma PairsOf(s: Tree)
    ensures Pairs(s) == if s.Tip? then 0 else 1 + Pairs(s.car) + Pairs(s.cdr)
  {
  }

  lemma FitsPush(work: seq<(Item, Formals)>, pending: seq<Pending>, a: Item, f: Formals, t: Tree)
    requires Fits(work, pending) && a == ItemOf(t)
    ensures Fits([(a, f)] + work, [Pending(t, NamesOf(f))] + pending)
  {
  }

  method AddBrought(formals: Formals, a: Item, f0: Item, top: bool, ghost h: Heap, ghost done: set<Cell>, ghost s: Tree)
    returns (r: Formals)
    requires State(h, done) && Untouched(h, done, s) && s.Node? && s.cdr.Node? && HasFormals(s.car)
    requires a == ItemOf(s.car) && f0 == ItemOf(s.cdr.car)
    ensures NamesOf(r) == NamesOf(formals) + Brought(s, top)
  {
    Part(h, done, s);
    Part(h, done, s.cdr);
    var f := f0;
    ghost var t := s.cdr.car;
    if top && a != Leaf(Name(Lambda)) {
      if f.Ref? {
        Part(h, done, t);
        f := f.cell.cdr;
        t := t.cdr;
      } else {
        f := Leaf(Empty);
        t := Tip(Empty);
      }
    }
    r := AddFormals(formals, f, h, done, t);
  }

  /** The tree after the marked names have been replaced. */
  ghost function Expanded(t: Tree, marks: set<Cell>): Tree {
    match t
    case Tip(_) => t
    case Node(c, a, d) =>
      Node(c, if c in marks && a.Tip? && a.atom.Name? then Tip(Bound(a.atom.symbol)) else Expanded(a, marks),
           Expanded(d, marks))
  }

  /** The cells hold the tree. */
  ghost predicate Stands(t: Tree)
    reads CellsOf(t)
  {
    match t
    case Tip(_) => true
    case Node(c, a, d) => c.car == ItemOf(a) && c.cdr == ItemOf(d) && Stands(a) && Stands(d)
  }

  ghost function Snapshot(cells: set<Cell>): (h: Heap)
    reads cells
    ensures h.car.Keys == h.cdr.Keys == cells
    ensures forall c :: c in cells ==> h.car[c] == c.car && h.cdr[c] == c.cdr
  {
    Heap(map c | c in cells :: c.car, map c | c in cells :: c.cdr)
  }

  lemma {:induction false} SnapshotHolds(t: Tree, cells: set<Cell>)
    requires Stands(t) && CellsOf(t) <= cells
    ensures Holds(Snapshot(cells), t)
  {
    if t.Node? {
      assert t.cell in CellsOf(t);
      SnapshotHolds(t.car, cells);
      SnapshotHolds(t.cdr, cells);
    }
  }

  lemma {:induction false} ExpandedItem(t: Tree, marks: set<Cell>)
    ensures ItemOf(Expanded(t, marks)) == ItemOf(t) && CellsOf(Expanded(t, marks)) == CellsOf(t)
  {
    if t.Node? {
      ExpandedItem(t.car, marks);
      ExpandedItem(t.cdr, marks);
    }
  }

  lemma {:induction false} ExpandedStands(h: Heap, done: set<Cell>, t: Tree)
    requires State(h, done) && Holds(h, t)
    ensures Stands(Expanded(t, done))
  {
    if t.Node? {
      ExpandedItem(t.car, done);
      ExpandedItem(t.cdr, done);
      ExpandedStands(h, done, t.car);
      ExpandedStands(h, done, t.cdr);
    }
  }

  /** Expands code in place: what the cells hold afterwards is the same tree,
      but for the names that the marks say.  It finds whatever it looks for
      exactly in code that is expandable; in other code it stops, having
      replaced some of these names and nothing else. */
  method ExpandVariable(x: Item, formals: Formals, ghost t: Tree) returns (ok: bool, ghost done: set<Cell>)
    requires x == ItemOf(t) && Stands(t) && Distinct(t)
    modifies CellsOf(t)
    ensures ok == Expandable(t)
    ensures done <= Marks(t, NamesOf(formals), true) && (ok ==> done == Marks(t, NamesOf(formals), true))
    ensures CellsOf(Expanded(t, done)) == CellsOf(t) && Stands(Expanded(t, done))
    ensures var was := old(Snapshot(CellsOf(t)));
      forall c :: c in CellsOf(t) ==>
        && c.cdr == was.cdr[c]
        && (if c in done && was.car[c].Leaf? && was.car[c].atom.Name? then c.car == Leaf(Bound(was.car[c].atom.symbol))
            else c.car == was.car[c])
  {
    hide *;
    ghost var h := Snapshot(CellsOf(t));
    Start(h, t);
    var r3: seq<(Item, Formals)>;
    ghost var pending;
    ghost var marks := Marks(t, NamesOf(formals), true);
    ok, r3, done, pending := ExpandList(x, formals, [], true, h, {}, t, []);
    assert {} + marks + {} == marks;
    while ok && r3 != []
      invariant State(h, done) && done <= marks && (Expandable(t) <==> ok && AllExpandable(pending))
      invariant ok ==> Ready(h, done, Tip(Empty), pending) && Fits(r3, pending)
      invariant ok ==> done + PendingMarks(pending) == marks
      decreases ok, PendingPairs(pending)
    {
      FitsPop(r3, pending);
      ReadyPop(h, done, Tip(Empty), pending);
      ghost var next, bound, rest := pending[0].tree, pending[0].bound, pending[1..];
      assert done + Marks(next, bound, false) + PendingMarks(rest) == marks;
      ok, r3, done, pending := ExpandList(r3[0].0, r3[0].1, r3[1..], false, h, done, next, rest);
    }
    if ok {
      NothingPending(r3, pending);
      assert done == marks;
    }
    ExpandedStands(h, done, t);
    ExpandedItem(t, done);
    StateFacts(h, done);
  }

  lemma StateFacts(h: Heap, done: set<Cell>)
    requires State(h, done)
    ensures h.car.Keys == h.cdr.Keys
    ensures forall c :: c in h.car ==>
      && c.cdr == h.cdr[c]
      && (if c in done && h.car[c].Leaf? && h.car[c].atom.Name? then c.car == Leaf(Bound(h.car[c].atom.symbol))
          else c.car == h.car[c])
  {
  }

  lemma Start(h: Heap, t: Tree)
    requires h == Snapshot(CellsOf(t)) && Stands(t) && Distinct(t)
    ensures h.car.Keys == CellsOf(t) && Holds(h, t)
    ensures State(h, {}) && Ready(h, {}, t, []) && Fits([], []) && AllExpandable([]) && PendingMarks([]) == {}
  {
    SnapshotHolds(t, CellsOf(t));
  }

  lemma FitsPop(work: seq<(Item, Formals)>, pending: seq<Pending>)
    requires Fits(work, pending) && work != []
    ensures pending != [] && Fits(work[1..], pending[1..])
    ensures work[0].0 == ItemOf(pending[0].tree) && NamesOf(work[0].1) == pending[0].bound
  {
  }

  lemma NothingPending(work: seq<(Item, Formals)>, pending: seq<Pending>)
    requires Fits(work, pending) && work == []
    ensures PendingMarks(pending) == {} && AllExpandable(pending)
  {
  }
}
