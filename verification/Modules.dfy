/** Looking a name up in a module and in the modules it uses. */
module Modules {
  import opened Wrappers
  import Lists

  type Symbol = string

  /** A search that goes on with a worklist, or is over. */
  datatype Progress = Searching(work: seq<nat>) | Done(found: Option<int>)

  /** A variable, none, or a module that is met again below itself. */
  datatype Outcome = Hit(value: int) | Miss | Cycle(to: nat)
  {
    static function From(found: Option<int>): Outcome {
      match found
      case Some(v) => Hit(v)
      case None => Miss
    }

    function Found(): Option<int> {
      if Hit? then Some(value) else None
    }
  }

  /** Modules are numbered; each has its own variables and uses others. */
  datatype ModuleGraph = ModuleGraph(uses: seq<seq<nat>>, variables: seq<map<Symbol, int>>)
  {
    ghost predicate Valid() {
      |uses| == |variables| && forall m :: 0 <= m < |uses| ==> Within(uses[m])
    }

    ghost predicate Within(ms: seq<nat>) {
      forall i :: 0 <= i < |ms| ==> ms[i] < |uses|
    }

    /** No module uses itself, however indirectly: `rank` falls along uses. */
    ghost predicate Acyclic(rank: seq<nat>) {
      && Valid() && |rank| == |uses|
      && forall m :: 0 <= m < |uses| ==> Lower(rank, uses[m], rank[m])
    }

    ghost predicate Lower(rank: seq<nat>, ms: seq<nat>, r: nat) {
      forall i :: 0 <= i < |ms| ==> ms[i] < |rank| && rank[ms[i]] < r
    }

    function Variable(m: nat, name: Symbol): Option<int>
      requires m < |variables|
    {
      if name in variables[m] then Some(variables[m][name]) else None
    }

    /** Recursive search: the module itself, then each module it uses. */
    ghost function Search(rank: seq<nat>, m: nat, name: Symbol): Option<int>
      requires Acyclic(rank) && m < |uses|
      decreases rank[m] + 1, 0
    {
      if Variable(m, name).Some? then Variable(m, name)
      else SearchAll(rank, uses[m], name, rank[m])
    }

    ghost function SearchAll(rank: seq<nat>, ms: seq<nat>, name: Symbol, below: nat): Option<int>
      requires Acyclic(rank) && Lower(rank, ms, below)
      decreases below, |ms|
    {
      if ms == [] then None
      else
        var first := Search(rank, ms[0], name);
        if first.Some? then first else SearchAll(rank, ms[1..], name, below)
    }

    /** The modules in depth-first preorder, each as often as it is met. */
    ghost function Preorder(rank: seq<nat>, m: nat): (s: seq<nat>)
      requires Acyclic(rank) && m < |uses|
      ensures s != [] && Within(s)
      decreases rank[m] + 1, 0
    {
      [m] + PreorderAll(rank, uses[m], rank[m])
    }

    ghost function PreorderAll(rank: seq<nat>, ms: seq<nat>, below: nat): (s: seq<nat>)
      requires Acyclic(rank) && Lower(rank, ms, below)
      ensures Within(s)
      decreases below, |ms|
    {
      if ms == [] then [] else Preorder(rank, ms[0]) + PreorderAll(rank, ms[1..], below)
    }

    /** The variable of the first module in a row that has one. */
    ghost function First(ms: seq<nat>, name: Symbol): Option<int>
      requires Valid() && Within(ms)
    {
      if ms == [] then None
      else if Variable(ms[0], name).Some? then Variable(ms[0], name)
      else First(ms[1..], name)
    }

    lemma {:induction false} FirstAppend(a: seq<nat>, b: seq<nat>, name: Symbol)
      requires Valid() && Within(a) && Within(b)
      ensures Within(a + b)
      ensures First(a + b, name) == if First(a, name).Some? then First(a, name) else First(b, name)
    {
      if a == [] {
        assert a + b == b;
      } else {
        assert (a + b)[1..] == a[1..] + b;
        FirstAppend(a[1..], b, name);
      }
    }

    lemma {:induction false} SearchIsPreorder(rank: seq<nat>, m: nat, name: Symbol)
      requires Acyclic(rank) && m < |uses|
      ensures Search(rank, m, name) == First(Preorder(rank, m), name)
      decreases rank[m] + 1, 0
    {
      SearchAllIsPreorder(rank, uses[m], name, rank[m]);
      assert Preorder(rank, m)[1..] == PreorderAll(rank, uses[m], rank[m]);
    }

    lemma {:induction false} SearchAllIsPreorder(rank: seq<nat>, ms: seq<nat>, name: Symbol, below: nat)
      requires Acyclic(rank) && Lower(rank, ms, below)
      ensures SearchAll(rank, ms, name, below) == First(PreorderAll(rank, ms, below), name)
      decreases below, |ms|
    {
      if ms != [] {
        SearchIsPreorder(rank, ms[0], name);
        SearchAllIsPreorder(rank, ms[1..], name, below);
        FirstAppend(Preorder(rank, ms[0]), PreorderAll(rank, ms[1..], below), name);
      }
    }

    /** Where `n` turns of the worklist lead. */
    ghost function Turns(ms: seq<nat>, name: Symbol, n: nat): Progress
      requires Valid() && Within(ms)
      decreases n
    {
      if ms == [] then Done(None)
      else if Variable(ms[0], name).Some? then Done(Variable(ms[0], name))
      else if n == 0 then Searching(ms)
      else
        TurnWithin(ms);
        Turns(uses[ms[0]] + ms[1..], name, n - 1)
    }

    lemma TurnWithin(ms: seq<nat>)
      requires Valid() && Within(ms) && ms != []
      ensures Within(uses[ms[0]] + ms[1..])
    {
    }

    ghost predicate Ends(ms: seq<nat>, name: Symbol)
      requires Valid() && Within(ms)
    {
      exists n :: Turns(ms, name, n).Done?
    }

    /** Depth-first search that gives up where it meets a module that is on the
        path to it. */
    ghost function Depth(m: nat, path: set<nat>, name: Symbol): Outcome
      requires Valid() && m < |uses|
      decreases All() - path, 1, 0
    {
      if Variable(m, name).Some? then Hit(Variable(m, name).value)
      else if m in path then Cycle(m)
      else
        Onto(m, path);
        DepthAll(uses[m], path + {m}, name)
    }

    ghost function DepthAll(ms: seq<nat>, path: set<nat>, name: Symbol): Outcome
      requires Valid() && Within(ms)
      decreases All() - path, 2, |ms|
    {
      if ms == [] then Miss
      else
        var first := Depth(ms[0], path, name);
        if first.Miss? then DepthAll(ms[1..], path, name) else first
    }

    predicate IsModule(m: nat) {
      m < |uses|
    }

    ghost function All(): set<nat> {
      set m: nat | m < |uses| && IsModule(m)
    }

    lemma Onto(m: nat, path: set<nat>)
      requires m < |uses| && m !in path
      ensures All() - (path + {m}) < All() - path
    {
      assert IsModule(m) && m in All() - path;
    }

    /** After `k` turns the search goes on as it does from `to`. */
    ghost predicate Leads(ms: seq<nat>, name: Symbol, k: nat, to: seq<nat>)
      requires Valid()
    {
      Within(ms) && Within(to) && forall n: nat :: Turns(ms, name, k + n) == Turns(to, name, n)
    }

    lemma LeadsOn(a: seq<nat>, name: Symbol, k: nat, b: seq<nat>, j: nat, c: seq<nat>)
      requires Valid() && Leads(a, name, k, b) && Leads(b, name, j, c)
      ensures Leads(a, name, k + j, c)
    {
      forall n: nat ensures Turns(a, name, k + j + n) == Turns(c, name, n) {
        assert Turns(a, name, k + (j + n)) == Turns(b, name, j + n);
      }
    }

    lemma OneTurn(m: nat, name: Symbol, rest: seq<nat>)
      requires Valid() && m < |uses| && Within(rest) && Variable(m, name).None?
      ensures Leads([m] + rest, name, 1, uses[m] + rest)
    {
      var ms := [m] + rest;
      assert ms[0] == m && ms[1..] == rest;
      TurnWithin(ms);
      forall n: nat ensures Turns(ms, name, 1 + n) == Turns(uses[m] + rest, name, n) {
      }
    }

    /** What is over stays so. */
    lemma {:induction false} StaysDone(ms: seq<nat>, name: Symbol, n: nat, k: nat)
      requires Valid() && Within(ms) && Turns(ms, name, n).Done? && n <= k
      ensures Turns(ms, name, k) == Turns(ms, name, n)
      decreases n
    {
      if ms != [] && n > 0 && Variable(ms[0], name).None? {
        TurnWithin(ms);
        StaysDone(uses[ms[0]] + ms[1..], name, n - 1, k - 1);
      }
    }

    lemma EndsBack(a: seq<nat>, name: Symbol, k: nat, b: seq<nat>)
      requires Valid() && Leads(a, name, k, b)
      ensures Ends(a, name) <==> Ends(b, name)
    {
      if n: nat :| Turns(a, name, n).Done? {
        StaysDone(a, name, n, k + n);
        assert Turns(b, name, n).Done?;
      }
      if n: nat :| Turns(b, name, n).Done? {
        assert Turns(a, name, k + n).Done?;
      }
    }

    lemma Split(m: nat, ms: seq<nat>, rest: seq<nat>)
      requires Valid() && m < |uses| && Within(ms) && Within(rest)
      ensures Within(ms + rest) && Within([m] + rest)
      ensures ms != [] ==> ms + rest == [ms[0]] + (ms[1..] + rest) && Within(ms[1..] + rest) && Within(ms[1..])
    {
    }

    /** A module below which there is nothing is passed over. */
    lemma {:induction false} MissLeads(m: nat, path: set<nat>, name: Symbol, rest: seq<nat>) returns (k: nat)
      requires Valid() && m < |uses| && Within(rest) && Depth(m, path, name).Miss?
      ensures Leads([m] + rest, name, k, rest)
      decreases All() - path, 1, 0
    {
      hide Leads;
      Onto(m, path);
      OneTurn(m, name, rest);
      var j := MissAllLeads(uses[m], path + {m}, name, rest);
      LeadsOn([m] + rest, name, 1, uses[m] + rest, j, rest);
      k := 1 + j;
    }

    lemma {:induction false} MissAllLeads(ms: seq<nat>, path: set<nat>, name: Symbol, rest: seq<nat>)
      returns (k: nat)
      requires Valid() && Within(ms) && Within(rest) && DepthAll(ms, path, name).Miss?
      ensures Leads(ms + rest, name, k, rest)
      decreases All() - path, 2, |ms|
    {
      if ms == [] {
        assert ms + rest == rest;
        k := 0;
      } else {
        hide Leads;
        Split(ms[0], ms, rest);
        var i := MissLeads(ms[0], path, name, ms[1..] + rest);
        var j := MissAllLeads(ms[1..], path, name, rest);
        LeadsOn(ms + rest, name, i, ms[1..] + rest, j, rest);
        k := i + j;
      }
    }

    /** What is found first in depth is what the worklist comes to. */
    lemma {:induction false} HitDone(m: nat, path: set<nat>, name: Symbol, rest: seq<nat>) returns (k: nat)
      requires Valid() && m < |uses| && Within(rest) && Depth(m, path, name).Hit?
      ensures Within([m] + rest) && Turns([m] + rest, name, k) == Done(Some(Depth(m, path, name).value))
      decreases All() - path, 1, 0
    {
      Split(m, [], rest);
      if Variable(m, name).Some? {
        k := 0;
      } else {
        Onto(m, path);
        OneTurn(m, name, rest);
        var j := HitAllDone(uses[m], path + {m}, name, rest);
        k := 1 + j;
      }
    }

    lemma {:induction false} HitAllDone(ms: seq<nat>, path: set<nat>, name: Symbol, rest: seq<nat>)
      returns (k: nat)
      requires Valid() && Within(ms) && Within(rest) && DepthAll(ms, path, name).Hit?
      ensures Within(ms + rest) && Turns(ms + rest, name, k) == Done(Some(DepthAll(ms, path, name).value))
      decreases All() - path, 2, |ms|
    {
      Split(ms[0], ms, rest);
      if Depth(ms[0], path, name).Miss? {
        var i := MissLeads(ms[0], path, name, ms[1..] + rest);
        var j := HitAllDone(ms[1..], path, name, rest);
        k := i + j;
      } else {
        k := HitDone(ms[0], path, name, ms[1..] + rest);
      }
    }

    /** A module that is met again: the worklist comes to it again, with more
        behind it, or is already caught further down. */
    lemma {:induction false} CycleLeads(m: nat, path: set<nat>, name: Symbol, rest: seq<nat>)
      returns (k: nat, tail: seq<nat>)
      requires Valid() && m < |uses| && Within(rest) && Depth(m, path, name).Cycle?
      ensures Within([m] + rest) && Within(tail) && Depth(m, path, name).to < |uses|
      ensures
        var c := Depth(m, path, name).to;
        if c in path then Leads([m] + rest, name, k, [c] + (tail + rest)) else !Ends([m] + rest, name)
      decreases All() - path, 1, 0
    {
      Split(m, [], rest);
      k, tail := 0, [];
      if m in path {
        assert [] + rest == rest;
      } else {
        hide Leads, Ends;
        Onto(m, path);
        OneTurn(m, name, rest);
        var j;
        j, tail := CycleAllLeads(uses[m], path + {m}, name, rest);
        var c := Depth(m, path, name).to;
        k := 1 + j;
        if c in path {
          LeadsOn([m] + rest, name, 1, uses[m] + rest, j, [c] + (tail + rest));
        } else if c == m {
          NeverEnds(m, path, name, rest);
        } else {
          EndsBack([m] + rest, name, 1, uses[m] + rest);
        }
      }
    }

    lemma {:induction false} CycleAllLeads(ms: seq<nat>, path: set<nat>, name: Symbol, rest: seq<nat>)
      returns (k: nat, tail: seq<nat>)
      requires Valid() && Within(ms) && Within(rest) && DepthAll(ms, path, name).Cycle?
      ensures Within(ms + rest) && Within(tail) && DepthAll(ms, path, name).to < |uses|
      ensures
        var c := DepthAll(ms, path, name).to;
        if c in path then Leads(ms + rest, name, k, [c] + (tail + rest)) else !Ends(ms + rest, name)
      decreases All() - path, 2, |ms|
    {
      hide Leads, Ends;
      Split(ms[0], ms, rest);
      var c, others := DepthAll(ms, path, name).to, ms[1..] + rest;
      if Depth(ms[0], path, name).Miss? {
        var i := MissLeads(ms[0], path, name, others);
        var j;
        j, tail := CycleAllLeads(ms[1..], path, name, rest);
        k := i + j;
        if c in path {
          LeadsOn(ms + rest, name, i, others, j, [c] + (tail + rest));
        } else {
          EndsBack(ms + rest, name, i, others);
        }
      } else {
        k, tail := CycleLeads(ms[0], path, name, others);
        assert tail + others == (tail + ms[1..]) + rest;
        tail := tail + ms[1..];
      }
    }

    lemma NeverEnds(m: nat, path: set<nat>, name: Symbol, rest: seq<nat>)
      requires Valid() && m < |uses| && Within(rest) && m !in path && Depth(m, path, name) == Cycle(m)
      ensures Within([m] + rest) && !Ends([m] + rest, name)
      decreases All() - path, 0, 1
    {
      Split(m, [], rest);
      forall n: nat ensures Turns([m] + rest, name, n).Searching? {
        TurnsOn(m, path, name, rest, n);
      }
    }

    lemma {:induction false} TurnsOn(m: nat, path: set<nat>, name: Symbol, rest: seq<nat>, n: nat)
      requires Valid() && m < |uses| && Within(rest) && m !in path && Depth(m, path, name) == Cycle(m)
      ensures Within([m] + rest) && Turns([m] + rest, name, n).Searching?
      decreases All() - path, 0, 0, n
    {
      Split(m, [], rest);
      if n > 0 {
        Onto(m, path);
        OneTurn(m, name, rest);
        var j, tail := CycleAllLeads(uses[m], path + {m}, name, rest);
        TurnsOn(m, path, name, tail + rest, n - 1);
        LeadsOn([m] + rest, name, 1, uses[m] + rest, j, [m] + (tail + rest));
        assert Turns([m] + rest, name, 1 + j + (n - 1)).Searching?;
        if Turns([m] + rest, name, n).Done? {
          StaysDone([m] + rest, name, n, 1 + j + (n - 1));
        }
      }
    }

    /** The search ends exactly if depth-first search meets no module below
        itself before it meets one that has the name, and then finds the same. */
    lemma EndsExactly(m: nat, name: Symbol)
      requires Valid() && m < |uses|
      ensures Within([m])
      ensures Ends([m], name) <==> !Depth(m, {}, name).Cycle?
      ensures forall n: nat :: Turns([m], name, n).Done? ==>
        Turns([m], name, n).found == Depth(m, {}, name).Found()
    {
      assert [m] + [] == [m];
      var k: nat := 0;
      match Depth(m, {}, name) {
        case Miss =>
          k := MissLeads(m, {}, name, []);
          assert Turns([m], name, k + 0) == Turns([], name, 0);
        case Hit(_) => k := HitDone(m, {}, name, []);
        case Cycle(_) =>
          var _, _ := CycleLeads(m, {}, name, []);
      }
      forall n: nat | Turns([m], name, n).Done? ensures Turns([m], name, n) == Turns([m], name, k) {
        StaysDone([m], name, n, n + k);
        StaysDone([m], name, k, n + k);
      }
    }

    /** Modules in a row, each of which uses the next. */
    ghost predicate Walk(w: seq<nat>)
      requires Valid()
    {
      w != [] && Within(w) && forall i :: 0 < i < |w| ==> w[i] in uses[w[i - 1]]
    }

    ghost predicate Distinct(w: seq<nat>) {
      forall i, j :: 0 <= i < j < |w| ==> w[i] != w[j]
    }

    /** From `m` on, no module is met below itself. */
    ghost predicate NoWayBack(m: nat)
      requires Valid()
    {
      forall w :: Walk(w) && w[0] == m ==> Distinct(w)
    }

    lemma {:induction false} MissChild(ms: seq<nat>, path: set<nat>, name: Symbol, m: nat)
      requires Valid() && Within(ms) && DepthAll(ms, path, name).Miss? && m in ms
      ensures m < |uses| && Depth(m, path, name).Miss?
      decreases |ms|
    {
      if m != ms[0] {
        MissChild(ms[1..], path, name, m);
      }
    }

    lemma {:induction false} MissWalk(w: seq<nat>, path: set<nat>, name: Symbol)
      requires Valid() && Walk(w) && Depth(w[0], path, name).Miss?
      ensures Distinct(w) && forall i :: 0 <= i < |w| ==> w[i] !in path
      ensures name !in variables[w[|w| - 1]]
      decreases |w|
    {
      if |w| > 1 {
        MissChild(uses[w[0]], path + {w[0]}, name, w[1]);
        var rest := w[1..];
        assert Walk(rest) by {
          forall i | 0 < i < |rest| ensures rest[i] in uses[rest[i - 1]] {
            assert w[i + 1] in uses[w[i + 1 - 1]];
          }
        }
        MissWalk(rest, path + {w[0]}, name);
        assert forall i :: 0 < i < |w| ==> w[i] == rest[i - 1];
      }
    }

    lemma WalkFrom(m: nat, rest: seq<nat>)
      requires Valid() && m < |uses| && Walk(rest) && rest[0] in uses[m]
      ensures Walk([m] + rest)
    {
      var w := [m] + rest;
      forall i | 0 < i < |w| ensures w[i] in uses[w[i - 1]] {
        assert w[i] == rest[i - 1] && (i > 1 ==> rest[i - 1] in uses[rest[i - 2]]);
      }
    }

    /** A cycle that is met is one: a way to a module on the path or from a
        module to itself. */
    lemma {:induction false} CycleWalk(m: nat, path: set<nat>, name: Symbol) returns (w: seq<nat>)
      requires Valid() && m < |uses| && Depth(m, path, name).Cycle?
      ensures Walk(w) && w[0] == m && w[|w| - 1] == Depth(m, path, name).to
      ensures w[|w| - 1] in path || !Distinct(w)
      decreases All() - path, 1, 0
    {
      w := [m];
      if m !in path {
        Onto(m, path);
        var rest := CycleAllWalk(uses[m], path + {m}, name);
        WalkFrom(m, rest);
        w := [m] + rest;
        if w[|w| - 1] == m {
          assert w[0] == w[|w| - 1];
        } else if !Distinct(rest) {
          var i, j :| 0 <= i < j < |rest| && rest[i] == rest[j];
          assert w[i + 1] == w[j + 1];
        }
      }
    }

    lemma {:induction false} CycleAllWalk(ms: seq<nat>, path: set<nat>, name: Symbol) returns (w: seq<nat>)
      requires Valid() && Within(ms) && DepthAll(ms, path, name).Cycle?
      ensures Walk(w) && w[0] in ms && w[|w| - 1] == DepthAll(ms, path, name).to
      ensures w[|w| - 1] in path || !Distinct(w)
      decreases All() - path, 2, |ms|
    {
      if Depth(ms[0], path, name).Miss? {
        w := CycleAllWalk(ms[1..], path, name);
      } else {
        w := CycleWalk(ms[0], path, name);
      }
    }

    /** The module itself has a variable of the name, with this value. */
    ghost predicate Has(m: nat, name: Symbol, value: int) {
      m < |variables| && name in variables[m] && variables[m][name] == value
    }

    lemma {:induction false} HitWalk(m: nat, path: set<nat>, name: Symbol) returns (w: seq<nat>)
      requires Valid() && m < |uses| && Depth(m, path, name).Hit?
      ensures Walk(w) && w[0] == m && Has(w[|w| - 1], name, Depth(m, path, name).value)
      decreases All() - path, 1, 0
    {
      w := [m];
      if Variable(m, name).None? {
        Onto(m, path);
        var rest := HitAllWalk(uses[m], path + {m}, name);
        WalkFrom(m, rest);
        w := [m] + rest;
      }
    }

    lemma {:induction false} HitAllWalk(ms: seq<nat>, path: set<nat>, name: Symbol) returns (w: seq<nat>)
      requires Valid() && Within(ms) && DepthAll(ms, path, name).Hit?
      ensures Walk(w) && w[0] in ms && Has(w[|w| - 1], name, DepthAll(ms, path, name).value)
      decreases All() - path, 2, |ms|
    {
      if Depth(ms[0], path, name).Miss? {
        w := HitAllWalk(ms[1..], path, name);
      } else {
        w := HitWalk(ms[0], path, name);
      }
    }

    /** What the search finds is the value of the variable in a module that can
        be reached; it finds nothing exactly if no such module has one. */
    lemma FoundIsThere(m: nat, name: Symbol)
      requires Valid() && m < |uses| && !Depth(m, {}, name).Cycle?
      ensures forall value :: Depth(m, {}, name).Found() == Some(value) ==>
        exists w :: Walk(w) && w[0] == m && Has(w[|w| - 1], name, value)
      ensures Depth(m, {}, name).Found() == None <==>
        forall w :: Walk(w) && w[0] == m ==> name !in variables[w[|w| - 1]]
    {
      if Depth(m, {}, name).Hit? {
        var w := HitWalk(m, {}, name);
      } else {
        forall w | Walk(w) && w[0] == m ensures name !in variables[w[|w| - 1]] {
          MissWalk(w, {}, name);
        }
      }
    }

    /** Where no module is met below itself, every search ends. */
    lemma AcyclicEnds(m: nat, name: Symbol)
      requires Valid() && m < |uses| && NoWayBack(m)
      ensures Within([m]) && Ends([m], name)
    {
      hide Ends;
      EndsExactly(m, name);
      if Depth(m, {}, name).Cycle? {
        var w := CycleWalk(m, {}, name);
      }
    }

    ghost predicate Absent(m: nat, name: Symbol)
      requires Valid()
    {
      forall w :: Walk(w) && w[0] == m ==> Variable(w[|w| - 1], name).None?
    }

    /** The search for a name that no reachable module has ends if and only if
        none of them uses itself, however indirectly. */
    lemma AbsentEnds(m: nat, name: Symbol)
      requires Valid() && m < |uses| && Absent(m, name)
      ensures Within([m]) && (Ends([m], name) <==> NoWayBack(m))
    {
      hide Ends;
      EndsExactly(m, name);
      match Depth(m, {}, name) {
        case Miss =>
          forall w | Walk(w) && w[0] == m ensures Distinct(w) {
            MissWalk(w, {}, name);
          }
        case Hit(_) =>
          var w := HitWalk(m, {}, name);
        case Cycle(_) =>
          var w := CycleWalk(m, {}, name);
      }
    }

    /** Along ranks, the search in depth is the plain recursive one. */
    lemma {:induction false} DepthIsSearch(rank: seq<nat>, m: nat, path: set<nat>, name: Symbol)
      requires Acyclic(rank) && m < |uses| && forall p :: p in path ==> p < |rank| && rank[m] < rank[p]
      ensures Depth(m, path, name) == Outcome.From(Search(rank, m, name))
      decreases rank[m] + 1, 0
    {
      if Variable(m, name).None? {
        DepthAllIsSearch(rank, uses[m], path + {m}, name, rank[m]);
      }
    }

    lemma {:induction false} DepthAllIsSearch(rank: seq<nat>, ms: seq<nat>, path: set<nat>, name: Symbol, below: nat)
      requires Acyclic(rank) && Lower(rank, ms, below) && forall p :: p in path ==> p < |rank| && below <= rank[p]
      requires Within(ms)
      ensures DepthAll(ms, path, name) == Outcome.From(SearchAll(rank, ms, name, below))
      decreases below, |ms|
    {
      if ms != [] {
        DepthIsSearch(rank, ms[0], path, name);
        DepthAllIsSearch(rank, ms[1..], path, name, below);
      }
    }
  }

  /** Where the links of each module's list of uses are. */
  ghost predicate Linked(g: ModuleGraph, heads: seq<Lists.Pair?<nat>>, chains: seq<seq<Lists.Pair<nat>>>)
    reads set m, i | 0 <= m < |chains| && 0 <= i < |chains[m]| :: chains[m][i]
  {
    && |heads| == |chains| == |g.uses|
    && forall m :: 0 <= m < |chains| ==>
         Lists.Chain(heads[m], chains[m]) && Lists.Contents(chains[m]) == g.uses[m]
  }

  lemma LinkedAt(g: ModuleGraph, heads: seq<Lists.Pair?<nat>>, chains: seq<seq<Lists.Pair<nat>>>, m: nat)
    requires Linked(g, heads, chains) && m < |g.uses|
    ensures |heads| == |chains| == |g.uses|
    ensures Lists.Chain(heads[m], chains[m]) && Lists.Contents(chains[m]) == g.uses[m]
  {
  }

  lemma Joined(a: seq<Lists.Pair<nat>>, b: seq<Lists.Pair<nat>>)
    ensures Lists.Contents(a + b) == Lists.Contents(a) + Lists.Contents(b)
  {
  }

  lemma Rest(s: seq<Lists.Pair<nat>>)
    requires s != []
    ensures s[0].car == Lists.Contents(s)[0] && Lists.Contents(s[1..]) == Lists.Contents(s)[1..]
  {
  }

  /** With `left` turns more the worklist comes to its answer. */
  ghost predicate Answers(g: ModuleGraph, work: seq<nat>, name: Symbol, left: nat, found: Option<int>) {
    g.Valid() && g.Within(work) && g.Turns(work, name, left) == Done(found)
  }

  lemma OneModule(g: ModuleGraph, m: nat, name: Symbol, cell: Lists.Pair<nat>) returns (left: nat)
    requires g.Valid() && m < |g.uses| && cell.car == m && cell.cdr == null && !g.Depth(m, {}, name).Cycle?
    ensures Lists.Chain(cell, [cell]) && Lists.Contents([cell]) == [m]
    ensures Answers(g, [m], name, left, g.Depth(m, {}, name).Found())
  {
    g.EndsExactly(m, name);
    left :| g.Turns([m], name, left).Done?;
  }

  lemma NextTurn(g: ModuleGraph, work: seq<nat>, name: Symbol, left: nat, found: Option<int>)
    requires work != [] && Answers(g, work, name, left, found)
    ensures work[0] < |g.uses| == |g.variables|
    ensures g.Variable(work[0], name).Some? ==> found == g.Variable(work[0], name)
    ensures g.Variable(work[0], name).None? ==>
      left > 0 && Answers(g, g.uses[work[0]] + work[1..], name, left - 1, found)
  {
    g.TurnWithin(work);
  }

  lemma NoneLeft(g: ModuleGraph, cells: seq<Lists.Pair<nat>>, name: Symbol, left: nat, found: Option<int>)
    requires Lists.Chain(null, cells) && Answers(g, Lists.Contents(cells), name, left, found)
    ensures found == None
  {
  }

  /** Puts what the first module uses in its place. */
  method Replace(g: ModuleGraph, heads: seq<Lists.Pair?<nat>>, ghost chains: seq<seq<Lists.Pair<nat>>>,
                 modules: Lists.Pair<nat>, ghost cells: seq<Lists.Pair<nat>>)
    returns (r: Lists.Pair?<nat>, ghost now: seq<Lists.Pair<nat>>)
    requires Linked(g, heads, chains) && Lists.Chain(modules, cells) && modules.car < |g.uses|
    ensures cells != [] && Lists.Chain(r, now)
    ensures Lists.Contents(now) == g.uses[modules.car] + Lists.Contents(cells)[1..]
  {
    hide *;
    var current := modules.car;
    LinkedAt(g, heads, chains, current);
    Lists.Unlinked(modules, cells);
    Rest(cells);
    ghost var copy;
    ghost var rest := cells[1..];
    r, copy := Lists.Append2(heads[current], modules.cdr, chains[current], rest);
    Joined(copy, rest);
    now := copy + rest;
  }

  /** The search with a worklist is the search in depth, wherever it ends. */
  method ModuleVariable(g: ModuleGraph, heads: seq<Lists.Pair?<nat>>, ghost chains: seq<seq<Lists.Pair<nat>>>,
                        start: nat, name: Symbol)
    returns (r: Option<int>)
    requires g.Valid() && start < |g.uses| && Linked(g, heads, chains)
    requires !g.Depth(start, {}, name).Cycle?
    ensures r == g.Depth(start, {}, name).Found()
  {
    hide *;
    var first := new Lists.Pair<nat>(start, null);
    ghost var left := OneModule(g, start, name, first);
    var modules: Lists.Pair?<nat> := first;
    ghost var cells, work, found := [first], [start], g.Depth(start, {}, name).Found();
    while modules != null
      invariant Linked(g, heads, chains)
      invariant Lists.Chain(modules, cells) && Lists.Contents(cells) == work
      invariant Answers(g, work, name, left, found)
      decreases left
    {
      Lists.Unlinked(modules, cells);
      Rest(cells);
      NextTurn(g, work, name, left, found);
      var current := modules.car;
      var variable := g.Variable(current, name);
      if variable.Some? {
        return variable;
      }
      modules, cells := Replace(g, heads, chains, modules, cells);
      work := g.uses[current] + work[1..];
      left := left - 1;
    }
    NoneLeft(g, cells, name, left, found);
    r := None;
  }

  /** A name is found before the way back to a module is met. */
  lemma FoundBeforeCycle(g: ModuleGraph, name: Symbol)
    requires g.uses == [[1, 0], []] && |g.variables| == 2 && g.Variable(0, name).None?
    ensures g.Valid() && !g.NoWayBack(0)
    ensures g.Within([0]) && (g.Ends([0], name) <==> name in g.variables[1])
  {
    assert g.uses[0] == [1, 0] && g.uses[1] == [];
    assert g.uses[0][1] == 0;
    assert g.Walk([0, 0]) && [0, 0][0] == [0, 0][1];
    g.EndsExactly(0, name);
    assert [1, 0][1..] == [0] && {} + {0} == {0};
    assert g.Depth(0, {}, name) == g.DepthAll([1, 0], {0}, name);
    if g.Variable(1, name).None? {
      assert g.DepthAll([], {0} + {1}, name) == Miss;
      assert g.Depth(1, {0}, name) == Miss;
      assert g.Depth(0, {0}, name) == Cycle(0);
      assert g.DepthAll([0], {0}, name) == Cycle(0);
    } else {
      assert g.Depth(1, {0}, name).Hit?;
    }
  }
}
