/** What the evaluator computes, form by form, with no bound and no stack in
    sight: the meaning of a form from the meanings of its parts. */
module Laws {
  import opened Values
  import opened Machine
  import opened Evaluator
  import opened Environments
  import opened Fuel
  import Builtins

  predicate Is(r: Result, v: Value) {
    r.Val? && r.value == v
  }

  lemma AfterIs(h: nat, r: Result, v: Value)
    ensures Is(After(h, r), v) <==> Is(r, v)
  {
  }

  predicate Has(cfg: Config, fuel: nat, e: Value, env: Value, v: Value) {
    Is(Evaluate(cfg, fuel, e, env), v)
  }

  /** In environment `env` the expression has the value `v`. */
  ghost predicate Denotes(cfg: Config, e: Value, env: Value, v: Value) {
    exists fuel: nat :: Has(cfg, fuel, e, env, v)
  }

  predicate HasAll(cfg: Config, fuel: nat, es: seq<Value>, env: Value, vs: seq<Value>) {
    |vs| == |es| && forall i :: 0 <= i < |es| ==> Has(cfg, fuel, es[i], env, vs[i])
  }

  ghost predicate DenoteAll(cfg: Config, es: seq<Value>, env: Value, vs: seq<Value>) {
    |vs| == |es| && forall i :: 0 <= i < |es| ==> Denotes(cfg, es[i], env, vs[i])
  }

  predicate Applied(cfg: Config, fuel: nat, fn: Value, xs: seq<Value>, env: Value, v: Value) {
    Is(ApplyTo(cfg, fuel, fn, Listed(xs, Nil), env), v)
  }

  /** Applied to `xs`, the procedure gives `v`. */
  ghost predicate Yields(cfg: Config, fn: Value, xs: seq<Value>, env: Value, v: Value) {
    exists fuel: nat :: Applied(cfg, fuel, fn, xs, env, v)
  }

  /** A body: everything in it has a value, and `v` is the value of the last. */
  ghost predicate Ends(cfg: Config, es: seq<Value>, env: Value, v: Value) {
    es != [] && exists vs :: DenoteAll(cfg, es, env, vs) && vs[|es| - 1] == v
  }

  lemma More(cfg: Config, f: nat, g: nat, e: Value, env: Value, v: Value)
    requires f <= g && Has(cfg, f, e, env, v)
    ensures Has(cfg, g, e, env, v)
  {
    hide Evaluate;
    MoreEvaluate(cfg, f, g, e, env);
  }

  lemma MoreApplied(cfg: Config, f: nat, g: nat, fn: Value, xs: seq<Value>, env: Value, v: Value)
    requires f <= g && Applied(cfg, f, fn, xs, env, v)
    ensures Applied(cfg, g, fn, xs, env, v)
  {
    hide ApplyTo;
    MoreApply(cfg, f, g, fn, Listed(xs, Nil), env);
  }

  /** Expressions that all have values have them within one bound. */
  lemma {:induction false} Enough(cfg: Config, es: seq<Value>, env: Value, vs: seq<Value>) returns (fuel: nat)
    requires DenoteAll(cfg, es, env, vs)
    ensures HasAll(cfg, fuel, es, env, vs)
  {
    hide Has;
    if es == [] {
      fuel := 0;
    } else {
      var last := |es| - 1;
      var f := Enough(cfg, es[..last], env, vs[..last]);
      assert Denotes(cfg, es[last], env, vs[last]);
      var g: nat :| Has(cfg, g, es[last], env, vs[last]);
      fuel := if f < g then g else f;
      forall i | 0 <= i < |es| ensures Has(cfg, fuel, es[i], env, vs[i]) {
        if i < last {
          assert es[..last][i] == es[i] && vs[..last][i] == vs[i];
          More(cfg, f, fuel, es[i], env, vs[i]);
        } else {
          More(cfg, g, fuel, es[i], env, vs[i]);
        }
      }
    }
  }

  lemma AllDenote(cfg: Config, fuel: nat, es: seq<Value>, env: Value, vs: seq<Value>)
    requires HasAll(cfg, fuel, es, env, vs)
    ensures DenoteAll(cfg, es, env, vs)
  {
    hide Has;
    forall i | 0 <= i < |es| ensures Denotes(cfg, es[i], env, vs[i]) {
      assert Has(cfg, fuel, es[i], env, vs[i]);
    }
  }

  /** Arguments are evaluated each for itself, and keep their order. */
  lemma {:induction false} ListHas(cfg: Config, fuel: nat, es: seq<Value>, env: Value) returns (vs: seq<Value>)
    ensures var r := EvalList(cfg, fuel, Listed(es, Nil), env);
      r.Val? ==> HasAll(cfg, fuel, es, env, vs) && r.value == Listed(vs, Nil)
  {
    hide Evaluate;
    vs := [];
    if es != [] {
      var rest := ListHas(cfg, fuel, es[1..], env);
      var r := Evaluate(cfg, fuel, es[0], env);
      if r.Val? {
        vs := [r.value] + rest;
        assert vs[1..] == rest;
        var all := EvalList(cfg, fuel, Listed(es, Nil), env);
        if all.Val? {
          forall i | 0 <= i < |es| ensures Has(cfg, fuel, es[i], env, vs[i]) {
            assert i > 0 ==> es[i] == es[1..][i - 1] && vs[i] == rest[i - 1];
          }
        }
      }
    }
  }

  lemma {:induction false} HasList(cfg: Config, fuel: nat, es: seq<Value>, env: Value, vs: seq<Value>)
    requires HasAll(cfg, fuel, es, env, vs)
    ensures var r := EvalList(cfg, fuel, Listed(es, Nil), env); r.Val? && r.value == Listed(vs, Nil)
  {
    hide Evaluate;
    if es != [] {
      assert Has(cfg, fuel, es[0], env, vs[0]);
      forall i | 0 <= i < |es| - 1 ensures Has(cfg, fuel, es[1..][i], env, vs[1..][i]) {
        assert es[1..][i] == es[i + 1] && vs[1..][i] == vs[i + 1];
        assert Has(cfg, fuel, es[i + 1], env, vs[i + 1]);
      }
      HasList(cfg, fuel, es[1..], env, vs[1..]);
    }
  }

  /** A quoted datum is itself. */
  lemma QuoteLaw(cfg: Config, x: Value, env: Value, v: Value)
    ensures Denotes(cfg, Listed([Sym(Quote), x], Nil), env, v) <==> v == x
  {
    Builtins.ListedItems([Sym(Quote), x]);
    if v == x {
      assert Has(cfg, 0, Listed([Sym(Quote), x], Nil), env, v);
    }
  }

  /** So are numbers, characters, strings and the constants. */
  lemma ConstantLaw(cfg: Config, x: Value, env: Value, v: Value)
    requires x.Num? || x.Chr? || x.Str? || x in [Nil, False, True, Unspecified, Undefined]
    ensures Denotes(cfg, x, env, v) <==> v == x
  {
    if v == x {
      assert Has(cfg, 0, x, env, v);
    }
  }

  lemma LambdaLaw(cfg: Config, formals: Value, es: seq<Value>, env: Value, v: Value)
    ensures Denotes(cfg, Pair(Sym(Lambda), Pair(formals, Listed(es, Nil))), env, v)
      <==> v == Closure(formals, Listed(es, Nil), env)
  {
    if v == Closure(formals, Listed(es, Nil), env) {
      assert Has(cfg, 0, Pair(Sym(Lambda), Pair(formals, Listed(es, Nil))), env, v);
    }
  }

  /** A conditional whose test is `x`: of two arms the second counts if and only
      if `x` is false, and a missing one is unspecified. */
  ghost predicate Chosen(cfg: Config, x: Value, yes: Value, no: seq<Value>, env: Value, v: Value)
    requires |no| <= 1
  {
    if x != False then Denotes(cfg, yes, env, v)
    else if |no| == 1 then Denotes(cfg, no[0], env, v)
    else v == Unspecified
  }

  lemma IfParts(test: Value, yes: Value, no: seq<Value>)
    ensures Listed([Sym(Symbol.If), test, yes] + no, Nil)
      == Pair(Sym(Symbol.If), Pair(test, Pair(yes, Listed(no, Nil))))
  {
    var xs := [Sym(Symbol.If), test, yes] + no;
    assert xs[1..] == [test, yes] + no && xs[1..][1..] == [yes] + no && xs[1..][1..][1..] == no;
    assert Listed(xs[1..][1..], Nil) == Pair(yes, Listed(no, Nil));
  }

  function Arm(cfg: Config, fuel: nat, x: Value, yes: Value, arms: Value, env: Value): Result {
    if x != False then Evaluate(cfg, fuel, yes, env)
    else if arms == Nil then Val(Unspecified, 0)
    else if arms.Pair? then Evaluate(cfg, fuel, arms.car, env)
    else Beyond
  }

  lemma IfForm(cfg: Config, fuel: nat, test: Value, yes: Value, arms: Value, env: Value)
    ensures var x := Evaluate(cfg, fuel, test, env);
      Evaluate(cfg, fuel, Pair(Sym(Symbol.If), Pair(test, Pair(yes, arms))), env)
        == if x.Val? then After(x.height, Arm(cfg, fuel, x.value, yes, arms, env)) else x
  {
    hide After, EvalBody, EvalList, ApplyTo, ApplyValue;
    var parts := Pair(test, Pair(yes, arms));
    assert Evaluate(cfg, fuel, Pair(Sym(Symbol.If), parts), env) == EvalIf(cfg, fuel, parts, env);
  }

  lemma IfUnfold(cfg: Config, fuel: nat, test: Value, yes: Value, no: seq<Value>, env: Value, v: Value)
    requires |no| <= 1
    ensures var x := Evaluate(cfg, fuel, test, env);
      Has(cfg, fuel, Listed([Sym(Symbol.If), test, yes] + no, Nil), env, v)
      <==> x.Val? && Is(Arm(cfg, fuel, x.value, yes, Listed(no, Nil), env), v)
  {
    hide Listed, Evaluate, After, Arm;
    IfParts(test, yes, no);
    IfForm(cfg, fuel, test, yes, Listed(no, Nil), env);
    var x := Evaluate(cfg, fuel, test, env);
    if x.Val? {
      AfterIs(x.height, Arm(cfg, fuel, x.value, yes, Listed(no, Nil), env), v);
    }
  }

  lemma ArmIs(cfg: Config, fuel: nat, x: Value, yes: Value, no: seq<Value>, env: Value, v: Value)
    requires |no| <= 1
    ensures Is(Arm(cfg, fuel, x, yes, Listed(no, Nil), env), v) <==>
      if x != False then Has(cfg, fuel, yes, env, v)
      else if |no| == 1 then Has(cfg, fuel, no[0], env, v)
      else v == Unspecified
  {
    hide Evaluate, Listed;
    Builtins.ListedItems(no);
  }

  lemma IfLaw(cfg: Config, test: Value, yes: Value, no: seq<Value>, env: Value, v: Value)
    requires |no| <= 1
    ensures Denotes(cfg, Listed([Sym(Symbol.If), test, yes] + no, Nil), env, v)
      <==> exists x :: Denotes(cfg, test, env, x) && Chosen(cfg, x, yes, no, env, v)
  {
    hide Listed, Chosen, Evaluate;
    var e := Listed([Sym(Symbol.If), test, yes] + no, Nil);
    if fuel: nat :| Has(cfg, fuel, e, env, v) {
      var x := IfDown(cfg, fuel, test, yes, no, env, v);
    }
    if x :| Denotes(cfg, test, env, x) && Chosen(cfg, x, yes, no, env, v) {
      IfUp(cfg, test, yes, no, env, x, v);
    }
  }

  lemma IfDown(cfg: Config, fuel: nat, test: Value, yes: Value, no: seq<Value>, env: Value, v: Value)
    returns (x: Value)
    requires |no| <= 1 && Has(cfg, fuel, Listed([Sym(Symbol.If), test, yes] + no, Nil), env, v)
    ensures Denotes(cfg, test, env, x) && Chosen(cfg, x, yes, no, env, v)
  {
    hide Listed, Evaluate, Arm;
    IfUnfold(cfg, fuel, test, yes, no, env, v);
    x := Evaluate(cfg, fuel, test, env).value;
    ArmIs(cfg, fuel, x, yes, no, env, v);
    assert Has(cfg, fuel, test, env, x);
  }

  lemma IfUp(cfg: Config, test: Value, yes: Value, no: seq<Value>, env: Value, x: Value, v: Value)
    requires |no| <= 1 && Denotes(cfg, test, env, x) && Chosen(cfg, x, yes, no, env, v)
    ensures Denotes(cfg, Listed([Sym(Symbol.If), test, yes] + no, Nil), env, v)
  {
    hide Listed, Has, Arm;
    var fuel := ChosenWithin(cfg, test, yes, no, env, x, v);
    IfUnfold(cfg, fuel, test, yes, no, env, v);
    FirstIs(cfg, fuel, test, env, x);
    assert Has(cfg, fuel, Listed([Sym(Symbol.If), test, yes] + no, Nil), env, v);
  }

  lemma FirstIs(cfg: Config, fuel: nat, e: Value, env: Value, x: Value)
    requires Has(cfg, fuel, e, env, x)
    ensures Evaluate(cfg, fuel, e, env).Val? && Evaluate(cfg, fuel, e, env).value == x
  {
    hide Evaluate;
  }

  lemma ChosenWithin(cfg: Config, test: Value, yes: Value, no: seq<Value>, env: Value, x: Value, v: Value)
    returns (fuel: nat)
    requires |no| <= 1 && Denotes(cfg, test, env, x) && Chosen(cfg, x, yes, no, env, v)
    ensures Has(cfg, fuel, test, env, x) && Is(Arm(cfg, fuel, x, yes, Listed(no, Nil), env), v)
  {
    hide Listed, Has, Arm;
    var f: nat :| Has(cfg, f, test, env, x);
    fuel := f;
    if x != False {
      fuel := Both(cfg, f, test, env, x, yes, env, v);
    } else if |no| == 1 {
      fuel := Both(cfg, f, test, env, x, no[0], env, v);
    }
    ArmIs(cfg, fuel, x, yes, no, env, v);
  }

  /** Two expressions have their values within one bound. */
  lemma Both(cfg: Config, f: nat, e: Value, env: Value, v: Value, e': Value, env': Value, v': Value)
    returns (fuel: nat)
    requires Has(cfg, f, e, env, v) && Denotes(cfg, e', env', v')
    ensures f <= fuel && Has(cfg, fuel, e, env, v) && Has(cfg, fuel, e', env', v')
  {
    hide Has;
    var g: nat :| Has(cfg, g, e', env', v');
    fuel := if f < g then g else f;
    More(cfg, f, fuel, e, env, v);
    More(cfg, g, fuel, e', env', v');
  }

  /** Variables and their values, the innermost first. */
  function Bindings(names: seq<Symbol>, vs: seq<Value>): Value
    requires |names| == |vs|
  {
    Listed(seq(|names|, i requires 0 <= i < |names| => Pair(Sym(names[i]), vs[i])), Nil)
  }

  lemma BindingsStep(names: seq<Symbol>, vs: seq<Value>)
    requires |names| == |vs| && names != []
    ensures Bindings(names, vs) == Pair(Pair(Sym(names[0]), vs[0]), Bindings(names[1..], vs[1..]))
  {
    var all := seq(|names|, i requires 0 <= i < |names| => Pair(Sym(names[i]), vs[i]));
    assert all[1..] == seq(|names| - 1, i requires 0 <= i < |names| - 1 => Pair(Sym(names[1..][i]), vs[1..][i]));
  }

  /** The place of the innermost binding. */
  function Place(names: seq<Symbol>, s: Symbol): (k: nat)
    requires s in names
    ensures k < |names| && names[k] == s && s !in names[..k]
  {
    if names[0] == s then 0 else 1 + Place(names[1..], s)
  }

  lemma {:induction false} AssqPlace(names: seq<Symbol>, vs: seq<Value>, s: Symbol)
    requires |names| == |vs|
    ensures Assq(s, Bindings(names, vs)) == if s in names then Found(vs[Place(names, s)]) else NotFound
  {
    if names != [] {
      BindingsStep(names, vs);
      hide Bindings;
      AssqPlace(names[1..], vs[1..], s);
    }
  }

  /** A variable is its innermost binding, or else what it is in the module;
      undefined is no value. */
  lemma VariableLaw(cfg: Config, s: Symbol, names: seq<Symbol>, vs: seq<Value>, v: Value)
    requires |names| == |vs| && s != CurrentEnvironment && s != Symbol.Begin && s != Symbol.CallCc
    ensures Denotes(cfg, Sym(s), Bindings(names, vs), v) <==>
      && v != Undefined
      && if s in names then v == vs[Place(names, s)] else s in cfg.globals && v == cfg.globals[s]
  {
    hide Bindings, Assq, Place;
    AssqPlace(names, vs, s);
    LookupIs(cfg, s, Bindings(names, vs), v);
    if names == [] {
      NoBindings(vs);
    } else {
      BindingsStep(names, vs);
    }
  }

  lemma NoBindings(vs: seq<Value>)
    requires vs == []
    ensures Bindings([], vs) == Nil
  {
  }

  lemma LookupIs(cfg: Config, s: Symbol, env: Value, v: Value)
    requires s != CurrentEnvironment && s != Symbol.Begin && s != Symbol.CallCc
    ensures Denotes(cfg, Sym(s), env, v) <==> Lookup(cfg, s, env) == Good(v)
  {
    hide Lookup;
    if Lookup(cfg, s, env) == Good(v) {
      assert Has(cfg, 0, Sym(s), env, v);
    }
  }

  /** Nested begin forms of a body are proper and not empty. */
  ghost predicate Proper(es: seq<Value>) {
    forall i :: 0 <= i < |es| && es[i].Pair? && es[i].car == Sym(Symbol.Begin) ==>
      exists xs: seq<Value> :: xs != [] && es[i].cdr == Listed(xs, Nil)
  }

  lemma {:induction false} ListedIsList(xs: seq<Value>)
    ensures IsList(Listed(xs, Nil))
  {
    if xs != [] {
      ListedIsList(xs[1..]);
    }
  }

  lemma BodyUnfold(cfg: Config, fuel: nat, es: seq<Value>, env: Value)
    requires es != [] && Proper(es)
    ensures EvalBody(cfg, fuel, Listed(es, Nil), env) ==
      if |es| == 1 then Evaluate(cfg, fuel, es[0], env)
      else
        var x := Evaluate(cfg, fuel, es[0], env);
        if x.Val? then After(x.height, EvalBody(cfg, fuel, Listed(es[1..], Nil), env)) else x
  {
    hide Evaluate, After;
    if IsBegin(es[0]) {
      var xs: seq<Value> :| xs != [] && es[0].cdr == Listed(xs, Nil);
      ListedIsList(xs);
    }
    assert Listed(es, Nil) == Pair(es[0], Listed(es[1..], Nil));
    assert Listed(es[1..], Nil) == Nil <==> |es| == 1;
  }

  /** A body is run in order, and its value is that of the last expression. */
  lemma {:induction false} BodyHas(cfg: Config, fuel: nat, es: seq<Value>, env: Value, v: Value)
    returns (vs: seq<Value>)
    requires es != [] && Proper(es) && Is(EvalBody(cfg, fuel, Listed(es, Nil), env), v)
    ensures HasAll(cfg, fuel, es, env, vs) && vs[|es| - 1] == v
  {
    BodyUnfold(cfg, fuel, es, env);
    hide Evaluate, EvalBody, Listed;
    if |es| == 1 {
      vs := [v];
    } else {
      var x := Evaluate(cfg, fuel, es[0], env);
      var rest := BodyHas(cfg, fuel, es[1..], env, v);
      vs := [x.value] + rest;
      forall i | 0 <= i < |es| ensures Has(cfg, fuel, es[i], env, vs[i]) {
        assert i > 0 ==> es[i] == es[1..][i - 1] && vs[i] == rest[i - 1];
      }
    }
  }

  lemma {:induction false} HasBody(cfg: Config, fuel: nat, es: seq<Value>, env: Value, vs: seq<Value>)
    requires es != [] && Proper(es) && HasAll(cfg, fuel, es, env, vs)
    ensures Is(EvalBody(cfg, fuel, Listed(es, Nil), env), vs[|es| - 1])
  {
    BodyUnfold(cfg, fuel, es, env);
    hide Evaluate, EvalBody, Listed;
    assert Has(cfg, fuel, es[0], env, vs[0]);
    if |es| > 1 {
      forall i | 0 <= i < |es| - 1 ensures Has(cfg, fuel, es[1..][i], env, vs[1..][i]) {
        assert es[1..][i] == es[i + 1] && vs[1..][i] == vs[i + 1];
        assert Has(cfg, fuel, es[i + 1], env, vs[i + 1]);
      }
      HasBody(cfg, fuel, es[1..], env, vs[1..]);
    }
  }

  lemma BodyLaw(cfg: Config, es: seq<Value>, env: Value, v: Value)
    requires es != [] && Proper(es)
    ensures (exists fuel: nat :: Is(EvalBody(cfg, fuel, Listed(es, Nil), env), v)) <==> Ends(cfg, es, env, v)
  {
    hide EvalBody, Listed, Proper, Has, Denotes;
    if fuel: nat :| Is(EvalBody(cfg, fuel, Listed(es, Nil), env), v) {
      var vs := BodyHas(cfg, fuel, es, env, v);
      AllDenote(cfg, fuel, es, env, vs);
    }
    if Ends(cfg, es, env, v) {
      var vs :| DenoteAll(cfg, es, env, vs) && vs[|es| - 1] == v;
      var fuel := Enough(cfg, es, env, vs);
      HasBody(cfg, fuel, es, env, vs);
    }
  }

  lemma BeginIs(cfg: Config, fuel: nat, es: seq<Value>, env: Value, v: Value)
    requires es != []
    ensures Has(cfg, fuel, Pair(Sym(Symbol.Begin), Listed(es, Nil)), env, v)
      <==> Is(EvalBody(cfg, fuel, Listed(es, Nil), env), v)
  {
    hide EvalBody, EvalIf, EvalList, ApplyTo, ApplyValue;
    assert Listed(es, Nil) != Nil;
    assert Evaluate(cfg, fuel, Pair(Sym(Symbol.Begin), Listed(es, Nil)), env)
      == After(0, EvalBody(cfg, fuel, Listed(es, Nil), env));
  }

  lemma BeginLaw(cfg: Config, es: seq<Value>, env: Value, v: Value)
    requires es != [] && Proper(es)
    ensures Denotes(cfg, Pair(Sym(Symbol.Begin), Listed(es, Nil)), env, v) <==> Ends(cfg, es, env, v)
  {
    hide Proper, Ends, Listed, Has, EvalBody, Is;
    BodyLaw(cfg, es, env, v);
    var e := Pair(Sym(Symbol.Begin), Listed(es, Nil));
    if fuel: nat :| Has(cfg, fuel, e, env, v) {
      BeginIs(cfg, fuel, es, env, v);
    }
    if fuel: nat :| Is(EvalBody(cfg, fuel, Listed(es, Nil), env), v) {
      BeginIs(cfg, fuel, es, env, v);
    }
  }

  /** The operator of an ordinary call: a variable, or another call. */
  predicate Operator(op: Value) {
    match op
    case Sym(s) => s.Named?
    case Pair(c, _) => c != Sym(Lambda)
    case _ => false
  }

  /** What can be applied, or evaluated further. */
  predicate CanApply(f: Value) {
    f !in [Nil, False, True, Unspecified, Undefined] && !f.Num? && !f.Chr? && !f.Str? && !f.Struct?
  }

  /** A call: the value of the operator, applied to those of the arguments. */
  ghost predicate Calls(cfg: Config, op: Value, es: seq<Value>, env: Value, f: Value, vs: seq<Value>, v: Value) {
    Denotes(cfg, op, env, f) && DenoteAll(cfg, es, env, vs) && CanApply(f) && Yields(cfg, f, vs, env, v)
  }

  lemma CallLaw(cfg: Config, op: Value, es: seq<Value>, env: Value, v: Value)
    requires Operator(op)
    ensures Denotes(cfg, Pair(op, Listed(es, Nil)), env, v) <==> exists f, vs :: Calls(cfg, op, es, env, f, vs, v)
  {
    hide Has, Listed, Calls;
    if fuel: nat :| Has(cfg, fuel, Pair(op, Listed(es, Nil)), env, v) {
      var f, vs := CallDown(cfg, fuel, op, es, env, v);
    }
    if f, vs :| Calls(cfg, op, es, env, f, vs, v) {
      CallUp(cfg, op, es, env, f, vs, v);
    }
  }

  lemma ValueUnfold(cfg: Config, fuel: nat, op: Value, fn: Result, args: Value, env: Value)
    requires fn.Val?
    ensures !Applicable(fn.value) || fuel == 0 ==> !ApplyValue(cfg, fuel, op, fn, args, env).Val?
    ensures Applicable(fn.value) && fuel > 0 ==>
      ApplyValue(cfg, fuel, op, fn, args, env) == After(fn.height, ApplyTo(cfg, fuel - 1, fn.value, args, env))
  {
    hide ApplyTo, After, Applicable;
  }

  lemma CallGoes(cfg: Config, fuel: nat, op: Value, rest: Value, env: Value)
    requires Operator(op) && Evaluate(cfg, fuel, Pair(op, rest), env).Val?
    ensures Evaluate(cfg, fuel, op, env).Val? && EvalList(cfg, fuel, rest, env).Val?
    ensures Applicable(Evaluate(cfg, fuel, op, env).value) && fuel > 0
  {
    hide Evaluate, EvalList, ApplyTo, ApplyValue, Applicable;
    CallUnfold(cfg, fuel, op, rest, env);
    var fn, args := Evaluate(cfg, fuel, op, env), EvalList(cfg, fuel, rest, env);
    if fn.Val? && args.Val? {
      ValueUnfold(cfg, fuel, op, fn, args.value, env);
    }
  }

  lemma CallHas(cfg: Config, fuel: nat, op: Value, rest: Value, env: Value, f: Value, xs: Value, v: Value)
    requires Operator(op) && fuel > 0 && Applicable(f)
    requires Is(Evaluate(cfg, fuel, op, env), f) && Is(EvalList(cfg, fuel, rest, env), xs)
    ensures Is(Evaluate(cfg, fuel, Pair(op, rest), env), v) <==> Is(ApplyTo(cfg, fuel - 1, f, xs, env), v)
  {
    hide Evaluate, EvalList, ApplyTo, ApplyValue, After, Applicable;
    CallUnfold(cfg, fuel, op, rest, env);
    var fn, args := Evaluate(cfg, fuel, op, env), EvalList(cfg, fuel, rest, env);
    ValueUnfold(cfg, fuel, op, fn, args.value, env);
    var r := ApplyTo(cfg, fuel - 1, f, xs, env);
    assert Evaluate(cfg, fuel, Pair(op, rest), env) == After(fn.height, After(args.height, After(fn.height, r)));
    AfterIs(fn.height, r, v);
    AfterIs(args.height, After(fn.height, r), v);
    AfterIs(fn.height, After(args.height, After(fn.height, r)), v);
  }

  lemma CallDown(cfg: Config, fuel: nat, op: Value, es: seq<Value>, env: Value, v: Value)
    returns (f: Value, vs: seq<Value>)
    requires Operator(op) && Has(cfg, fuel, Pair(op, Listed(es, Nil)), env, v)
    ensures Calls(cfg, op, es, env, f, vs, v)
  {
    hide Listed, Evaluate, EvalList, ApplyTo, Operator;
    CallGoes(cfg, fuel, op, Listed(es, Nil), env);
    f := Evaluate(cfg, fuel, op, env).value;
    vs := ListHas(cfg, fuel, es, env);
    CallHas(cfg, fuel, op, Listed(es, Nil), env, f, Listed(vs, Nil), v);
    assert Has(cfg, fuel, op, env, f);
    AllDenote(cfg, fuel, es, env, vs);
    assert Applied(cfg, fuel - 1, f, vs, env, v);
  }

  lemma MoreAll(cfg: Config, f: nat, g: nat, es: seq<Value>, env: Value, vs: seq<Value>)
    requires f <= g && HasAll(cfg, f, es, env, vs)
    ensures HasAll(cfg, g, es, env, vs)
  {
    hide Has;
    forall i | 0 <= i < |es| ensures Has(cfg, g, es[i], env, vs[i]) {
      More(cfg, f, g, es[i], env, vs[i]);
    }
  }

  lemma CallUp(cfg: Config, op: Value, es: seq<Value>, env: Value, f: Value, vs: seq<Value>, v: Value)
    requires Operator(op) && Calls(cfg, op, es, env, f, vs, v)
    ensures Denotes(cfg, Pair(op, Listed(es, Nil)), env, v)
  {
    hide Listed, Has, HasAll, DenoteAll, Applied, Operator;
    var a: nat :| Has(cfg, a, op, env, f);
    var b := Enough(cfg, es, env, vs);
    var c: nat :| Applied(cfg, c, f, vs, env, v);
    var fuel := a + b + c + 1;
    More(cfg, a, fuel, op, env, f);
    MoreAll(cfg, b, fuel, es, env, vs);
    MoreApplied(cfg, c, fuel - 1, f, vs, env, v);
    CallWithin(cfg, fuel, op, es, env, f, vs, v);
  }

  lemma CallWithin(cfg: Config, fuel: nat, op: Value, es: seq<Value>, env: Value, f: Value, vs: seq<Value>, v: Value)
    requires Operator(op) && fuel > 0 && CanApply(f)
    requires Has(cfg, fuel, op, env, f) && HasAll(cfg, fuel, es, env, vs) && Applied(cfg, fuel - 1, f, vs, env, v)
    ensures Has(cfg, fuel, Pair(op, Listed(es, Nil)), env, v)
  {
    hide Listed, Evaluate, EvalList, ApplyTo, Operator, HasAll;
    HasList(cfg, fuel, es, env, vs);
    CallHas(cfg, fuel, op, Listed(es, Nil), env, f, Listed(vs, Nil), v);
  }

  /** A lambda form in operator position is applied as it stands. */
  lemma LambdaCallLaw(cfg: Config, parts: Value, es: seq<Value>, env: Value, v: Value)
    requires parts.Pair?
    ensures Denotes(cfg, Pair(Pair(Sym(Lambda), parts), Listed(es, Nil)), env, v)
      <==> exists vs :: DenoteAll(cfg, es, env, vs) && Yields(cfg, Pair(Sym(Lambda), parts), vs, env, v)
  {
    hide Has, Listed, DenoteAll, Yields;
    var op := Pair(Sym(Lambda), parts);
    if fuel: nat :| Has(cfg, fuel, Pair(op, Listed(es, Nil)), env, v) {
      var vs := LambdaDown(cfg, fuel, parts, es, env, v);
    }
    if vs :| DenoteAll(cfg, es, env, vs) && Yields(cfg, op, vs, env, v) {
      LambdaUp(cfg, parts, es, env, vs, v);
    }
  }

  lemma LambdaDown(cfg: Config, fuel: nat, parts: Value, es: seq<Value>, env: Value, v: Value) returns (vs: seq<Value>)
    requires parts.Pair? && Has(cfg, fuel, Pair(Pair(Sym(Lambda), parts), Listed(es, Nil)), env, v)
    ensures DenoteAll(cfg, es, env, vs) && Yields(cfg, Pair(Sym(Lambda), parts), vs, env, v)
  {
    hide Has, Listed, DenoteAll, EvalList, ApplyTo;
    LambdaHas(cfg, fuel, parts, Listed(es, Nil), env, v);
    vs := ListHas(cfg, fuel, es, env);
    AllDenote(cfg, fuel, es, env, vs);
    assert Applied(cfg, fuel, Pair(Sym(Lambda), parts), vs, env, v);
  }

  lemma LambdaUp(cfg: Config, parts: Value, es: seq<Value>, env: Value, vs: seq<Value>, v: Value)
    requires parts.Pair? && DenoteAll(cfg, es, env, vs) && Yields(cfg, Pair(Sym(Lambda), parts), vs, env, v)
    ensures Denotes(cfg, Pair(Pair(Sym(Lambda), parts), Listed(es, Nil)), env, v)
  {
    hide Has, Listed, DenoteAll, Applied, HasAll;
    var op := Pair(Sym(Lambda), parts);
    var b := Enough(cfg, es, env, vs);
    var c: nat :| Applied(cfg, c, op, vs, env, v);
    MoreAll(cfg, b, b + c, es, env, vs);
    MoreApplied(cfg, c, b + c, op, vs, env, v);
    HasList(cfg, b + c, es, env, vs);
    ItsApplied(cfg, b + c, op, vs, env, v);
    LambdaHas(cfg, b + c, parts, Listed(es, Nil), env, v);
  }

  lemma ItsApplied(cfg: Config, fuel: nat, fn: Value, vs: seq<Value>, env: Value, v: Value)
    ensures Applied(cfg, fuel, fn, vs, env, v) <==> Is(ApplyTo(cfg, fuel, fn, Listed(vs, Nil), env), v)
  {
  }

  lemma LambdaHas(cfg: Config, fuel: nat, parts: Value, rest: Value, env: Value, v: Value)
    requires parts.Pair?
    ensures Has(cfg, fuel, Pair(Pair(Sym(Lambda), parts), rest), env, v) <==>
      var args := EvalList(cfg, fuel, rest, env);
      args.Val? && Is(ApplyTo(cfg, fuel, Pair(Sym(Lambda), parts), args.value, env), v)
  {
    hide EvalList, ApplyDirect;
    var op := Pair(Sym(Lambda), parts);
    assert Evaluate(cfg, fuel, op, env) == Val(Closure(parts.car, parts.cdr, env), 0);
    hide Evaluate;
    CallUnfold(cfg, fuel, op, rest, env);
  }

  /** A builtin gives what its function answers to what it receives. */
  lemma BuiltinLaw(cfg: Config, name: string, arity: int, xs: seq<Value>, env: Value, v: Value)
    requires arity == -1 || arity == |xs| <= 3
    ensures Yields(cfg, Builtin(name, arity), xs, env, v) <==>
      !Builtins.Hollow(arity, xs) && cfg.prim(name, Builtins.Received(arity, xs)) == Good(v)
  {
    hide Listed, ApplyTo, Builtins.Hollow, Builtins.Received;
    BuiltinAt(cfg, 0, name, arity, xs, env, v);
    if Yields(cfg, Builtin(name, arity), xs, env, v) {
      var fuel: nat :| Applied(cfg, fuel, Builtin(name, arity), xs, env, v);
      BuiltinAt(cfg, fuel, name, arity, xs, env, v);
    }
  }

  lemma BuiltinAt(cfg: Config, fuel: nat, name: string, arity: int, xs: seq<Value>, env: Value, v: Value)
    requires arity == -1 || arity == |xs| <= 3
    ensures Applied(cfg, fuel, Builtin(name, arity), xs, env, v)
      <==> !Builtins.Hollow(arity, xs) && cfg.prim(name, Builtins.Received(arity, xs)) == Good(v)
  {
    hide Listed, ApplyBuiltin, Length, Builtins.Hollow, Builtins.Received, ApplyTo;
    ListedLength(xs, Nil);
    Builtins.AnswerExactly(cfg, name, arity, xs);
    BuiltinApplied(cfg, fuel, name, arity, Listed(xs, Nil), env);
  }

  lemma BuiltinApplied(cfg: Config, fuel: nat, name: string, arity: int, args: Value, env: Value)
    ensures ApplyTo(cfg, fuel, Builtin(name, arity), args, env) ==
      if CountFits(arity, args) then FromAnswer(ApplyBuiltin(cfg, name, arity, args)) else Err
  {
    hide ApplyBuiltin, CountFits, Evaluate, EvalList, EvalBody, EvalIf, EvalIn;
  }

  /** With the wrong number of arguments it gives nothing. */
  lemma WrongCount(cfg: Config, name: string, arity: int, xs: seq<Value>, env: Value, v: Value)
    requires arity != -1 && arity != |xs|
    ensures !Yields(cfg, Builtin(name, arity), xs, env, v)
  {
    hide Listed, ApplyBuiltin, Length;
    ListedLength(xs, Nil);
    if fuel: nat :| Applied(cfg, fuel, Builtin(name, arity), xs, env, v) {
      BuiltinApplied(cfg, fuel, name, arity, Listed(xs, Nil), env);
    }
  }

  /** Calling a builtin by its name: the arguments are evaluated and handed over
      in order. */
  lemma BuiltinCall(cfg: Config, op: Value, es: seq<Value>, env: Value, name: string, vs: seq<Value>, v: Value)
    requires Operator(op) && Denotes(cfg, op, env, Builtin(name, |vs|)) && DenoteAll(cfg, es, env, vs)
    requires |vs| <= 3 && forall i :: 0 <= i < |vs| ==> !vs[i].Multiple?
    ensures Denotes(cfg, Pair(op, Listed(es, Nil)), env, v) <==> cfg.prim(name, vs) == Good(v)
  {
    hide Listed, Denotes, DenoteAll, Yields, Operator;
    assert Builtins.Received(|vs|, vs) == vs;
    BuiltinLaw(cfg, name, |vs|, vs, env, v);
    CallLaw(cfg, op, es, env, v);
    if cfg.prim(name, vs) == Good(v) {
      assert Calls(cfg, op, es, env, Builtin(name, |vs|), vs, v);
    }
    if f, xs :| Calls(cfg, op, es, env, f, xs, v) {
      DenotesOnce(cfg, op, env, f, Builtin(name, |vs|));
      DenoteAllOnce(cfg, es, env, xs, vs);
    }
  }

  /** An expression has one value. */
  lemma DenotesOnce(cfg: Config, e: Value, env: Value, v: Value, w: Value)
    requires Denotes(cfg, e, env, v) && Denotes(cfg, e, env, w)
    ensures v == w
  {
    hide Evaluate;
    var f: nat :| Has(cfg, f, e, env, v);
    var g: nat :| Has(cfg, g, e, env, w);
    OneValue(cfg, f, g, e, env);
  }

  lemma DenoteAllOnce(cfg: Config, es: seq<Value>, env: Value, vs: seq<Value>, ws: seq<Value>)
    requires DenoteAll(cfg, es, env, vs) && DenoteAll(cfg, es, env, ws)
    ensures vs == ws
  {
    hide Denotes;
    forall i | 0 <= i < |es| ensures vs[i] == ws[i] {
      DenotesOnce(cfg, es[i], env, vs[i], ws[i]);
    }
  }

  /** Formals bound to arguments in front of `outer`, under the mark. */
  function Entered(names: seq<Symbol>, rest: Value, xs: seq<Value>, outer: Value): Value
    requires |names| <= |xs|
  {
    var b := Bound(names, rest, xs, outer);
    Pair(Pair(ClosureMark, b), b)
  }

  function Bound(names: seq<Symbol>, rest: Value, xs: seq<Value>, outer: Value): Value
    requires |names| <= |xs|
  {
    Listed(seq(|names|, i requires 0 <= i < |names| => Pair(Sym(names[i]), xs[i])),
           if rest == Nil then outer else Pair(Pair(rest, Listed(xs[|names|..], Nil)), outer))
  }

  lemma {:induction false} PairlisBound(names: seq<Symbol>, rest: Value, xs: seq<Value>, outer: Value)
    requires RestFormal(rest) && |names| <= |xs|
    ensures Pairlis(Formals(names, rest), Listed(xs, Nil), outer) == Good(Bound(names, rest, xs, outer))
  {
    if names == [] {
      NoFormals(rest);
      assert xs[0..] == xs;
    } else {
      BindingStep(names, rest, xs, outer);
      PairlisBound(names[1..], rest, xs[1..], outer);
      var all := seq(|names|, i requires 0 <= i < |names| => Pair(Sym(names[i]), xs[i]));
      assert all[1..] == seq(|names| - 1, i requires 0 <= i < |names| - 1 => Pair(Sym(names[1..][i]), xs[1..][i]));
      assert xs[1..][|names| - 1..] == xs[|names|..];
    }
  }

  /** Some bound is enough for a body. */
  ghost predicate Runs(cfg: Config, body: Value, env: Value, v: Value) {
    exists fuel: nat :: Is(EvalIn(cfg, fuel, body, Good(env)), v)
  }

  lemma InBody(cfg: Config, fuel: nat, es: seq<Value>, env: Value)
    requires es != []
    ensures EvalIn(cfg, fuel, Listed(es, Nil), Good(env)) == EvalBody(cfg, fuel, Listed(es, Nil), Scope(env))
  {
    hide EvalBody, Scope;
    assert Listed(es, Nil) != Nil;
  }

  lemma RunsBody(cfg: Config, es: seq<Value>, env: Value, v: Value)
    requires es != [] && Proper(es)
    ensures Runs(cfg, Listed(es, Nil), env, v) <==> Ends(cfg, es, Scope(env), v)
  {
    hide Ends, Proper, EvalBody, EvalIn, Listed, Scope, Is;
    BodyLaw(cfg, es, Scope(env), v);
    if Runs(cfg, Listed(es, Nil), env, v) {
      var fuel: nat :| Is(EvalIn(cfg, fuel, Listed(es, Nil), Good(env)), v);
      InBody(cfg, fuel, es, env);
    }
    if Ends(cfg, es, Scope(env), v) {
      var fuel: nat :| Is(EvalBody(cfg, fuel, Listed(es, Nil), Scope(env)), v);
      InBody(cfg, fuel, es, env);
    }
  }

  lemma ClosureApplied(cfg: Config, fuel: nat, formals: Value, body: Value, scope: Value, args: Value, env: Value)
    requires scope.Pair?
    ensures ApplyTo(cfg, fuel, Closure(formals, body, scope), args, env) ==
      if !FormalsFit(formals, args) then Err
      else if fuel == 0 then Result.Fuel
      else EvalIn(cfg, fuel - 1, body, Pairlis(formals, args, scope.cdr))
  {
    hide FormalsFit, Pairlis, Evaluate, EvalList, EvalBody, EvalIf, EvalIn;
  }

  lemma LambdaApplied(cfg: Config, fuel: nat, formals: Value, body: Value, args: Value, env: Value)
    ensures ApplyTo(cfg, fuel, Pair(Sym(Lambda), Pair(formals, body)), args, env) ==
      if Pairlis(formals, args, env).Good? && !FormalsFit(formals, args) then Err
      else EvalIn(cfg, fuel, body, Pairlis(formals, args, env))
  {
    hide FormalsFit, Pairlis, Evaluate, EvalList, EvalBody, EvalIf, EvalIn;
  }

  lemma ClosureDown(cfg: Config, fuel: nat, names: seq<Symbol>, rest: Value, body: Value, scope: Value, xs: seq<Value>,
                    env: Value, v: Value)
    requires RestFormal(rest) && scope.Pair?
    requires Applied(cfg, fuel, Closure(Formals(names, rest), body, scope), xs, env, v)
    ensures Fits(names, rest, xs) && Runs(cfg, body, Bound(names, rest, xs, scope.cdr), v)
  {
    hide Listed, Formals, Pairlis, FormalsFit, Bound, EvalIn, ApplyTo;
    ClosureApplied(cfg, fuel, Formals(names, rest), body, scope, Listed(xs, Nil), env);
    FitsExactly(names, rest, xs, scope.cdr);
    Unbound(cfg, fuel - 1, body, Pairlis(Formals(names, rest), Listed(xs, Nil), scope.cdr));
    PairlisBound(names, rest, xs, scope.cdr);
  }

  lemma Unbound(cfg: Config, fuel: nat, body: Value, p: Answer<Value>)
    ensures EvalIn(cfg, fuel, body, p).Val? ==> p.Good?
  {
    hide EvalBody;
  }

  lemma ClosureUp(cfg: Config, fuel: nat, names: seq<Symbol>, rest: Value, body: Value, scope: Value, xs: seq<Value>,
                  env: Value, v: Value)
    requires RestFormal(rest) && scope.Pair? && Fits(names, rest, xs)
    requires Is(EvalIn(cfg, fuel, body, Good(Bound(names, rest, xs, scope.cdr))), v)
    ensures Applied(cfg, fuel + 1, Closure(Formals(names, rest), body, scope), xs, env, v)
  {
    hide Listed, Formals, Pairlis, FormalsFit, Bound, EvalIn, ApplyTo;
    ClosureApplied(cfg, fuel + 1, Formals(names, rest), body, scope, Listed(xs, Nil), env);
    FitsExactly(names, rest, xs, scope.cdr);
    PairlisBound(names, rest, xs, scope.cdr);
  }

  lemma ClosureOnly(cfg: Config, names: seq<Symbol>, rest: Value, es: seq<Value>, scope: Value, xs: seq<Value>,
                    env: Value, v: Value)
    requires RestFormal(rest) && scope.Pair? && es != [] && Proper(es)
    requires Yields(cfg, Closure(Formals(names, rest), Listed(es, Nil), scope), xs, env, v)
    ensures Fits(names, rest, xs) && Ends(cfg, es, Entered(names, rest, xs, scope.cdr), v)
  {
    hide Listed, Ends, Proper, Formals, Applied, Bound, Runs;
    var fuel: nat :| Applied(cfg, fuel, Closure(Formals(names, rest), Listed(es, Nil), scope), xs, env, v);
    ClosureDown(cfg, fuel, names, rest, Listed(es, Nil), scope, xs, env, v);
    RunsBody(cfg, es, Bound(names, rest, xs, scope.cdr), v);
  }

  lemma ClosureIf(cfg: Config, names: seq<Symbol>, rest: Value, es: seq<Value>, scope: Value, xs: seq<Value>,
                  env: Value, v: Value)
    requires RestFormal(rest) && scope.Pair? && es != [] && Proper(es)
    requires Fits(names, rest, xs) && Ends(cfg, es, Entered(names, rest, xs, scope.cdr), v)
    ensures Yields(cfg, Closure(Formals(names, rest), Listed(es, Nil), scope), xs, env, v)
  {
    hide Listed, Ends, Proper, Formals, Applied, Bound, EvalIn, Is;
    RunsBody(cfg, es, Bound(names, rest, xs, scope.cdr), v);
    var fuel: nat :| Is(EvalIn(cfg, fuel, Listed(es, Nil), Good(Bound(names, rest, xs, scope.cdr))), v);
    ClosureUp(cfg, fuel, names, rest, Listed(es, Nil), scope, xs, env, v);
  }

  /** A closure of the right number of arguments gives what its body gives where
      the formals are bound to them; of another number it gives nothing. */
  lemma ClosureLaw(cfg: Config, names: seq<Symbol>, rest: Value, es: seq<Value>, scope: Value, xs: seq<Value>,
                   env: Value, v: Value)
    requires RestFormal(rest) && scope.Pair? && es != [] && Proper(es)
    ensures Yields(cfg, Closure(Formals(names, rest), Listed(es, Nil), scope), xs, env, v)
      <==> Fits(names, rest, xs) && Ends(cfg, es, Entered(names, rest, xs, scope.cdr), v)
  {
    hide Ends, Entered, Yields, Listed, Formals, Proper;
    if Yields(cfg, Closure(Formals(names, rest), Listed(es, Nil), scope), xs, env, v) {
      ClosureOnly(cfg, names, rest, es, scope, xs, env, v);
    }
    if Fits(names, rest, xs) && Ends(cfg, es, Entered(names, rest, xs, scope.cdr), v) {
      ClosureIf(cfg, names, rest, es, scope, xs, env, v);
    }
  }

  lemma LambdaGoes(cfg: Config, fuel: nat, names: seq<Symbol>, rest: Value, body: Value, xs: seq<Value>,
                   env: Value, v: Value)
    requires RestFormal(rest)
    requires Applied(cfg, fuel, Pair(Sym(Lambda), Pair(Formals(names, rest), body)), xs, env, v)
    ensures Fits(names, rest, xs) && Runs(cfg, body, Bound(names, rest, xs, env), v)
  {
    hide Listed, Formals, Pairlis, FormalsFit, Bound, EvalIn, ApplyTo;
    LambdaApplied(cfg, fuel, Formals(names, rest), body, Listed(xs, Nil), env);
    FitsExactly(names, rest, xs, env);
    Unbound(cfg, fuel, body, Pairlis(Formals(names, rest), Listed(xs, Nil), env));
    PairlisBound(names, rest, xs, env);
  }

  lemma LambdaComes(cfg: Config, fuel: nat, names: seq<Symbol>, rest: Value, body: Value, xs: seq<Value>,
                    env: Value, v: Value)
    requires RestFormal(rest) && Fits(names, rest, xs)
    requires Is(EvalIn(cfg, fuel, body, Good(Bound(names, rest, xs, env))), v)
    ensures Applied(cfg, fuel, Pair(Sym(Lambda), Pair(Formals(names, rest), body)), xs, env, v)
  {
    hide Listed, Formals, Pairlis, FormalsFit, Bound, EvalIn, ApplyTo;
    LambdaApplied(cfg, fuel, Formals(names, rest), body, Listed(xs, Nil), env);
    FitsExactly(names, rest, xs, env);
    PairlisBound(names, rest, xs, env);
  }

  lemma LambdaOnly(cfg: Config, names: seq<Symbol>, rest: Value, es: seq<Value>, xs: seq<Value>, env: Value, v: Value)
    requires RestFormal(rest) && es != [] && Proper(es)
    requires Yields(cfg, Pair(Sym(Lambda), Pair(Formals(names, rest), Listed(es, Nil))), xs, env, v)
    ensures Fits(names, rest, xs) && Ends(cfg, es, Entered(names, rest, xs, env), v)
  {
    hide Listed, Ends, Proper, Formals, Applied, Bound, Runs;
    var fn := Pair(Sym(Lambda), Pair(Formals(names, rest), Listed(es, Nil)));
    var fuel: nat :| Applied(cfg, fuel, fn, xs, env, v);
    LambdaGoes(cfg, fuel, names, rest, Listed(es, Nil), xs, env, v);
    RunsBody(cfg, es, Bound(names, rest, xs, env), v);
  }

  lemma LambdaIf(cfg: Config, names: seq<Symbol>, rest: Value, es: seq<Value>, xs: seq<Value>, env: Value, v: Value)
    requires RestFormal(rest) && es != [] && Proper(es)
    requires Fits(names, rest, xs) && Ends(cfg, es, Entered(names, rest, xs, env), v)
    ensures Yields(cfg, Pair(Sym(Lambda), Pair(Formals(names, rest), Listed(es, Nil))), xs, env, v)
  {
    hide Listed, Ends, Proper, Formals, Applied, Bound, EvalIn, Is;
    RunsBody(cfg, es, Bound(names, rest, xs, env), v);
    var fuel: nat :| Is(EvalIn(cfg, fuel, Listed(es, Nil), Good(Bound(names, rest, xs, env))), v);
    LambdaComes(cfg, fuel, names, rest, Listed(es, Nil), xs, env, v);
  }

  /** So does a lambda form, where it stands. */
  lemma LambdaFormLaw(cfg: Config, names: seq<Symbol>, rest: Value, es: seq<Value>, xs: seq<Value>, env: Value,
                      v: Value)
    requires RestFormal(rest) && es != [] && Proper(es)
    ensures Yields(cfg, Pair(Sym(Lambda), Pair(Formals(names, rest), Listed(es, Nil))), xs, env, v)
      <==> Fits(names, rest, xs) && Ends(cfg, es, Entered(names, rest, xs, env), v)
  {
    hide Ends, Entered, Yields, Listed, Formals, Proper;
    if Yields(cfg, Pair(Sym(Lambda), Pair(Formals(names, rest), Listed(es, Nil))), xs, env, v) {
      LambdaOnly(cfg, names, rest, es, xs, env, v);
    }
    if Fits(names, rest, xs) && Ends(cfg, es, Entered(names, rest, xs, env), v) {
      LambdaIf(cfg, names, rest, es, xs, env, v);
    }
  }

  lemma TwoArguments(a: Value, b: Value)
    ensures Listed([a, b], Nil) == Pair(a, List(b)) && Listed([], Nil) == Nil
  {
    Builtins.ListedItems([a, b]);
  }

  lemma UnderIs(r: Result, v: Value)
    ensures Is(Under(r), v) <==> Is(r, v)
  {
  }

  lemma ApplyApplied(cfg: Config, fuel: nat, f: Value, xs: Value, env: Value)
    ensures ApplyTo(cfg, fuel, Special(Apply), Pair(f, List(xs)), env) ==
      if fuel == 0 then Result.Fuel else Under(ApplyTo(cfg, fuel - 1, f, xs, env))
  {
    hide Evaluate, EvalList, EvalBody, EvalIf, EvalIn, Under;
  }

  lemma ApplyOnly(cfg: Config, f: Value, xs: seq<Value>, env: Value, v: Value)
    requires Yields(cfg, Special(Apply), [f, Listed(xs, Nil)], env, v)
    ensures Yields(cfg, f, xs, env, v)
  {
    hide Listed, ApplyTo, Under;
    TwoArguments(f, Listed(xs, Nil));
    var fuel: nat :| Applied(cfg, fuel, Special(Apply), [f, Listed(xs, Nil)], env, v);
    ApplyApplied(cfg, fuel, f, Listed(xs, Nil), env);
    UnderIs(ApplyTo(cfg, fuel - 1, f, Listed(xs, Nil), env), v);
    assert Applied(cfg, fuel - 1, f, xs, env, v);
  }

  lemma ApplyIf(cfg: Config, f: Value, xs: seq<Value>, env: Value, v: Value)
    requires Yields(cfg, f, xs, env, v)
    ensures Yields(cfg, Special(Apply), [f, Listed(xs, Nil)], env, v)
  {
    hide Listed, ApplyTo, Under;
    TwoArguments(f, Listed(xs, Nil));
    var fuel: nat :| Applied(cfg, fuel, f, xs, env, v);
    ApplyApplied(cfg, fuel + 1, f, Listed(xs, Nil), env);
    UnderIs(ApplyTo(cfg, fuel, f, Listed(xs, Nil), env), v);
    assert Applied(cfg, fuel + 1, Special(Apply), [f, Listed(xs, Nil)], env, v);
  }

  /** `apply` applies its first argument to the items of its second. */
  lemma ApplyLaw(cfg: Config, f: Value, xs: seq<Value>, env: Value, v: Value)
    ensures Yields(cfg, Special(Apply), [f, Listed(xs, Nil)], env, v) <==> Yields(cfg, f, xs, env, v)
  {
    hide *;
    if Yields(cfg, Special(Apply), [f, Listed(xs, Nil)], env, v) {
      ApplyOnly(cfg, f, xs, env, v);
    }
    if Yields(cfg, f, xs, env, v) {
      ApplyIf(cfg, f, xs, env, v);
    }
  }

  lemma EvalApplied(cfg: Config, fuel: nat, e: Value, scope: Value, env: Value)
    ensures ApplyTo(cfg, fuel, Special(Label.Eval), Pair(e, List(scope)), env) ==
      if fuel == 0 then Result.Fuel else Under(Evaluate(cfg, fuel - 1, e, scope))
  {
    hide Evaluate, EvalList, EvalBody, EvalIf, EvalIn, Under;
  }

  /** `eval` evaluates in the environment given. */
  lemma EvalLaw(cfg: Config, e: Value, scope: Value, env: Value, v: Value)
    ensures Yields(cfg, Special(Label.Eval), [e, scope], env, v) <==> Denotes(cfg, e, scope, v)
  {
    hide Listed, Evaluate, ApplyTo, Under;
    TwoArguments(e, scope);
    if Yields(cfg, Special(Label.Eval), [e, scope], env, v) {
      var fuel: nat :| Applied(cfg, fuel, Special(Label.Eval), [e, scope], env, v);
      EvalApplied(cfg, fuel, e, scope, env);
      UnderIs(Evaluate(cfg, fuel - 1, e, scope), v);
      assert Has(cfg, fuel - 1, e, scope, v);
    }
    if Denotes(cfg, e, scope, v) {
      var fuel: nat :| Has(cfg, fuel, e, scope, v);
      EvalApplied(cfg, fuel + 1, e, scope, env);
      UnderIs(Evaluate(cfg, fuel, e, scope), v);
      assert Applied(cfg, fuel + 1, Special(Label.Eval), [e, scope], env, v);
    }
  }

  /** The values that a producer delivers: the components of a multiple value, or
      the one value that it is. */
  ghost predicate Delivers(x: Value, xs: seq<Value>) {
    if x.Multiple? then x.list == Listed(xs, Nil) else xs == [x]
  }

  lemma DeliversList(x: Value, xs: seq<Value>)
    requires Delivers(x, xs)
    ensures ValueList(x) == Listed(xs, Nil)
  {
    hide Listed;
    Builtins.ListedItems(xs);
  }

  lemma ProducerApplied(cfg: Config, fuel: nat, producer: Value, consumer: Value, env: Value)
    ensures ApplyTo(cfg, fuel, Sym(Symbol.CallWithValues), Pair(producer, List(consumer)), env) ==
      if fuel == 0 then Result.Fuel
      else
        var x := ApplyTo(cfg, fuel - 1, producer, Nil, env);
        if !x.Val? then x else After(x.height, ApplyTo(cfg, fuel - 1, consumer, ValueList(x.value), env))
  {
    hide Evaluate, EvalList, EvalBody, EvalIf, EvalIn, After, ValueList;
  }

  lemma YieldsOnce(cfg: Config, f: nat, g: nat, fn: Value, args: Value, env: Value, v: Value)
    requires ApplyTo(cfg, f, fn, args, env).Val? && Is(ApplyTo(cfg, g, fn, args, env), v)
    ensures Is(ApplyTo(cfg, f, fn, args, env), v)
  {
    hide ApplyTo;
    if f <= g {
      MoreApply(cfg, f, g, fn, args, env);
    } else {
      MoreApply(cfg, g, f, fn, args, env);
    }
  }

  lemma ConsumerDown(cfg: Config, fuel: nat, producer: Value, consumer: Value, p: nat, env: Value, x: Value,
                     args: Value, v: Value)
    requires Is(ApplyTo(cfg, p, producer, Nil, env), x) && ValueList(x) == args
    requires Is(ApplyTo(cfg, fuel, Sym(Symbol.CallWithValues), Pair(producer, List(consumer)), env), v)
    ensures fuel > 0 && Is(ApplyTo(cfg, fuel - 1, consumer, args, env), v)
  {
    hide ApplyTo, After, ValueList;
    ProducerApplied(cfg, fuel, producer, consumer, env);
    var y := ApplyTo(cfg, fuel - 1, producer, Nil, env);
    if y.Val? {
      YieldsOnce(cfg, fuel - 1, p, producer, Nil, env, x);
      AfterIs(y.height, ApplyTo(cfg, fuel - 1, consumer, ValueList(y.value), env), v);
    }
  }

  lemma ConsumerUp(cfg: Config, fuel: nat, producer: Value, consumer: Value, env: Value, x: Value, args: Value,
                   v: Value)
    requires Is(ApplyTo(cfg, fuel, producer, Nil, env), x) && ValueList(x) == args
    requires Is(ApplyTo(cfg, fuel, consumer, args, env), v)
    ensures Is(ApplyTo(cfg, fuel + 1, Sym(Symbol.CallWithValues), Pair(producer, List(consumer)), env), v)
  {
    hide ApplyTo, After, ValueList;
    ProducerApplied(cfg, fuel + 1, producer, consumer, env);
    AfterIs(ApplyTo(cfg, fuel, producer, Nil, env).height, ApplyTo(cfg, fuel, consumer, args, env), v);
  }

  lemma ConsumerOnly(cfg: Config, producer: Value, consumer: Value, env: Value, x: Value, xs: seq<Value>, v: Value)
    requires Yields(cfg, producer, [], env, x) && Delivers(x, xs)
    requires Yields(cfg, Sym(Symbol.CallWithValues), [producer, consumer], env, v)
    ensures Yields(cfg, consumer, xs, env, v)
  {
    hide Listed, ApplyTo, Delivers, Is, ValueList;
    TwoArguments(producer, consumer);
    DeliversList(x, xs);
    var a: nat :| Applied(cfg, a, producer, [], env, x);
    var fuel: nat :| Applied(cfg, fuel, Sym(Symbol.CallWithValues), [producer, consumer], env, v);
    ConsumerDown(cfg, fuel, producer, consumer, a, env, x, Listed(xs, Nil), v);
    assert Applied(cfg, fuel - 1, consumer, xs, env, v);
  }

  lemma ConsumerIf(cfg: Config, producer: Value, consumer: Value, env: Value, x: Value, xs: seq<Value>, v: Value)
    requires Yields(cfg, producer, [], env, x) && Delivers(x, xs) && Yields(cfg, consumer, xs, env, v)
    ensures Yields(cfg, Sym(Symbol.CallWithValues), [producer, consumer], env, v)
  {
    hide Listed, ApplyTo, Delivers, Is, ValueList;
    TwoArguments(producer, consumer);
    DeliversList(x, xs);
    var fuel := BothApplied(cfg, producer, consumer, env, x, xs, v);
    ConsumerUp(cfg, fuel, producer, consumer, env, x, Listed(xs, Nil), v);
    assert Applied(cfg, fuel + 1, Sym(Symbol.CallWithValues), [producer, consumer], env, v);
  }

  lemma BothApplied(cfg: Config, producer: Value, consumer: Value, env: Value, x: Value, xs: seq<Value>, v: Value)
    returns (fuel: nat)
    requires Yields(cfg, producer, [], env, x) && Yields(cfg, consumer, xs, env, v)
    ensures Applied(cfg, fuel, producer, [], env, x) && Applied(cfg, fuel, consumer, xs, env, v)
  {
    hide Applied;
    var a: nat :| Applied(cfg, a, producer, [], env, x);
    var b: nat :| Applied(cfg, b, consumer, xs, env, v);
    fuel := a + b;
    MoreApplied(cfg, a, fuel, producer, [], env, x);
    MoreApplied(cfg, b, fuel, consumer, xs, env, v);
  }

  /** The consumer of call-with-values is applied to what the producer delivers. */
  lemma CallWithValuesLaw(cfg: Config, producer: Value, consumer: Value, env: Value, x: Value, xs: seq<Value>, v: Value)
    requires Yields(cfg, producer, [], env, x) && Delivers(x, xs)
    ensures Yields(cfg, Sym(Symbol.CallWithValues), [producer, consumer], env, v) <==> Yields(cfg, consumer, xs, env, v)
  {
    hide *;
    if Yields(cfg, Sym(Symbol.CallWithValues), [producer, consumer], env, v) {
      ConsumerOnly(cfg, producer, consumer, env, x, xs, v);
    }
    if Yields(cfg, consumer, xs, env, v) {
      ConsumerIf(cfg, producer, consumer, env, x, xs, v);
    }
  }
}
