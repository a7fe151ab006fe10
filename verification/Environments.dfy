/** What variables stand for inside a procedure: lexical scope, and where the
    interpreter departs from it. */
module Environments {
  import opened Values
  import opened Machine
  import opened Evaluator
  import opened Refinement

  /** A list of formals or arguments, ending in `tail`. */
  function Listed(xs: seq<Value>, tail: Value): Value {
    if xs == [] then tail else Pair(xs[0], Listed(xs[1..], tail))
  }

  function Names(names: seq<Symbol>): (xs: seq<Value>)
    ensures |xs| == |names|
  {
    seq(|names|, i requires 0 <= i < |names| => Sym(names[i]))
  }

  function Formals(names: seq<Symbol>, rest: Value): Value {
    Listed(Names(names), rest)
  }

  /** No formal for the remaining arguments, or a name. */
  predicate RestFormal(rest: Value) {
    rest == Nil || rest.Sym?
  }

  lemma FormalsStep(names: seq<Symbol>, rest: Value)
    requires names != []
    ensures Formals(names, rest) == Pair(Sym(names[0]), Formals(names[1..], rest))
  {
    assert Names(names)[1..] == Names(names[1..]);
  }

  lemma NoFormals(rest: Value)
    ensures Formals([], rest) == rest
  {
  }

  /** One formal more, one argument more: one binding more in front. */
  lemma BindingStep(names: seq<Symbol>, rest: Value, args: seq<Value>, outer: Value)
    requires names != [] && args != []
    ensures var p := Pairlis(Formals(names[1..], rest), Listed(args[1..], Nil), outer);
      Pairlis(Formals(names, rest), Listed(args, Nil), outer)
        == if p.Good? then Good(Pair(Pair(Sym(names[0]), args[0]), p.value)) else p
  {
    FormalsStep(names, rest);
  }

  lemma {:induction false} ListedLength(xs: seq<Value>, tail: Value)
    requires !tail.Pair?
    ensures Length(Listed(xs, tail)) == if tail == Nil then |xs| else -1
  {
    if xs != [] {
      ListedLength(xs[1..], tail);
    }
  }

  lemma {:induction false} PairlisNeeds(names: seq<Symbol>, rest: Value, args: seq<Value>, outer: Value)
    requires RestFormal(rest)
    ensures Pairlis(Formals(names, rest), Listed(args, Nil), outer).Good? <==> |names| <= |args|
  {
    if names != [] {
      FormalsStep(names, rest);
      if args != [] {
        PairlisNeeds(names[1..], rest, args[1..], outer);
      }
    }
  }

  /** Are there enough arguments for the formals, and none too many? */
  predicate Fits(names: seq<Symbol>, rest: Value, args: seq<Value>) {
    |names| == |args| || (rest.Sym? && |names| < |args|)
  }

  lemma FitsExactly(names: seq<Symbol>, rest: Value, args: seq<Value>, outer: Value)
    requires RestFormal(rest)
    ensures Fits(names, rest, args) <==>
      && FormalsFit(Formals(names, rest), Listed(args, Nil))
      && Pairlis(Formals(names, rest), Listed(args, Nil), outer).Good?
  {
    hide Pairlis;
    ListedLength(Names(names), rest);
    ListedLength(args, Nil);
    PairlisNeeds(names, rest, args, outer);
  }

  /** The first formal of a name holds the argument in its place. */
  lemma {:induction false} BindsFormal(names: seq<Symbol>, rest: Value, args: seq<Value>, k: nat, outer: Value)
    requires RestFormal(rest) && |names| <= |args| && k < |names| && names[k] !in names[..k]
    ensures var p := Pairlis(Formals(names, rest), Listed(args, Nil), outer);
      p.Good? && Assq(names[k], p.value) == Found(args[k])
  {
    PairlisNeeds(names, rest, args, outer);
    FormalsStep(names, rest);
    if k > 0 {
      assert names[0] == names[..k][0];
      assert names[1..][..k - 1] == names[..k][1..];
      BindsFormal(names[1..], rest, args[1..], k - 1, outer);
    }
  }

  /** The formal for the rest holds the list of the arguments left over. */
  lemma {:induction false} BindsRest(names: seq<Symbol>, r: Symbol, args: seq<Value>, outer: Value)
    requires |names| <= |args| && r !in names
    ensures var p := Pairlis(Formals(names, Sym(r)), Listed(args, Nil), outer);
      p.Good? && Assq(r, p.value) == Found(Listed(args[|names|..], Nil))
  {
    hide Listed, Formals;
    if names == [] {
      NoFormals(Sym(r));
      assert args[0..] == args;
    } else {
      hide Pairlis;
      BindingStep(names, Sym(r), args, outer);
      assert args[1..][|names| - 1..] == args[|names|..];
      BindsRest(names[1..], r, args[1..], outer);
    }
  }

  /** Any other name means inside what it means outside. */
  lemma {:induction false} SeesThrough(names: seq<Symbol>, rest: Value, args: seq<Value>, s: Symbol, outer: Value)
    requires RestFormal(rest) && |names| <= |args| && s !in names && rest != Sym(s)
    ensures var p := Pairlis(Formals(names, rest), Listed(args, Nil), outer);
      p.Good? && Assq(s, p.value) == Assq(s, outer)
  {
    if names != [] {
      FormalsStep(names, rest);
      assert s != names[0];
      SeesThrough(names[1..], rest, args[1..], s, outer);
    }
  }

  /** The mark in front of the bindings is no variable. */
  lemma SkipsMark(cfg: Config, s: Symbol, bindings: Value)
    ensures Assq(s, Scope(bindings)) == Assq(s, bindings)
    ensures Assq(s, bindings).Found? && Assq(s, bindings).value != Undefined ==>
      Lookup(cfg, s, Scope(bindings)) == Good(Assq(s, bindings).value)
  {
  }

  lemma SameOutside(cfg: Config, s: Symbol, bindings: Value, outer: Value)
    requires Environment(outer)
    requires Assq(s, bindings) == Assq(s, outer)
    ensures Lookup(cfg, s, Scope(bindings)) == Lookup(cfg, s, outer)
  {
  }

  lemma ListedDefined(xs: seq<Value>)
    ensures Listed(xs, Nil) != Undefined
  {
  }

  predicate Environment(env: Value) {
    env == Nil || env.Pair?
  }

  /** What `s` is in `env`, when formals have been bound to arguments in front of
      `outer`: its argument, the list of the rest, or what it is in `outer`. */
  predicate Means(cfg: Config, env: Value, names: seq<Symbol>, rest: Value, args: seq<Value>, s: Symbol, outer: Value)
    requires Fits(names, rest, args)
  {
    && (forall k :: 0 <= k < |names| && names[k] == s && s !in names[..k] && args[k] != Undefined ==>
          Lookup(cfg, s, env) == Good(args[k]))
    && (rest == Sym(s) && s !in names ==> Lookup(cfg, s, env) == Good(Listed(args[|names|..], Nil)))
    && (rest != Sym(s) && s !in names ==> Lookup(cfg, s, env) == Lookup(cfg, s, outer))
  }

  lemma FormalMeans(cfg: Config, names: seq<Symbol>, rest: Value, args: seq<Value>, k: nat, outer: Value)
    requires RestFormal(rest) && |names| <= |args| && k < |names| && names[k] !in names[..k] && args[k] != Undefined
    ensures var p := Pairlis(Formals(names, rest), Listed(args, Nil), outer);
      p.Good? && Lookup(cfg, names[k], Scope(p.value)) == Good(args[k])
  {
    hide Formals, Listed, Pairlis, Lookup, Assq;
    BindsFormal(names, rest, args, k, outer);
    SkipsMark(cfg, names[k], Pairlis(Formals(names, rest), Listed(args, Nil), outer).value);
  }

  lemma RestMeans(cfg: Config, names: seq<Symbol>, r: Symbol, args: seq<Value>, outer: Value)
    requires |names| <= |args| && r !in names
    ensures var p := Pairlis(Formals(names, Sym(r)), Listed(args, Nil), outer);
      p.Good? && Lookup(cfg, r, Scope(p.value)) == Good(Listed(args[|names|..], Nil))
  {
    hide Formals, Listed, Pairlis, Lookup, Assq;
    BindsRest(names, r, args, outer);
    ListedDefined(args[|names|..]);
    SkipsMark(cfg, r, Pairlis(Formals(names, Sym(r)), Listed(args, Nil), outer).value);
  }

  lemma OutsideMeans(cfg: Config, names: seq<Symbol>, rest: Value, args: seq<Value>, s: Symbol, outer: Value)
    requires RestFormal(rest) && |names| <= |args| && s !in names && rest != Sym(s) && Environment(outer)
    ensures var p := Pairlis(Formals(names, rest), Listed(args, Nil), outer);
      p.Good? && Lookup(cfg, s, Scope(p.value)) == Lookup(cfg, s, outer)
  {
    hide Formals, Listed, Pairlis, Lookup, Assq;
    SeesThrough(names, rest, args, s, outer);
    SameOutside(cfg, s, Pairlis(Formals(names, rest), Listed(args, Nil), outer).value, outer);
  }

  lemma BoundMeans(cfg: Config, names: seq<Symbol>, rest: Value, args: seq<Value>, s: Symbol, outer: Value)
    requires RestFormal(rest) && Fits(names, rest, args) && Environment(outer)
    ensures var p := Pairlis(Formals(names, rest), Listed(args, Nil), outer);
      p.Good? && Means(cfg, Scope(p.value), names, rest, args, s, outer)
  {
    hide Formals, Listed, Pairlis, Lookup, Scope, FormalsFit;
    FitsExactly(names, rest, args, outer);
    var env := Scope(Pairlis(Formals(names, rest), Listed(args, Nil), outer).value);
    forall k | 0 <= k < |names| && names[k] == s && s !in names[..k] && args[k] != Undefined
      ensures Lookup(cfg, s, env) == Good(args[k])
    {
      FormalMeans(cfg, names, rest, args, k, outer);
    }
    if s !in names {
      if rest == Sym(s) {
        RestMeans(cfg, names, s, args, outer);
      } else {
        OutsideMeans(cfg, names, rest, args, s, outer);
      }
    }
  }

  /** The machine is about to apply `fn` to `args`. */
  ghost predicate Applies(st: State, fn: Value, args: seq<Value>) {
    st.Running? && st.pc == At(Apply) && st.stack != [] && st.r1 == Pair(fn, Listed(args, Nil))
  }

  /** The machine is about to run a body. */
  ghost predicate Enters(st: State, body: Value) {
    st.Running? && st.pc == At(Label.Begin) && st.r1 == body
  }

  lemma ClosureStep(cfg: Config, st: State, formals: Value, body: Value, env: Value)
    requires st.Running? && st.pc == At(Apply) && st.stack != []
    requires st.r1.Pair? && st.r1.car == Closure(formals, body, env) && env.Pair?
    ensures var next, p := Step(cfg, st), Pairlis(formals, st.r1.cdr, env.cdr);
      if FormalsFit(formals, st.r1.cdr) && p.Good?
      then Enters(next, body) && next.r0 == Scope(p.value) else next.Failed?
  {
    hide Pairlis, FormalsFit;
  }

  lemma LambdaStep(cfg: Config, st: State, formals: Value, body: Value)
    requires st.Running? && st.pc == At(Apply) && st.stack != []
    requires st.r1.Pair? && st.r1.car == Pair(Sym(Lambda), Pair(formals, body))
    ensures var next, p := Step(cfg, st), Pairlis(formals, st.r1.cdr, st.r0);
      if FormalsFit(formals, st.r1.cdr) && p.Good?
      then Enters(next, body) && next.r0 == Scope(p.value) else next.Failed?
  {
    hide Pairlis, FormalsFit;
  }

  /** A closure is entered exactly if there is an argument for every formal, and
      none is left over unless a formal takes the rest; else it is an error. */
  lemma EnteredExactly(cfg: Config, st: State, names: seq<Symbol>, rest: Value, body: Value, env: Value,
                       args: seq<Value>)
    requires RestFormal(rest) && env.Pair? && Applies(st, Closure(Formals(names, rest), body, env), args)
    ensures if Fits(names, rest, args) then Enters(Step(cfg, st), body) else Step(cfg, st).Failed?
  {
    ClosureStep(cfg, st, Formals(names, rest), body, env);
    hide Step, FormalsFit, Pairlis, Formals;
    FitsExactly(names, rest, args, env.cdr);
  }

  /** What `s` is in the body of a closure: applying drops the first entry of
      the environment that the closure was made in. */
  lemma ClosureMeans(cfg: Config, st: State, names: seq<Symbol>, rest: Value, body: Value, env: Value,
                     args: seq<Value>, s: Symbol)
    requires RestFormal(rest) && env.Pair? && Applies(st, Closure(Formals(names, rest), body, env), args)
    requires Fits(names, rest, args) && Environment(env.cdr)
    ensures Enters(Step(cfg, st), body) && Means(cfg, Step(cfg, st).r0, names, rest, args, s, env.cdr)
  {
    ClosureStep(cfg, st, Formals(names, rest), body, env);
    hide Step, FormalsFit, Pairlis, Formals, Means;
    FitsExactly(names, rest, args, env.cdr);
    BoundMeans(cfg, names, rest, args, s, env.cdr);
  }

  /** Does the first entry of the environment bind `s`? */
  predicate FirstBinds(env: Value, s: Symbol) {
    env.Pair? && env.car.Pair? && env.car.car == Sym(s)
  }

  /** What the first entry of an environment says of the variable it binds. */
  function FirstGives(env: Value): Answer<Value>
    requires env.Pair?
  {
    if !env.car.Pair? then Outside
    else if env.car.cdr == Undefined then Bad(UnboundVariable)
    else Good(env.car.cdr)
  }

  lemma Forgets(cfg: Config, env: Value, s: Symbol)
    requires env.Pair? && Environment(env.cdr)
    ensures Lookup(cfg, s, env) ==
      if env.car.Pair? && !FirstBinds(env, s) then Lookup(cfg, s, env.cdr) else FirstGives(env)
  {
    if env.car.Pair? && !FirstBinds(env, s) {
      assert Assq(s, env) == Assq(s, env.cdr);
    }
  }

  /** Lexical scope: a variable in the body of a closure is what it is where the
      closure was made, if and only if the first entry there, which is dropped,
      is another one's or says what the variable is without it. */
  lemma LexicalScope(cfg: Config, st: State, names: seq<Symbol>, rest: Value, body: Value, env: Value,
                     args: seq<Value>, s: Symbol)
    requires RestFormal(rest) && env.Pair? && Applies(st, Closure(Formals(names, rest), body, env), args)
    requires Fits(names, rest, args) && Environment(env.cdr) && s !in names && rest != Sym(s)
    ensures Enters(Step(cfg, st), body) &&
      (Lookup(cfg, s, Step(cfg, st).r0) == Lookup(cfg, s, env) <==>
        (env.car.Pair? && !FirstBinds(env, s)) || Lookup(cfg, s, env.cdr) == FirstGives(env))
  {
    hide Step;
    ClosureMeans(cfg, st, names, rest, body, env, args, s);
    hide Lookup;
    Forgets(cfg, env, s);
    assert Lookup(cfg, s, Step(cfg, st).r0) == Lookup(cfg, s, env.cdr);
  }

  /** What is dropped from the environment of a body is the mark: a closure made
      in a procedure has lost nothing. */
  lemma MadeInside(cfg: Config, st: State, names: seq<Symbol>, rest: Value, body: Value, bindings: Value,
                   args: seq<Value>, s: Symbol)
    requires RestFormal(rest) && Environment(bindings)
    requires Applies(st, Closure(Formals(names, rest), body, Scope(bindings)), args) && Fits(names, rest, args)
    ensures Enters(Step(cfg, st), body) && Means(cfg, Step(cfg, st).r0, names, rest, args, s, Scope(bindings))
  {
    ClosureMeans(cfg, st, names, rest, body, Scope(bindings), args, s);
    Forgets(cfg, Scope(bindings), s);
  }

  /** A lambda form that is applied where it stands keeps all of the environment. */
  lemma DirectLambda(cfg: Config, st: State, names: seq<Symbol>, rest: Value, body: Value, args: seq<Value>, s: Symbol)
    requires Applies(st, Pair(Sym(Lambda), Pair(Formals(names, rest), body)), args) && Environment(st.r0)
    requires RestFormal(rest) && Fits(names, rest, args)
    ensures Enters(Step(cfg, st), body) && Means(cfg, Step(cfg, st).r0, names, rest, args, s, st.r0)
  {
    LambdaStep(cfg, st, Formals(names, rest), body);
    hide Step, FormalsFit, Pairlis, Formals, Means;
    FitsExactly(names, rest, args, st.r0);
    BoundMeans(cfg, names, rest, args, s, st.r0);
  }

  const X := Named("x")
  const F := Named("f")
  const THUNK := Pair(Sym(Lambda), Pair(Nil, List(Sym(X))))
  const CALLER := Pair(Sym(Lambda), Pair(List(Sym(F)), List(List(Sym(F)))))

  /** The program `((lambda (f) (f)) (lambda () x))`. */
  const PROGRAM := Pair(CALLER, List(THUNK))

  /** Where `x` is 1. */
  const MADE := List(Pair(Sym(X), Num(1)))

  const MADE_CLOSURE := Closure(Nil, List(Sym(X)), MADE)

  lemma ThunkFails(cfg: Config, fuel: nat, env: Value)
    requires X !in cfg.globals && fuel > 0
    ensures ApplyTo(cfg, fuel, MADE_CLOSURE, Nil, env) == Err
  {
    var inner := Scope(Nil);
    assert Assq(X, inner) == NotFound;
    assert Evaluate(cfg, fuel - 1, Sym(X), inner) == Err;
    assert EvalBody(cfg, fuel - 1, List(Sym(X)), inner) == Err;
    assert EvalIn(cfg, fuel - 1, List(Sym(X)), Good(Nil)) == Err;
  }

  lemma CallOfThunkFails(cfg: Config, fuel: nat, bound: Value)
    requires X !in cfg.globals && fuel > 1 && bound == Pair(Pair(Sym(F), MADE_CLOSURE), MADE)
    ensures Evaluate(cfg, fuel, List(Sym(F)), Scope(bound)) == Err
  {
    var env := Scope(bound);
    assert Evaluate(cfg, fuel, Sym(F), env) == Val(MADE_CLOSURE, 0) by {
      assert Assq(F, env) == Found(MADE_CLOSURE);
    }
    assert EvalList(cfg, fuel, Nil, env) == Val(Nil, 0);
    ThunkFails(cfg, fuel - 1, env);
    hide ApplyTo, EvalIf, EvalBody;
    assert ApplyValue(cfg, fuel, Sym(F), Val(MADE_CLOSURE, 0), Nil, env) == Err;
  }

  lemma CallerFails(cfg: Config, fuel: nat)
    requires X !in cfg.globals && fuel > 1
    ensures ApplyTo(cfg, fuel, CALLER, List(MADE_CLOSURE), MADE) == Err
  {
    var bound := Pair(Pair(Sym(F), MADE_CLOSURE), MADE);
    var env, call := Scope(bound), List(Sym(F));
    CallOfThunkFails(cfg, fuel, bound);
    hide Evaluate;
    assert EvalBody(cfg, fuel, List(call), env) == Err;
    assert Pairlis(List(Sym(F)), List(MADE_CLOSURE), MADE) == Good(bound);
    assert FormalsFit(List(Sym(F)), List(MADE_CLOSURE));
    assert EvalIn(cfg, fuel, List(call), Good(bound)) == Err;
  }

  /** What is bound first where a closure is made, and nowhere else, is unbound
      in its body. */
  lemma FirstBindingLost(cfg: Config, fuel: nat, st: State)
    requires X !in cfg.globals && fuel > 1
    requires st.Running? && st.pc == At(Label.Eval) && st.r0 == MADE && st.r1 == PROGRAM && st.stack != []
    ensures Lookup(cfg, X, MADE) == Good(Num(1))
    ensures Evaluate(cfg, fuel, PROGRAM, MADE) == Err
    ensures Fails(cfg, st, |st.stack|)
  {
    CallerFails(cfg, fuel);
    var fn := Evaluate(cfg, fuel, CALLER, MADE);
    assert fn.Val?;
    assert EvalList(cfg, fuel, List(THUNK), MADE) == After(0, After(0, Val(List(MADE_CLOSURE), 0))) by {
      assert Evaluate(cfg, fuel, THUNK, MADE) == Val(MADE_CLOSURE, 0);
      assert EvalList(cfg, fuel, Nil, MADE) == Val(Nil, 0);
    }
    assert Evaluate(cfg, fuel, PROGRAM, MADE) == Err;
    EvalSim(cfg, fuel, PROGRAM, MADE, st);
  }
}
