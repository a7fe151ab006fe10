/** What single blocks of the machine do besides computing values: the errors
    that they raise, and the frames that they push. */
module Blocks {
  import opened Values
  import opened Machine
  import opened Environments
  import Laws

  /** A closure of the wrong number of arguments: too few for formals that take
      the rest are noticed only where they are bound. */
  lemma ClosureErrors(cfg: Config, st: State, names: seq<Symbol>, rest: Value, body: Value, env: Value,
                      args: seq<Value>)
    requires RestFormal(rest) && env.Pair? && Applies(st, Closure(Formals(names, rest), body, env), args)
    requires !Environments.Fits(names, rest, args)
    ensures Step(cfg, st) == Failed(if rest == Nil then WrongNumberOfArgs else NotAPair)
  {
    hide Pairlis, Formals, Listed, Length;
    PairlisNeeds(names, rest, args, env.cdr);
    ListedLength(Names(names), rest);
    ListedLength(args, Nil);
    FormalsAre(names, rest);
  }

  lemma FormalsAre(names: seq<Symbol>, rest: Value)
    ensures Formals(names, rest) == Listed(Names(names), rest)
    ensures RestFormal(rest) ==> !Formals(names, rest).Num?
  {
  }

  /** A lambda form where it stands binds before it counts. */
  lemma LambdaErrors(cfg: Config, st: State, names: seq<Symbol>, rest: Value, body: Value, args: seq<Value>)
    requires RestFormal(rest) && Applies(st, Pair(Sym(Lambda), Pair(Formals(names, rest), body)), args)
    requires !Fits(names, rest, args)
    ensures Step(cfg, st) == Failed(if |args| < |names| then NotAPair else WrongNumberOfArgs)
  {
    hide Pairlis, Formals, Listed, Length;
    PairlisNeeds(names, rest, args, st.r0);
    ListedLength(Names(names), rest);
    ListedLength(args, Nil);
    FormalsAre(names, rest);
  }

  /** A variable that is bound nowhere, or to undefined. */
  lemma UnboundError(cfg: Config, st: State, s: Symbol, names: seq<Symbol>, vs: seq<Value>)
    requires st.Running? && st.pc == At(Label.Eval) && st.r1 == Sym(s) && |names| == |vs|
    requires st.r0 == Laws.Bindings(names, vs)
    requires s != CurrentEnvironment && s != Symbol.Begin && s != Symbol.CallCc
    requires if s in names then vs[Laws.Place(names, s)] == Undefined
             else s !in cfg.globals || cfg.globals[s] == Undefined
    ensures Step(cfg, st) == Failed(UnboundVariable)
  {
    hide Laws.Bindings, Assq, Laws.Place;
    Laws.AssqPlace(names, vs, s);
    if names == [] {
      Laws.NoBindings(vs);
    } else {
      Laws.BindingsStep(names, vs);
    }
  }

  /** What an operator may not evaluate to, and what may not stand as one. */
  lemma NoProcedure(cfg: Config, st: State)
    requires st.Running? && st.r2.Pair?
    ensures st.pc == At(Apply2) ==> (Step(cfg, st) == Failed(WrongTypeArg) <==> !Laws.CanApply(st.r1))
    ensures st.pc == At(Apply2) && Laws.CanApply(st.r1) ==>
      Step(cfg, st) == st.(pc := At(Apply), r1 := Pair(st.r1, st.r2.cdr))
  {
  }

  lemma ConstantApplied(cfg: Config, st: State, args: seq<Value>, f: Value)
    requires Applies(st, f, args) && f in [Nil, False, True, Unspecified, Undefined]
    ensures Step(cfg, st) == Failed(WrongTypeArg)
  {
  }

  /** A frame that is pushed saves the environment and the expression, which of a
      body is what is left after splicing, and says where to go on; its procedure
      slot is empty. */
  lemma FrameSaved(cfg: Config, st: State)
    requires st.Running? && Step(cfg, st).Running? && |Step(cfg, st).stack| == |st.stack| + 1
    requires st.pc != At(Apply) || !st.r1.Pair? || !st.r1.car.Continuation?
    ensures var f := Top(Step(cfg, st).stack);
      && f.r0 == st.r0 && (st.pc != At(Label.Begin) ==> f.r1 == st.r1)
      && f.r3.Special? && f.procedure == False
  {
    hide StepApply, Lookup, Append, IsList;
    if st.pc == At(Apply) {
      ApplySaves(cfg, st);
    }
  }

  lemma ApplySaves(cfg: Config, st: State)
    requires st.Running? && StepApply(cfg, st).Running? && |StepApply(cfg, st).stack| == |st.stack| + 1
    requires !st.r1.Pair? || !st.r1.car.Continuation?
    ensures var f := Top(StepApply(cfg, st).stack);
      f.r0 == st.r0 && f.r1 == st.r1 && f.r3.Special? && f.procedure == False
  {
    hide Pairlis, ApplyBuiltin, FormalsFit, CountFits, Length;
  }

  /** A frame is pushed only where there is room for it. */
  lemma NoRoom(cfg: Config, st: State)
    requires st.Running? && |st.stack| >= cfg.capacity && st.r1.Pair?
    ensures st.pc == At(Evlis) || st.pc == At(Label.If) ==> Step(cfg, st) == Failed(StackFull)
    ensures st.pc == At(Label.Eval) && Laws.Operator(st.r1.car) ==> Step(cfg, st) == Failed(StackFull)
  {
  }
}
