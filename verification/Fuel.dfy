/** The bound on the depth of closures decides only whether the evaluator comes
    to an end, never what it comes to. */
module Fuel {
  import opened Values
  import opened Machine
  import opened Evaluator

  /** With more fuel the result is the same, unless it was that fuel ran out. */
  predicate Refines(r: Result, r': Result) {
    r.Fuel? || r' == r
  }

  lemma {:induction false} MoreEvaluate(cfg: Config, f: nat, g: nat, e: Value, env: Value)
    requires f <= g
    ensures Refines(Evaluate(cfg, f, e, env), Evaluate(cfg, g, e, env))
    decreases f, e, 2
  {
    if e.Pair? {
      var c, rest := e.car, e.cdr;
      if c == Sym(Symbol.Begin) {
        if rest != Nil {
          MoreBody(cfg, f, g, rest, env);
        }
      } else if c == Sym(Symbol.If) {
        MoreIf(cfg, f, g, rest, env);
      } else if !SpecialForm(c) {
        MoreCall(cfg, f, g, c, rest, env);
      }
    }
  }

  /** The call of `c` with arguments that have values. */
  function CallWith(cfg: Config, f: nat, c: Value, fn: Result, args: Value, env: Value): Result
    requires fn.Val?
  {
    if Direct(c) then ApplyTo(cfg, f, c, args, env) else ApplyValue(cfg, f, c, fn, args, env)
  }

  function CallOf(cfg: Config, f: nat, c: Value, rest: Value, env: Value): Result {
    var fn := Evaluate(cfg, f, c, env);
    if !fn.Val? then fn
    else
      var args := EvalList(cfg, f, rest, env);
      if !args.Val? then args else After(fn.height, After(args.height, CallWith(cfg, f, c, fn, args.value, env)))
  }

  lemma CallUnfold(cfg: Config, f: nat, c: Value, rest: Value, env: Value)
    requires !SpecialForm(c)
    ensures Evaluate(cfg, f, Pair(c, rest), env) == CallOf(cfg, f, c, rest, env)
  {
    hide ApplyTo, ApplyValue, EvalList, EvalBody, EvalIf, After;
  }

  lemma {:induction false} MoreCall(cfg: Config, f: nat, g: nat, c: Value, rest: Value, env: Value)
    requires f <= g && !SpecialForm(c)
    ensures Refines(Evaluate(cfg, f, Pair(c, rest), env), Evaluate(cfg, g, Pair(c, rest), env))
    decreases f, Pair(c, rest), 1
  {
    hide Evaluate, EvalList, ApplyTo, ApplyValue, SpecialForm, Direct;
    CallUnfold(cfg, f, c, rest, env);
    CallUnfold(cfg, g, c, rest, env);
    MoreEvaluate(cfg, f, g, c, env);
    MoreList(cfg, f, g, rest, env);
    var fn, args := Evaluate(cfg, f, c, env), EvalList(cfg, f, rest, env);
    if fn.Val? && args.Val? {
      if Direct(c) {
        MoreApply(cfg, f, g, c, args.value, env);
      } else {
        MoreValue(cfg, f, g, c, fn, args.value, env);
      }
    }
  }

  lemma {:induction false} MoreIf(cfg: Config, f: nat, g: nat, parts: Value, env: Value)
    requires f <= g
    ensures Refines(EvalIf(cfg, f, parts, env), EvalIf(cfg, g, parts, env))
    decreases f, parts, 3
  {
    if parts.Pair? && parts.cdr.Pair? {
      MoreEvaluate(cfg, f, g, parts.car, env);
      MoreEvaluate(cfg, f, g, parts.cdr.car, env);
      if parts.cdr.cdr.Pair? {
        MoreEvaluate(cfg, f, g, parts.cdr.cdr.car, env);
      }
    }
  }

  lemma {:induction false} MoreList(cfg: Config, f: nat, g: nat, e: Value, env: Value)
    requires f <= g
    ensures Refines(EvalList(cfg, f, e, env), EvalList(cfg, g, e, env))
    decreases f, e, 3
  {
    if e.Pair? {
      MoreEvaluate(cfg, f, g, e.car, env);
      MoreList(cfg, f, g, e.cdr, env);
    } else if e != Nil {
      MoreEvaluate(cfg, f, g, e, env);
    }
  }

  lemma {:induction false} MoreBody(cfg: Config, f: nat, g: nat, es: Value, env: Value)
    requires f <= g
    ensures Refines(EvalBody(cfg, f, es, env), EvalBody(cfg, g, es, env))
    decreases f, es, 3
  {
    if es.Pair? {
      MoreEvaluate(cfg, f, g, es.car, env);
      if es.cdr != Nil {
        MoreBody(cfg, f, g, es.cdr, env);
      }
    }
  }

  lemma {:induction false} MoreIn(cfg: Config, f: nat, g: nat, body: Value, bindings: Answer<Value>)
    requires f <= g
    ensures Refines(EvalIn(cfg, f, body, bindings), EvalIn(cfg, g, body, bindings))
    decreases f, body, 4
  {
    if bindings.Good? && body != Nil {
      MoreBody(cfg, f, g, body, Scope(bindings.value));
    }
  }

  lemma ApplyToUnfold(cfg: Config, f: nat, fn: Value, args: Value, env: Value)
    ensures Direct(fn) ==> ApplyTo(cfg, f, fn, args, env) == ApplyDirect(cfg, f, fn, args, env)
    ensures !Direct(fn) ==>
      var v := Evaluate(cfg, f, fn, env);
      ApplyTo(cfg, f, fn, args, env)
        == if !v.Val? then v else After(v.height, ApplyValue(cfg, f, fn, v, args, env))
  {
    hide Evaluate, ApplyDirect, ApplyValue, Direct, After;
  }

  lemma {:induction false} MoreApply(cfg: Config, f: nat, g: nat, fn: Value, args: Value, env: Value)
    requires f <= g
    ensures Refines(ApplyTo(cfg, f, fn, args, env), ApplyTo(cfg, g, fn, args, env))
    decreases f, fn, 4
  {
    hide Evaluate, ApplyTo, ApplyDirect, ApplyValue, Direct;
    ApplyToUnfold(cfg, f, fn, args, env);
    ApplyToUnfold(cfg, g, fn, args, env);
    if Direct(fn) {
      MoreDirect(cfg, f, g, fn, args, env);
    } else {
      MoreEvaluate(cfg, f, g, fn, env);
      var v := Evaluate(cfg, f, fn, env);
      if v.Val? {
        MoreValue(cfg, f, g, fn, v, args, env);
      }
    }
  }

  /** Applying the procedures that themselves apply or evaluate. */
  function SpecialCall(cfg: Config, f: nat, fn: Value, args: Value, env: Value): Result
    requires args.Pair? && args.cdr.Pair? && f > 0
  {
    if fn == Special(Label.Eval) then Under(Evaluate(cfg, f - 1, args.car, args.cdr.car))
    else if fn == Special(Apply) then Under(ApplyTo(cfg, f - 1, args.car, args.cdr.car, env))
    else
      var v := ApplyTo(cfg, f - 1, args.car, Nil, env);
      if !v.Val? then v
      else After(v.height, ApplyTo(cfg, f - 1, args.cdr.car, ValueList(v.value), env))
  }

  predicate Reenters(fn: Value) {
    fn == Special(Label.Eval) || fn == Special(Apply) || fn == Sym(Symbol.CallWithValues)
  }

  lemma SpecialUnfold(cfg: Config, f: nat, fn: Value, args: Value, env: Value)
    requires Reenters(fn) && args.Pair? && args.cdr.Pair?
    ensures Direct(fn)
    ensures ApplyDirect(cfg, f, fn, args, env) == if f == 0 then Result.Fuel else SpecialCall(cfg, f, fn, args, env)
  {
    hide Evaluate, ApplyTo, Under, After;
  }

  lemma {:induction false} MoreSpecial(cfg: Config, f: nat, g: nat, fn: Value, args: Value, env: Value)
    requires f <= g && Reenters(fn) && args.Pair? && args.cdr.Pair? && f > 0
    ensures Refines(SpecialCall(cfg, f, fn, args, env), SpecialCall(cfg, g, fn, args, env))
    decreases f, fn, 2
  {
    hide Evaluate, ApplyTo;
    if fn == Special(Label.Eval) {
      MoreEvaluate(cfg, f - 1, g - 1, args.car, args.cdr.car);
    } else if fn == Special(Apply) {
      MoreApply(cfg, f - 1, g - 1, args.car, args.cdr.car, env);
    } else {
      MoreApply(cfg, f - 1, g - 1, args.car, Nil, env);
      var v := ApplyTo(cfg, f - 1, args.car, Nil, env);
      if v.Val? {
        MoreApply(cfg, f - 1, g - 1, args.cdr.car, ValueList(v.value), env);
      }
    }
  }

  lemma {:induction false} MoreClosure(cfg: Config, f: nat, g: nat, fn: Value, args: Value, env: Value)
    requires f <= g && fn.Closure?
    ensures Refines(ApplyDirect(cfg, f, fn, args, env), ApplyDirect(cfg, g, fn, args, env))
    decreases f, fn, 2
  {
    hide EvalIn, Pairlis, FormalsFit;
    if f > 0 && fn.env.Pair? {
      MoreIn(cfg, f - 1, g - 1, fn.body, Pairlis(fn.formals, args, fn.env.cdr));
    }
  }

  lemma {:induction false} MoreLambda(cfg: Config, f: nat, g: nat, rest: Value, args: Value, env: Value)
    requires f <= g
    ensures Refines(ApplyDirect(cfg, f, Pair(Sym(Lambda), rest), args, env),
                    ApplyDirect(cfg, g, Pair(Sym(Lambda), rest), args, env))
    decreases f, Pair(Sym(Lambda), rest), 2
  {
    hide EvalIn, Pairlis, FormalsFit;
    if rest.Pair? {
      MoreIn(cfg, f, g, rest.cdr, Pairlis(rest.car, args, env));
    }
  }

  /** Nothing else that is applied as it stands depends on the bound. */
  lemma FuelFree(cfg: Config, f: nat, g: nat, fn: Value, args: Value, env: Value)
    requires Direct(fn) && !fn.Pair? && !fn.Closure?
    requires !Reenters(fn) || !args.Pair? || !args.cdr.Pair?
    ensures ApplyDirect(cfg, f, fn, args, env) == ApplyDirect(cfg, g, fn, args, env)
  {
    hide Evaluate, ApplyTo, EvalIn, ApplyBuiltin, CountFits;
  }

  lemma {:induction false} MoreDirect(cfg: Config, f: nat, g: nat, fn: Value, args: Value, env: Value)
    requires f <= g && Direct(fn)
    ensures Refines(ApplyDirect(cfg, f, fn, args, env), ApplyDirect(cfg, g, fn, args, env))
    decreases f, fn, 3
  {
    hide ApplyDirect, SpecialCall;
    if fn.Pair? {
      MoreLambda(cfg, f, g, fn.cdr, args, env);
    } else if fn.Closure? {
      MoreClosure(cfg, f, g, fn, args, env);
    } else if Reenters(fn) && args.Pair? && args.cdr.Pair? {
      SpecialUnfold(cfg, f, fn, args, env);
      SpecialUnfold(cfg, g, fn, args, env);
      if f > 0 {
        MoreSpecial(cfg, f, g, fn, args, env);
      }
    } else {
      FuelFree(cfg, f, g, fn, args, env);
    }
  }

  lemma {:induction false} MoreValue(cfg: Config, f: nat, g: nat, op: Value, fn: Result, args: Value, env: Value)
    requires f <= g && fn.Val?
    ensures Refines(ApplyValue(cfg, f, op, fn, args, env), ApplyValue(cfg, g, op, fn, args, env))
    decreases f, op, 1
  {
    if f > 0 {
      MoreApply(cfg, f - 1, g - 1, fn.value, args, env);
    }
  }

  /** An expression has at most one value, and one need of stack. */
  lemma OneValue(cfg: Config, f: nat, g: nat, e: Value, env: Value)
    requires Evaluate(cfg, f, e, env).Val? && Evaluate(cfg, g, e, env).Val?
    ensures Evaluate(cfg, f, e, env) == Evaluate(cfg, g, e, env)
  {
    if f <= g {
      MoreEvaluate(cfg, f, g, e, env);
    } else {
      MoreEvaluate(cfg, g, f, e, env);
    }
  }
}
