/** A recursive evaluator: what programs without side effects mean. */
module Evaluator {
  import opened Values
  import opened Machine

  /** The outcome of an evaluation.  `Val(v, h)` is the value and how many
      frames the machine needs on top of its stack to compute it.  `Fuel` tells
      that closures were entered more deeply than the bound given, and `Beyond`
      that the program leaves the fragment. */
  datatype Result = Val(value: Value, height: nat) | Err | Fuel | Beyond

  /** A result after `h` frames were needed under one saved frame. */
  function After(h: nat, r: Result): Result {
    match r
    case Val(v, k) => Val(v, if h + 1 < k then k else h + 1)
    case _ => r
  }

  /** A result that is computed under one saved frame. */
  function Under(r: Result): Result {
    match r
    case Val(v, h) => Val(v, h + 1)
    case _ => r
  }

  function FromAnswer(a: Answer<Value>): Result {
    match a
    case Good(v) => Val(v, 0)
    case Bad(_) => Err
    case Outside => Beyond
  }

  /** An operator that is applied as it stands in the program; any other
      operator is applied to what it evaluates to. */
  predicate Direct(fn: Value) {
    match fn
    case Builtin(_, _) => true
    case Closure(_, _, _) => true
    case Continuation(_) => true
    case Special(_) => true
    case Sym(s) => s == Symbol.CallCc || s == Symbol.CallWithValues || s == CurrentEnvironment
    case Pair(c, _) => c == Sym(Lambda)
    case _ => Constant(fn)
  }

  /** The heads of forms that are not calls. */
  predicate SpecialForm(c: Value) {
    match c
    case Binding(_) => true
    case Special(l) => l == MacroExpand
    case Sym(s) =>
      s == Quote || s == Symbol.Begin || s == Lambda || s == Symbol.If || s == Set || s == Define || s == DefineMacro
    case _ => false
  }

  function Evaluate(cfg: Config, fuel: nat, e: Value, env: Value): Result
    decreases fuel, e, 2
  {
    match e
    case Pair(c, rest) =>
      (match c
       case Binding(_) => Beyond
       case Sym(Quote) => if rest.Pair? then Val(rest.car, 0) else Beyond
       case Sym(Begin) =>
         if rest == Nil then Val(c, 0) else After(0, EvalBody(cfg, fuel, rest, env))
       case Sym(Lambda) => if rest.Pair? then Val(Closure(rest.car, rest.cdr, env), 0) else Beyond
       case Sym(If) => EvalIf(cfg, fuel, rest, env)
       case Sym(Set) => Beyond
       case Sym(Define) => Beyond
       case Sym(DefineMacro) => Beyond
       case Special(MacroExpand) => Beyond
       case _ =>
         var fn := Evaluate(cfg, fuel, c, env);
         if !fn.Val? then fn
         else
           var args := EvalList(cfg, fuel, rest, env);
           if !args.Val? then args
           else
             After(fn.height, After(args.height,
               if Direct(c) then ApplyTo(cfg, fuel, c, args.value, env)
               else ApplyValue(cfg, fuel, c, fn, args.value, env))))
    case Sym(s) =>
      if s == CurrentEnvironment || s == Symbol.Begin || s == Symbol.CallCc then Val(e, 0)
      else FromAnswer(Lookup(cfg, s, env))
    case Binding(_) => Beyond
    case _ => Val(e, 0)
  }

  function EvalIf(cfg: Config, fuel: nat, parts: Value, env: Value): Result
    decreases fuel, parts, 3
  {
    if !parts.Pair? || !parts.cdr.Pair? then Beyond
    else
      var test := Evaluate(cfg, fuel, parts.car, env);
      if !test.Val? then test
      else
        After(test.height,
          if test.value != False then Evaluate(cfg, fuel, parts.cdr.car, env)
          else if parts.cdr.cdr == Nil then Val(Unspecified, 0)
          else if parts.cdr.cdr.Pair? then Evaluate(cfg, fuel, parts.cdr.cdr.car, env)
          else Beyond)
  }

  function EvalList(cfg: Config, fuel: nat, e: Value, env: Value): Result
    decreases fuel, e, 3
  {
    match e
    case Nil => Val(Nil, 0)
    case Pair(a, rest) =>
      var v := Evaluate(cfg, fuel, a, env);
      if !v.Val? then v
      else
        var vs := EvalList(cfg, fuel, rest, env);
        if !vs.Val? then vs
        else After(v.height, After(vs.height, Val(Pair(v.value, vs.value), 0)))
    case _ => Evaluate(cfg, fuel, e, env)
  }

  /** The expressions of a body, in order; the value is that of the last. */
  function EvalBody(cfg: Config, fuel: nat, es: Value, env: Value): Result
    decreases fuel, es, 3
  {
    if !es.Pair? then Beyond
    else if IsBegin(es.car) && (!IsList(es.car.cdr) || (es.car.cdr == Nil && es.cdr == Nil)) then Beyond
    else EvalFirst(cfg, fuel, es, env)
  }

  function EvalFirst(cfg: Config, fuel: nat, es: Value, env: Value): Result
    decreases fuel, es, 2
  {
    if !es.Pair? then Beyond
    else if es.cdr == Nil then Evaluate(cfg, fuel, es.car, env)
    else
      var v := Evaluate(cfg, fuel, es.car, env);
      if !v.Val? then v else After(v.height, EvalBody(cfg, fuel, es.cdr, env))
  }

  /** A body in the scope of new bindings. */
  function EvalIn(cfg: Config, fuel: nat, body: Value, bindings: Answer<Value>): Result
    decreases fuel, body, 4
  {
    match bindings
    case Good(p) => if body == Nil then Val(Unspecified, 0) else EvalBody(cfg, fuel, body, Scope(p))
    case Bad(_) => Err
    case Outside => Beyond
  }

  /** Applies an operator of a program: as it stands, or what it evaluates to. */
  function ApplyTo(cfg: Config, fuel: nat, fn: Value, args: Value, env: Value): Result
    decreases fuel, fn, 4
  {
    if Direct(fn) then ApplyDirect(cfg, fuel, fn, args, env)
    else
      var v := Evaluate(cfg, fuel, fn, env);
      if !v.Val? then v else After(v.height, ApplyValue(cfg, fuel, fn, v, args, env))
  }

  function ApplyDirect(cfg: Config, fuel: nat, fn: Value, args: Value, env: Value): Result
    requires Direct(fn)
    decreases fuel, fn, 3
  {
    match fn
    case Builtin(name, arity) =>
      if !CountFits(arity, args) then Err else FromAnswer(ApplyBuiltin(cfg, name, arity, args))
    case Closure(formals, body, scope) =>
      if !scope.Pair? then Beyond
      else if !FormalsFit(formals, args) then Err
      else if fuel == 0 then Fuel
      else EvalIn(cfg, fuel - 1, body, Pairlis(formals, args, scope.cdr))
    case Continuation(_) => Beyond
    case Special(Apply) =>
      if !args.Pair? || !args.cdr.Pair? then Beyond
      else if fuel == 0 then Fuel
      else Under(ApplyTo(cfg, fuel - 1, args.car, args.cdr.car, env))
    case Special(Eval) =>
      if !args.Pair? || !args.cdr.Pair? then Beyond
      else if fuel == 0 then Fuel
      else Under(Evaluate(cfg, fuel - 1, args.car, args.cdr.car))
    case Special(BeginExpand) => Beyond
    case Sym(CallCc) => Beyond
    case Sym(CallWithValues) =>
      if !args.Pair? || !args.cdr.Pair? then Beyond
      else if fuel == 0 then Fuel
      else
        var v := ApplyTo(cfg, fuel - 1, args.car, Nil, env);
        if !v.Val? then v
        else After(v.height, ApplyTo(cfg, fuel - 1, args.cdr.car, ValueList(v.value), env))
    case Sym(CurrentEnvironment) => Val(env, 0)
    case Pair(Sym(Lambda), rest) =>
      if !rest.Pair? then Beyond
      else
        var p := Pairlis(rest.car, args, env);
        if p.Good? && !FormalsFit(rest.car, args) then Err
        else EvalIn(cfg, fuel, rest.cdr, p)
    case _ => Err
  }

  /** Applies what operator `op` has evaluated to. */
  function ApplyValue(cfg: Config, fuel: nat, op: Value, fn: Result, args: Value, env: Value): Result
    requires fn.Val?
    decreases fuel, op, 1
  {
    if !Applicable(fn.value) then Err
    else if fuel == 0 then Fuel
    else After(fn.height, ApplyTo(cfg, fuel - 1, fn.value, args, env))
  }
}
