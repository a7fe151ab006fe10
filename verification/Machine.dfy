/** The register machine of the interpreter, one block of code a step. */
module Machine {
  import opened Values

  /** A frame of the stack.  The last slot holds the procedure being applied; it
      is for inspection only. */
  datatype Frame = Frame(r0: Value, r1: Value, r2: Value, r3: Value, procedure: Value)

  /** Blocks of code that only the interpreter itself jumps to. */
  datatype Block = At(place: Label) | CallCc | CallWithValues

  datatype State =
    | Running(pc: Block, r0: Value, r1: Value, r2: Value, r3: Value,
              stack: seq<Frame>, conts: seq<seq<Frame>>)
    | Halted(value: Value, left: seq<Frame>, saved: seq<seq<Frame>>)
    | Failed(error: Error)
    | Off

  /** The end of a stack of `n` frames, from where frames are popped. */
  function Top(stack: seq<Frame>): Frame
    requires stack != []
  {
    stack[|stack| - 1]
  }

  function Below(stack: seq<Frame>): seq<Frame>
    requires stack != []
  {
    stack[..|stack| - 1]
  }

  /** Saves the registers with a continuation and jumps. */
  function PushCc(cfg: Config, st: State, p1: Value, p2: Value, a: Value, c: Label, to: Block): State
    requires st.Running?
  {
    if |st.stack| >= cfg.capacity then Failed(StackFull)
    else st.(pc := to, r0 := a, r1 := p1, r2 := p2,
             stack := st.stack + [Frame(st.r0, st.r1, p2, Special(c), False)])
  }

  /** Goes on where R3 says. */
  function Dispatch(st: State): State
    requires st.Running?
  {
    match st.r3
    case Special(l) => st.(pc := At(l))
    case Unspecified => Halted(st.r1, st.stack, st.conts)
    case _ => Failed(UnknownContinuation)
  }

  /** Returns `v` to the frame on top of the stack. */
  function Resume(v: Value, stack: seq<Frame>, conts: seq<seq<Frame>>): State {
    if stack == [] then Off
    else
      var f := Top(stack);
      Dispatch(Running(At(Return), f.r0, v, f.r2, f.r3, Below(stack), conts))
  }

  function Goto(st: State, to: Label, r1: Value): State
    requires st.Running?
  {
    st.(pc := At(to), r1 := r1)
  }

  function Enter(st: State, body: Value, bindings: Answer<Value>): State
    requires st.Running?
  {
    match bindings
    case Good(p) => st.(pc := At(Label.Begin), r0 := Scope(p), r1 := body)
    case Bad(e) => Failed(e)
    case Outside => Off
  }

  function Answered(st: State, a: Answer<Value>): State
    requires st.Running?
  {
    match a
    case Good(v) => Goto(st, Return, v)
    case Bad(e) => Failed(e)
    case Outside => Off
  }

  function SetProcedure(st: State, p: Value): State
    requires st.Running? && st.stack != []
  {
    st.(stack := Below(st.stack) + [Top(st.stack).(procedure := p)])
  }

  function StepEvlis(cfg: Config, st: State): State
    requires st.Running?
  {
    if st.r1 == Nil then Goto(st, Return, Nil)
    else if !st.r1.Pair? then Goto(st, Label.Eval, st.r1)
    else PushCc(cfg, st, st.r1.car, st.r1, st.r0, Evlis2, At(Label.Eval))
  }

  function StepApply(cfg: Config, st0: State): State
    requires st0.Running?
  {
    if !st0.r1.Pair? || st0.stack == [] then Off
    else
      var fn, args := st0.r1.car, st0.r1.cdr;
      var st := SetProcedure(st0, fn);
      match fn
      case Builtin(name, arity) =>
        if !CountFits(arity, args) then Failed(WrongNumberOfArgs)
        else Answered(st, ApplyBuiltin(cfg, name, arity, args))
      case Closure(formals, body, env) =>
        if !env.Pair? then Off
        else if !FormalsFit(formals, args) then Failed(WrongNumberOfArgs)
        else Enter(st, body, Pairlis(formals, args, env.cdr))
      case Continuation(id) =>
        if id >= |st.conts| || !args.Pair? then Off
        else
          var back := if st.conts[id] == [] then st.stack else st.conts[id];
          Goto(st.(stack := back), Return, args.car)
      case Special(Apply) =>
        if !args.Pair? || !args.cdr.Pair? then Off
        else PushCc(cfg, st, Pair(args.car, args.cdr.car), st.r1, st.r0, Return, At(Apply))
      case Special(Eval) =>
        if !args.Pair? || !args.cdr.Pair? then Off
        else PushCc(cfg, st, args.car, st.r1, args.cdr.car, Return, At(Label.Eval))
      case Special(BeginExpand) => Off
      case Special(_) => Failed(WrongTypeArg)
      case Nil => Failed(WrongTypeArg)
      case False => Failed(WrongTypeArg)
      case True => Failed(WrongTypeArg)
      case Unspecified => Failed(WrongTypeArg)
      case Undefined => Failed(WrongTypeArg)
      case ClosureMark => Failed(WrongTypeArg)
      case CircularMark => Failed(WrongTypeArg)
      case Sym(CallCc) => st.(pc := Block.CallCc, r1 := args)
      case Sym(CallWithValues) => st.(pc := Block.CallWithValues, r1 := args)
      case Sym(CurrentEnvironment) => Goto(st, Return, st.r0)
      case Pair(Sym(Lambda), rest) =>
        if !rest.Pair? then Off
        else
          var p := Pairlis(rest.car, args, st.r0);
          if p.Good? && !FormalsFit(rest.car, args) then Failed(WrongNumberOfArgs)
          else Enter(st, rest.cdr, p)
      case _ => PushCc(cfg, st, fn, st.r1, st.r0, Apply2, At(Label.Eval))
  }

  function StepApply2(st: State): State
    requires st.Running?
  {
    if !Applicable(st.r1) then Failed(WrongTypeArg)
    else if !st.r2.Pair? then Off
    else Goto(st, Apply, Pair(st.r1, st.r2.cdr))
  }

  function StepEval(cfg: Config, st: State): State
    requires st.Running?
  {
    match st.r1
    case Pair(c, rest) =>
      (match c
       case Binding(_) => Off
       case Sym(Quote) => if rest.Pair? then Goto(st, Return, rest.car) else Off
       case Sym(Begin) => Goto(st, Label.Begin, st.r1)
       case Sym(Lambda) => if rest.Pair? then Goto(st, Return, Closure(rest.car, rest.cdr, st.r0)) else Off
       case Sym(If) => Goto(st, Label.If, rest)
       case Sym(Set) => Off
       case Sym(Define) => Off
       case Sym(DefineMacro) => Off
       case Special(MacroExpand) => Off
       case _ => PushCc(cfg, st, c, st.r1, st.r0, EvalCheckFunc, At(Label.Eval)))
    case Sym(s) =>
      if s == CurrentEnvironment || s == Symbol.Begin || s == Symbol.CallCc then Goto(st, Return, st.r1)
      else Answered(st, Lookup(cfg, s, st.r0))
    case Binding(_) => Off
    case _ => Goto(st, Return, st.r1)
  }

  function StepEvalCheckFunc(cfg: Config, st: State): State
    requires st.Running?
  {
    if !st.r2.Pair? then Off
    else PushCc(cfg, st, st.r2.cdr, st.r2, st.r0, Eval2, At(Evlis))
  }

  function StepEval2(st: State): State
    requires st.Running?
  {
    if !st.r2.Pair? then Off else Goto(st, Apply, Pair(st.r2.car, st.r1))
  }

  /** A nested begin form, whose body is spliced into the body around it. */
  predicate IsBegin(x: Value) {
    x.Pair? && x.car == Sym(Symbol.Begin)
  }

  /** One turn of the loop over a body. */
  function StepBegin(cfg: Config, st: State): State
    requires st.Running?
  {
    if st.r1 == Nil then Goto(st, Return, Unspecified)
    else if !st.r1.Pair? then Off
    else if !IsBegin(st.r1.car) then BeginFirst(cfg, st)
    else if st.r1.car.cdr != Nil && !st.r1.car.cdr.Pair? then Failed(NotAPair)
    else if !IsList(st.r1.car.cdr) then Off
    else BeginFirst(cfg, st.(r1 := Append(st.r1.car.cdr, st.r1.cdr)))
  }

  function BeginFirst(cfg: Config, st: State): State
    requires st.Running?
  {
    if !st.r1.Pair? then Off
    else if st.r1.cdr == Nil then Goto(st, Label.Eval, st.r1.car)
    else PushCc(cfg, st, st.r1.car, st.r1, st.r0, BeginEval, At(Label.Eval))
  }

  /** The value of an expression that is not the last is dropped. */
  function StepBeginEval(st: State): State
    requires st.Running?
  {
    if !st.r2.Pair? then Off
    else if st.r2.cdr == Nil then Goto(st, Return, st.r1)
    else Goto(st, Label.Begin, st.r2.cdr)
  }

  function StepIf(cfg: Config, st: State): State
    requires st.Running?
  {
    if !st.r1.Pair? then Off
    else PushCc(cfg, st, st.r1.car, st.r1, st.r0, IfExpr, At(Label.Eval))
  }

  function StepIfExpr(st: State): State
    requires st.Running?
  {
    if !st.r2.Pair? || !st.r2.cdr.Pair? then Off
    else if st.r1 != False then Goto(st, Label.Eval, st.r2.cdr.car)
    else if st.r2.cdr.cdr == Nil then Goto(st, Return, Unspecified)
    else if st.r2.cdr.cdr.Pair? then Goto(st, Label.Eval, st.r2.cdr.cdr.car)
    else Off
  }

  /** Saves a copy of the stack, and applies the receiver to it. */
  function StepCallCc(cfg: Config, st: State): State
    requires st.Running?
  {
    if !st.r1.Pair? then Off
    else
      var k := Continuation(|st.conts|);
      PushCc(cfg, st.(conts := st.conts + [st.stack]), Pair(st.r1.car, List(k)), k, st.r0,
             CallCc2, At(Apply))
  }

  /** The receiver has returned: the stack is saved again. */
  function StepCallCc2(st: State): State
    requires st.Running?
  {
    if !st.r2.Continuation? || st.r2.id >= |st.conts| then Off
    else Goto(st.(conts := st.conts[st.r2.id := st.stack]), Return, st.r1)
  }

  function StepCallWithValues(cfg: Config, st: State): State
    requires st.Running?
  {
    if !st.r1.Pair? then Off
    else PushCc(cfg, st, List(st.r1.car), st.r1, st.r0, CallWithValues2, At(Apply))
  }

  function ValueList(v: Value): Value {
    if v.Multiple? then v.list else List(v)
  }

  function StepCallWithValues2(st: State): State
    requires st.Running?
  {
    if !st.r2.Pair? || !st.r2.cdr.Pair? then Off
    else Goto(st, Apply, Pair(st.r2.cdr.car, ValueList(st.r1)))
  }

  function Step(cfg: Config, st: State): State
    requires st.Running?
  {
    match st.pc
    case CallCc => StepCallCc(cfg, st)
    case CallWithValues => StepCallWithValues(cfg, st)
    case At(l) =>
      match l
      case Evlis => StepEvlis(cfg, st)
      case Evlis2 => if st.r2.Pair? then PushCc(cfg, st, st.r2.cdr, st.r1, st.r0, Evlis3, At(Evlis)) else Off
      case Evlis3 => Goto(st, Return, Pair(st.r2, st.r1))
      case Apply => StepApply(cfg, st)
      case Apply2 => StepApply2(st)
      case Eval => StepEval(cfg, st)
      case EvalCheckFunc => StepEvalCheckFunc(cfg, st)
      case Eval2 => StepEval2(st)
      case Begin => StepBegin(cfg, st)
      case BeginEval => StepBeginEval(st)
      case If => StepIf(cfg, st)
      case IfExpr => StepIfExpr(st)
      case CallCc2 => StepCallCc2(st)
      case CallWithValues2 => StepCallWithValues2(st)
      case Return => Resume(st.r1, st.stack, st.conts)
      case _ => Off
  }
}
