/** Proper tail calls, section 3.5 of R7RS: an expression in tail position is
    evaluated at the stack depth at which the evaluation around it began.  That
    holds of calls of closures, of lambda forms applied where they stand, and of
    the consumer of `call-with-values`; but `apply`, `eval` and call/cc, whose
    calls the standard asks to be tail calls too, leave a frame each. */
module TailCalls {
  import opened Values
  import opened Machine
  import opened Evaluator
  import opened Refinement

  /** An expression about to be evaluated, with so many frames more on the stack
      than at the beginning, and so many continuations captured in all. */
  datatype Place = Place(e: Value, env: Value, added: nat, captured: nat)

  /** Where an evaluation comes to with its tail position, and the frames that
      it needs on the way. */
  datatype Tail = Tail(at: Place, height: nat) | NoTail

  function Later(h: nat, t: Tail): Tail {
    match t
    case Tail(at, k) => Tail(at, if h + 1 < k then k else h + 1)
    case NoTail => NoTail
  }

  /** The same on top of one frame more. */
  function Deeper(t: Tail): Tail {
    match t
    case Tail(at, h) => Tail(at.(added := at.added + 1), h + 1)
    case NoTail => NoTail
  }

  function TailOf(cfg: Config, fuel: nat, e: Value, env: Value, k: nat): Tail {
    if !e.Pair? then NoTail
    else if e.car == Sym(Symbol.Begin) then
      if e.cdr == Nil then NoTail else Later(0, TailOfBody(cfg, fuel, e.cdr, env, k))
    else if e.car == Sym(Symbol.If) then TailOfIf(cfg, fuel, e.cdr, env, k)
    else if SpecialForm(e.car) then NoTail
    else TailOfCall(cfg, fuel, e.car, e.cdr, env, k)
  }

  function TailOfIf(cfg: Config, fuel: nat, parts: Value, env: Value, k: nat): Tail {
    if !parts.Pair? || !parts.cdr.Pair? then NoTail
    else
      var test := Evaluate(cfg, fuel, parts.car, env);
      if !test.Val? then NoTail
      else if test.value != False then Tail(Place(parts.cdr.car, env, 0, k), test.height + 1)
      else if parts.cdr.cdr.Pair? then Tail(Place(parts.cdr.cdr.car, env, 0, k), test.height + 1)
      else NoTail
  }

  /** The last expression of a body, after splicing. */
  function TailOfBody(cfg: Config, fuel: nat, es: Value, env: Value, k: nat): Tail
    decreases Size(es), 1
  {
    if !es.Pair? then NoTail
    else if !IsBegin(es.car) then TailOfFirst(cfg, fuel, es, env, k)
    else if !IsList(es.car.cdr) then NoTail
    else
      AppendSize(es.car.cdr, es.cdr);
      assert Size(es.car) == 1 + Size(es.car.cdr);
      TailOfFirst(cfg, fuel, Append(es.car.cdr, es.cdr), env, k)
  }

  function TailOfFirst(cfg: Config, fuel: nat, es: Value, env: Value, k: nat): Tail
    decreases Size(es), 0
  {
    if !es.Pair? then NoTail
    else if es.cdr == Nil then Tail(Place(es.car, env, 0, k), 0)
    else
      var v := Evaluate(cfg, fuel, es.car, env);
      if v.Val? then Later(v.height, TailOfBody(cfg, fuel, es.cdr, env, k)) else NoTail
  }

  /** The last body expression of the procedure that is called. */
  function TailOfCall(cfg: Config, fuel: nat, c: Value, rest: Value, env: Value, k: nat): Tail {
    var fn, args := Evaluate(cfg, fuel, c, env), EvalList(cfg, fuel, rest, env);
    if !fn.Val? || !args.Val? then NoTail
    else Later(fn.height, Later(args.height, TailOfApply(cfg, fuel, c, args.value, env, k)))
  }

  /** An operator is applied as it stands, or what it evaluates to is. */
  function TailOfApply(cfg: Config, fuel: nat, fn: Value, args: Value, env: Value, k: nat): Tail
    decreases fuel, 1
  {
    if Direct(fn) then TailOfDirect(cfg, fuel, fn, args, env, k)
    else
      var v := Evaluate(cfg, fuel, fn, env);
      if !v.Val? || !Applicable(v.value) || fuel == 0 then NoTail
      else Later(v.height, TailOfApply(cfg, fuel - 1, v.value, args, env, k))
  }

  function TailOfDirect(cfg: Config, fuel: nat, fn: Value, args: Value, env: Value, k: nat): Tail
    decreases fuel, 0
  {
    if fn.Closure? then
      if fn.env.Pair? then TailOfBound(cfg, fuel, fn.formals, fn.body, args, fn.env.cdr, k) else NoTail
    else if fn.Pair? then
      if fn.car == Sym(Lambda) && fn.cdr.Pair? then TailOfBound(cfg, fuel, fn.cdr.car, fn.cdr.cdr, args, env, k)
      else NoTail
    else if fuel == 0 || !args.Pair? then NoTail
    else if fn == Sym(Symbol.CallCc) then
      Deeper(TailOfApply(cfg, fuel - 1, args.car, List(Continuation(k)), env, k + 1))
    else if !args.cdr.Pair? then NoTail
    else if fn == Special(Apply) then Deeper(TailOfApply(cfg, fuel - 1, args.car, args.cdr.car, env, k))
    else if fn == Special(Label.Eval) then Deeper(Tail(Place(args.car, args.cdr.car, 0, k), 0))
    else if fn == Sym(Symbol.CallWithValues) then
      var v := ApplyTo(cfg, fuel - 1, args.car, Nil, env);
      if !v.Val? then NoTail
      else Later(v.height, TailOfApply(cfg, fuel - 1, args.cdr.car, ValueList(v.value), env, k))
    else NoTail
  }

  /** The body of a procedure whose formals are bound in front of `outer`. */
  function TailOfBound(cfg: Config, fuel: nat, formals: Value, body: Value, args: Value, outer: Value, k: nat): Tail {
    var p := Pairlis(formals, args, outer);
    if body == Nil || !p.Good? || !FormalsFit(formals, args) then NoTail
    else TailOfBody(cfg, fuel, body, Scope(p.value), k)
  }

  /** After `k` steps or more the machine comes to the place `at`, with the
      frames `s` under it. */
  ghost predicate ComesAfter(cfg: Config, k: nat, st: State, s: seq<Frame>, at: Place) {
    exists n: nat, st' :: n >= k && Reaches(cfg, n, st, |s|, st') && Evaluates(st', s, at)
  }

  ghost predicate ComesTo(cfg: Config, st: State, s: seq<Frame>, at: Place) {
    ComesAfter(cfg, 0, st, s, at)
  }

  ghost predicate Evaluates(st: State, s: seq<Frame>, at: Place) {
    && st.Running? && st.pc == At(Label.Eval) && st.r0 == at.env && st.r1 == at.e
    && |st.conts| == at.captured
    && |st.stack| == |s| + at.added && SameFrames(s, st.stack[..|s|])
  }

  lemma ArriveNow(cfg: Config, st: State, s: seq<Frame>, at: Place)
    requires Evaluates(st, s, at)
    ensures ComesTo(cfg, st, s, at)
  {
    assert Reaches(cfg, 0, st, |s|, st);
  }

  lemma ArriveAfter(cfg: Config, m: nat, st: State, d: nat, mid: State, k: nat, s: seq<Frame>, t: seq<Frame>, at: Place)
    requires Reaches(cfg, m, st, d, mid) && d >= |s| && SameFrames(s, t) && ComesAfter(cfg, k, mid, t, at)
    ensures ComesAfter(cfg, m + k, st, s, at) && ComesTo(cfg, st, s, at)
  {
    var n: nat, st' :| n >= k && Reaches(cfg, n, mid, |t|, st') && Evaluates(st', t, at);
    ReachesTrans(cfg, m, n, st, d, mid, |t|, st');
    assert Evaluates(st', s, at);
  }

  lemma ArriveVia(cfg: Config, st: State, d: nat, mid: State, s: seq<Frame>, t: seq<Frame>, at: Place)
    requires Goes(cfg, st, d, mid) && d >= |s| && SameFrames(s, t) && ComesTo(cfg, mid, t, at)
    ensures ComesTo(cfg, st, s, at)
  {
    var m: nat :| Reaches(cfg, m, st, d, mid);
    ArriveAfter(cfg, m, st, d, mid, 0, s, t, at);
  }

  lemma ArriveStep(cfg: Config, st: State, s: seq<Frame>, t: seq<Frame>, at: Place)
    requires st.Running? && |st.stack| >= |s| && SameFrames(s, t) && ComesTo(cfg, Step(cfg, st), t, at)
    ensures ComesTo(cfg, st, s, at) && ComesAfter(cfg, 1, st, s, at)
  {
    hide Step, ComesAfter;
    assert Reaches(cfg, 0, Step(cfg, st), |s|, Step(cfg, st));
    assert Reaches(cfg, 1, st, |s|, Step(cfg, st));
    ArriveAfter(cfg, 1, st, |s|, Step(cfg, st), 0, s, t, at);
  }

  /** A call with a saved frame that returns its value. */
  lemma ArriveCall(cfg: Config, st: State, s: seq<Frame>, t: seq<Frame>, conts: seq<seq<Frame>>, fuel: nat,
                   frame: Frame, r: Result, at: Place)
    requires st.Running? && |st.stack| == |s| && SameFrames(s, t)
    requires r.Val? && |s| + 1 + r.height <= cfg.capacity
    requires Outcome(cfg, Step(cfg, st), t + [frame], conts, fuel, r)
    requires ComesTo(cfg, Resume(r.value, t + [frame], conts), t, at)
    ensures ComesTo(cfg, st, s, at) && ComesAfter(cfg, 1, st, s, at)
  {
    var next, back := Step(cfg, st), Resume(r.value, t + [frame], conts);
    assert |t + [frame]| == |s| + 1;
    ArriveVia(cfg, next, |s| + 1, back, t, t, at) by { SameSelf(t); }
    ArriveStep(cfg, st, s, t, at);
  }

  /** What is on the frames `u` is on the frames `s` under them. */
  lemma ArriveAbove(cfg: Config, k: nat, st: State, s: seq<Frame>, u: seq<Frame>, at: Place)
    requires |u| >= |s| && SameFrames(s, u[..|s|]) && ComesAfter(cfg, k, st, u, at)
    ensures ComesAfter(cfg, k, st, s, at.(added := at.added + |u| - |s|))
  {
    var n: nat, st' :| n >= k && Reaches(cfg, n, st, |u|, st') && Evaluates(st', u, at);
    assert Reaches(cfg, 0, st', |s|, st');
    ReachesTrans(cfg, n, 0, st, |u|, st', |s|, st');
    PrefixSame(s, u, st'.stack);
    assert Evaluates(st', s, at.(added := at.added + |u| - |s|));
  }

  lemma PrefixSame(s: seq<Frame>, u: seq<Frame>, t: seq<Frame>)
    requires |s| <= |u| <= |t| && SameFrames(s, u[..|s|]) && SameFrames(u, t[..|u|])
    ensures SameFrames(s, t[..|s|])
  {
    if |s| < |u| {
      assert t[..|s|] == Below(t[..|u|])[..|s|] == u[..|s|];
    } else {
      assert u[..|s|] == u;
    }
  }

  lemma TailIfSim(cfg: Config, fuel: nat, parts: Value, env: Value, st: State)
    requires st.Running? && st.pc == At(Label.If) && st.r0 == env && st.r1 == parts && st.stack != []
    requires TailOfIf(cfg, fuel, parts, env, |st.conts|).Tail?
    requires |st.stack| + TailOfIf(cfg, fuel, parts, env, |st.conts|).height <= cfg.capacity
    ensures ComesTo(cfg, st, st.stack, TailOfIf(cfg, fuel, parts, env, |st.conts|).at)
  {
    var s, at := st.stack, TailOfIf(cfg, fuel, parts, env, |st.conts|).at;
    SameSelf(s);
    var frame := Frame(env, parts, parts, Special(IfExpr), False);
    var test := Evaluate(cfg, fuel, parts.car, env);
    EvalSim(cfg, fuel, parts.car, env, Step(cfg, st));
    ResumeBack(s, env, parts, parts, IfExpr, test.value, st.conts);
    var back := Back(IfExpr, env, test.value, parts, s, st.conts);
    assert s[..|s|] == s;
    ArriveNow(cfg, Step(cfg, back), s, at);
    ArriveStep(cfg, back, s, s, at);
    ArriveCall(cfg, st, s, s, st.conts, fuel, frame, test, at);
  }

  lemma TailBodySim(cfg: Config, fuel: nat, es: Value, env: Value, st: State)
    requires st.Running? && st.pc == At(Label.Begin) && st.r0 == env && st.r1 == es && st.stack != []
    requires TailOfBody(cfg, fuel, es, env, |st.conts|).Tail?
    requires |st.stack| + TailOfBody(cfg, fuel, es, env, |st.conts|).height <= cfg.capacity
    ensures ComesTo(cfg, st, st.stack, TailOfBody(cfg, fuel, es, env, |st.conts|).at)
    decreases Size(es), 1
  {
    hide ComesTo, Evaluate, TailOfFirst;
    if IsBegin(es.car) {
      var spliced := Append(es.car.cdr, es.cdr);
      AppendSize(es.car.cdr, es.cdr);
      assert Size(es.car) == 1 + Size(es.car.cdr);
      TailFirstSim(cfg, fuel, spliced, env, st, st.(r1 := spliced));
    } else {
      TailFirstSim(cfg, fuel, es, env, st, st);
    }
  }

  lemma TailFirstSim(cfg: Config, fuel: nat, es: Value, env: Value, st: State, mid: State)
    requires st.Running? && mid.Running? && Step(cfg, st) == BeginFirst(cfg, mid)
    requires mid.r0 == env && mid.r1 == es && mid.stack == st.stack != [] && mid.conts == st.conts
    requires TailOfFirst(cfg, fuel, es, env, |st.conts|).Tail?
    requires |st.stack| + TailOfFirst(cfg, fuel, es, env, |st.conts|).height <= cfg.capacity
    ensures ComesTo(cfg, st, st.stack, TailOfFirst(cfg, fuel, es, env, |st.conts|).at)
    decreases Size(es), 0
  {
    hide TailOfBody, ComesTo, Outcome;
    var s, at := st.stack, TailOfFirst(cfg, fuel, es, env, |st.conts|).at;
    SameSelf(s);
    if es.cdr == Nil {
      assert s[..|s|] == s;
      ArriveNow(cfg, Step(cfg, st), s, at);
      ArriveStep(cfg, st, s, s, at);
    } else {
      var frame := Frame(env, es, es, Special(BeginEval), False);
      var v := Evaluate(cfg, fuel, es.car, env);
      EvalSim(cfg, fuel, es.car, env, Step(cfg, st));
      ResumeBack(s, env, es, es, BeginEval, v.value, st.conts);
      var back := Back(BeginEval, env, v.value, es, s, st.conts);
      TailBodySim(cfg, fuel, es.cdr, env, Step(cfg, back));
      ArriveStep(cfg, back, s, s, at);
      ArriveCall(cfg, st, s, s, st.conts, fuel, frame, v, at);
    }
  }

  lemma TailCallSim(cfg: Config, fuel: nat, c: Value, rest: Value, env: Value, st: State)
    requires st.Running? && st.pc == At(Label.Eval) && st.r0 == env && st.r1 == Pair(c, rest) && st.stack != []
    requires !SpecialForm(c) && TailOfCall(cfg, fuel, c, rest, env, |st.conts|).Tail?
    requires |st.stack| + TailOfCall(cfg, fuel, c, rest, env, |st.conts|).height <= cfg.capacity
    ensures ComesAfter(cfg, 1, st, st.stack, TailOfCall(cfg, fuel, c, rest, env, |st.conts|).at)
  {
    hide Outcome, ComesTo, ComesAfter, Evaluate, EvalList, TailOfApply;
    var s, e, at := st.stack, st.r1, TailOfCall(cfg, fuel, c, rest, env, |st.conts|).at;
    SameSelf(s);
    var fn := Evaluate(cfg, fuel, c, env);
    var frame := Frame(env, e, e, Special(EvalCheckFunc), False);
    EvalSim(cfg, fuel, c, env, Step(cfg, st));
    ResumeBack(s, env, e, e, EvalCheckFunc, fn.value, st.conts);
    TailCallArguments(cfg, fuel, c, rest, env, fn.value, s, st.conts);
    ArriveCall(cfg, st, s, s, st.conts, fuel, frame, fn, at);
  }

  lemma TailCallArguments(cfg: Config, fuel: nat, c: Value, rest: Value, env: Value, v: Value,
                          s: seq<Frame>, conts: seq<seq<Frame>>)
    requires s != [] && !SpecialForm(c) && TailOfCall(cfg, fuel, c, rest, env, |conts|).Tail?
    requires |s| + TailOfCall(cfg, fuel, c, rest, env, |conts|).height <= cfg.capacity
    ensures ComesTo(cfg, Back(EvalCheckFunc, env, v, Pair(c, rest), s, conts), s,
                    TailOfCall(cfg, fuel, c, rest, env, |conts|).at)
  {
    hide Outcome, ComesTo, Evaluate, EvalList, TailOfApply;
    var e, at := Pair(c, rest), TailOfCall(cfg, fuel, c, rest, env, |conts|).at;
    var st := Back(EvalCheckFunc, env, v, e, s, conts);
    SameSelf(s);
    var args := EvalList(cfg, fuel, rest, env);
    var frame := Frame(env, v, e, Special(Eval2), False);
    EvalListSim(cfg, fuel, rest, env, Step(cfg, st));
    ResumeBack(s, env, v, e, Eval2, args.value, conts);
    var back := Back(Eval2, env, args.value, e, s, conts);
    TailApplySim(cfg, fuel, c, args.value, env, Step(cfg, back));
    ArriveStep(cfg, back, s, s, at);
    ArriveCall(cfg, st, s, s, conts, fuel, frame, args, at);
  }

  lemma TailApplySim(cfg: Config, fuel: nat, fn: Value, args: Value, env: Value, st: State)
    requires st.Running? && st.pc == At(Apply) && st.r0 == env && st.r1 == Pair(fn, args) && st.stack != []
    requires TailOfApply(cfg, fuel, fn, args, env, |st.conts|).Tail?
    requires |st.stack| + TailOfApply(cfg, fuel, fn, args, env, |st.conts|).height <= cfg.capacity
    ensures ComesTo(cfg, st, st.stack, TailOfApply(cfg, fuel, fn, args, env, |st.conts|).at)
    decreases fuel, 3
  {
    hide ComesTo, TailOfDirect, Evaluate;
    if Direct(fn) {
      TailDirectSim(cfg, fuel, fn, args, env, st);
    } else {
      TailOperatorSim(cfg, fuel, fn, args, env, st);
    }
  }

  /** The operator is evaluated a second time, and what it gives is applied. */
  lemma TailOperatorSim(cfg: Config, fuel: nat, c: Value, args: Value, env: Value, st: State)
    requires st.Running? && st.pc == At(Apply) && st.r0 == env && st.r1 == Pair(c, args) && st.stack != []
    requires !Direct(c) && TailOfApply(cfg, fuel, c, args, env, |st.conts|).Tail?
    requires |st.stack| + TailOfApply(cfg, fuel, c, args, env, |st.conts|).height <= cfg.capacity
    ensures ComesTo(cfg, st, st.stack, TailOfApply(cfg, fuel, c, args, env, |st.conts|).at)
    decreases fuel, 0
  {
    hide Outcome, ComesTo, TailOfDirect, Evaluate;
    var s, u, e := st.stack, SetProcedure(st, c).stack, st.r1;
    assert SameFrames(s, u);
    SameSelf(u);
    var fn, at := Evaluate(cfg, fuel, c, env), TailOfApply(cfg, fuel, c, args, env, |st.conts|).at;
    var frame := Frame(env, e, e, Special(Apply2), False);
    assert Step(cfg, st) == PushCc(cfg, SetProcedure(st, c), c, e, env, Apply2, At(Label.Eval));
    EvalSim(cfg, fuel, c, env, Step(cfg, st));
    ResumeBack(u, env, e, e, Apply2, fn.value, st.conts);
    var back := Back(Apply2, env, fn.value, e, u, st.conts);
    assert Step(cfg, back) == Goto(back, Apply, Pair(fn.value, args));
    hide Step;
    TailApplySim(cfg, fuel - 1, fn.value, args, env, Step(cfg, back));
    ArriveStep(cfg, back, u, u, at);
    ArriveCall(cfg, st, s, u, st.conts, fuel, frame, fn, at);
  }

  lemma TailDirectSim(cfg: Config, fuel: nat, fn: Value, args: Value, env: Value, st: State)
    requires st.Running? && st.pc == At(Apply) && st.r0 == env && st.r1 == Pair(fn, args) && st.stack != []
    requires TailOfDirect(cfg, fuel, fn, args, env, |st.conts|).Tail?
    requires |st.stack| + TailOfDirect(cfg, fuel, fn, args, env, |st.conts|).height <= cfg.capacity
    ensures ComesTo(cfg, st, st.stack, TailOfDirect(cfg, fuel, fn, args, env, |st.conts|).at)
    decreases fuel, 2
  {
    hide ComesTo, TailOfApply, TailOfBound, ApplyTo;
    if fn.Closure? {
      TailBoundSim(cfg, fuel, fn.formals, fn.body, fn.env.cdr, st);
    } else if fn.Pair? {
      TailBoundSim(cfg, fuel, fn.cdr.car, fn.cdr.cdr, env, st);
    } else if fn == Sym(Symbol.CallCc) {
      TailCallCcSim(cfg, fuel, args, env, st);
    } else if fn == Sym(Symbol.CallWithValues) {
      TailValuesSim(cfg, fuel, args, env, st);
    } else {
      TailPrimitiveSim(cfg, fuel, fn, args, env, st);
    }
  }

  /** A body is entered on the frames of the application. */
  lemma TailBoundSim(cfg: Config, fuel: nat, formals: Value, body: Value, outer: Value, st: State)
    requires st.Running? && st.pc == At(Apply) && st.r1.Pair? && st.stack != []
    requires
      || (st.r1.car.Closure? && st.r1.car.env.Pair?
          && st.r1.car == Closure(formals, body, st.r1.car.env) && st.r1.car.env.cdr == outer)
      || (st.r1.car == Pair(Sym(Lambda), Pair(formals, body)) && st.r0 == outer)
    requires TailOfBound(cfg, fuel, formals, body, st.r1.cdr, outer, |st.conts|).Tail?
    requires |st.stack| + TailOfBound(cfg, fuel, formals, body, st.r1.cdr, outer, |st.conts|).height <= cfg.capacity
    ensures ComesTo(cfg, st, st.stack, TailOfBound(cfg, fuel, formals, body, st.r1.cdr, outer, |st.conts|).at)
  {
    hide ComesTo, TailOfBody, Pairlis, FormalsFit;
    var fn, args := st.r1.car, st.r1.cdr;
    var mid := SetProcedure(st, fn);
    assert SameFrames(st.stack, mid.stack);
    var p := Pairlis(formals, args, outer);
    assert Step(cfg, st) == Enter(mid, body, p);
    hide Step;
    TailBodySim(cfg, fuel, body, Scope(p.value), Step(cfg, st));
    ArriveStep(cfg, st, st.stack, mid.stack, TailOfBody(cfg, fuel, body, Scope(p.value), |st.conts|).at);
  }

  /** A frame is pushed, and what follows is on top of it. */
  lemma ArriveDeeper(cfg: Config, st: State, mid: State, at: Place)
    requires st.Running? && Goes(cfg, st, |st.stack|, mid) && mid.Running?
    requires st.stack != [] && mid.stack != [] && SameFrames(st.stack, Below(mid.stack))
    requires ComesTo(cfg, mid, mid.stack, at)
    ensures ComesTo(cfg, st, st.stack, at.(added := at.added + 1))
  {
    var s, u := st.stack, mid.stack;
    assert u[..|s|] == Below(u);
    ArriveAbove(cfg, 0, mid, s, u, at);
    SameSelf(s);
    ArriveVia(cfg, st, |s|, mid, s, s, at.(added := at.added + 1));
  }

  /** `apply` and `eval` leave a frame. */
  lemma TailPrimitiveSim(cfg: Config, fuel: nat, fn: Value, args: Value, env: Value, st: State)
    requires st.Running? && st.pc == At(Apply) && st.r0 == env && st.r1 == Pair(fn, args) && st.stack != []
    requires fn == Special(Apply) || fn == Special(Label.Eval)
    requires TailOfDirect(cfg, fuel, fn, args, env, |st.conts|).Tail?
    requires |st.stack| + TailOfDirect(cfg, fuel, fn, args, env, |st.conts|).height <= cfg.capacity
    ensures ComesTo(cfg, st, st.stack, TailOfDirect(cfg, fuel, fn, args, env, |st.conts|).at)
    decreases fuel, 0
  {
    hide ComesTo, TailOfApply;
    var mid := SetProcedure(st, fn);
    assert Below(mid.stack + [Frame(env, st.r1, st.r1, Special(Return), False)]) == mid.stack;
    assert SameFrames(st.stack, mid.stack);
    var next := Step(cfg, st);
    assert next.Running? && Below(next.stack) == mid.stack && next.conts == st.conts;
    GoesStep(cfg, st, |st.stack|);
    hide Step;
    if fn == Special(Apply) {
      TailApplySim(cfg, fuel - 1, args.car, args.cdr.car, env, next);
      ArriveDeeper(cfg, st, next, TailOfApply(cfg, fuel - 1, args.car, args.cdr.car, env, |st.conts|).at);
    } else {
      var at := Place(args.car, args.cdr.car, 0, |st.conts|);
      SameSelf(next.stack);
      assert next.stack[..|next.stack|] == next.stack;
      ArriveNow(cfg, next, next.stack, at);
      ArriveDeeper(cfg, st, next, at);
    }
  }

  /** So does call/cc. */
  lemma TailCallCcSim(cfg: Config, fuel: nat, args: Value, env: Value, st: State)
    requires st.Running? && st.pc == At(Apply) && st.r0 == env && st.stack != []
    requires st.r1 == Pair(Sym(Symbol.CallCc), args)
    requires TailOfDirect(cfg, fuel, Sym(Symbol.CallCc), args, env, |st.conts|).Tail?
    requires |st.stack| + TailOfDirect(cfg, fuel, Sym(Symbol.CallCc), args, env, |st.conts|).height <= cfg.capacity
    ensures ComesTo(cfg, st, st.stack, TailOfDirect(cfg, fuel, Sym(Symbol.CallCc), args, env, |st.conts|).at)
    decreases fuel, 0
  {
    hide ComesTo, TailOfApply;
    var k := Continuation(|st.conts|);
    var mid := SetProcedure(st, Sym(Symbol.CallCc));
    assert Below(mid.stack + [Frame(env, args, k, Special(CallCc2), False)]) == mid.stack;
    assert SameFrames(st.stack, mid.stack);
    var loop := Step(cfg, st);
    assert loop == mid.(pc := Block.CallCc, r1 := args);
    var next := Step(cfg, loop);
    assert next.Running? && Below(next.stack) == mid.stack && |next.conts| == |st.conts| + 1;
    assert next.pc == At(Apply) && next.r0 == env && next.r1 == Pair(args.car, List(k));
    GoesStep(cfg, st, |st.stack|);
    GoesStep(cfg, loop, |st.stack|);
    GoesTrans(cfg, st, |st.stack|, loop, |st.stack|, next);
    hide Step;
    TailApplySim(cfg, fuel - 1, args.car, List(k), env, next);
    ArriveDeeper(cfg, st, next, TailOfApply(cfg, fuel - 1, args.car, List(k), env, |st.conts| + 1).at);
  }

  /** The consumer of the values takes the place of the call. */
  lemma TailValuesSim(cfg: Config, fuel: nat, args: Value, env: Value, st: State)
    requires st.Running? && st.pc == At(Apply) && st.r0 == env && st.stack != []
    requires st.r1 == Pair(Sym(Symbol.CallWithValues), args)
    requires TailOfDirect(cfg, fuel, Sym(Symbol.CallWithValues), args, env, |st.conts|).Tail?
    requires |st.stack| + TailOfDirect(cfg, fuel, Sym(Symbol.CallWithValues), args, env, |st.conts|).height
          <= cfg.capacity
    ensures ComesTo(cfg, st, st.stack, TailOfDirect(cfg, fuel, Sym(Symbol.CallWithValues), args, env, |st.conts|).at)
    decreases fuel, 1
  {
    hide ComesTo, TailOfApply, Outcome, ApplyTo;
    var at := TailOfDirect(cfg, fuel, Sym(Symbol.CallWithValues), args, env, |st.conts|).at;
    var u := SetProcedure(st, Sym(Symbol.CallWithValues)).stack;
    assert SameFrames(st.stack, u);
    var loop := Step(cfg, st);
    assert loop == st.(pc := Block.CallWithValues, r1 := args, stack := u);
    ProducerSim(cfg, fuel, args, env, loop);
    ArriveStep(cfg, st, st.stack, u, at);
  }

  lemma ProducerSim(cfg: Config, fuel: nat, args: Value, env: Value, st: State)
    requires st.Running? && st.pc == Block.CallWithValues && st.r0 == env && st.r1 == args && st.stack != []
    requires TailOfDirect(cfg, fuel, Sym(Symbol.CallWithValues), args, env, |st.conts|).Tail?
    requires |st.stack| + TailOfDirect(cfg, fuel, Sym(Symbol.CallWithValues), args, env, |st.conts|).height
          <= cfg.capacity
    ensures ComesTo(cfg, st, st.stack, TailOfDirect(cfg, fuel, Sym(Symbol.CallWithValues), args, env, |st.conts|).at)
    decreases fuel, 0
  {
    hide ComesTo, TailOfApply, Outcome, ApplyTo;
    var u, at := st.stack, TailOfDirect(cfg, fuel, Sym(Symbol.CallWithValues), args, env, |st.conts|).at;
    SameSelf(u);
    var frame := Frame(env, args, args, Special(CallWithValues2), False);
    var v := ApplyTo(cfg, fuel - 1, args.car, Nil, env);
    assert Step(cfg, st) == PushCc(cfg, st, List(args.car), args, env, CallWithValues2, At(Apply));
    ApplySim(cfg, fuel - 1, args.car, Nil, env, Step(cfg, st));
    ResumeBack(u, env, args, args, CallWithValues2, v.value, st.conts);
    var back := Back(CallWithValues2, env, v.value, args, u, st.conts);
    assert Step(cfg, back) == Goto(back, Apply, Pair(args.cdr.car, ValueList(v.value)));
    hide Step;
    TailApplySim(cfg, fuel - 1, args.cdr.car, ValueList(v.value), env, Step(cfg, back));
    ArriveStep(cfg, back, u, u, at);
    ArriveCall(cfg, st, u, u, st.conts, fuel - 1, frame, v, at);
  }

  /** From the evaluation of an expression to that of the expression in its tail
      position, at the same depth but for the frames that `apply`, `eval` and
      call/cc leave. */
  lemma TailSim(cfg: Config, fuel: nat, e: Value, env: Value, st: State)
    requires st.Running? && st.pc == At(Label.Eval) && st.r0 == env && st.r1 == e && st.stack != []
    requires TailOf(cfg, fuel, e, env, |st.conts|).Tail?
    requires |st.stack| + TailOf(cfg, fuel, e, env, |st.conts|).height <= cfg.capacity
    ensures ComesAfter(cfg, 1, st, st.stack, TailOf(cfg, fuel, e, env, |st.conts|).at)
  {
    hide Outcome, ComesTo, ComesAfter, TailOfCall, TailOfIf, TailOfBody;
    var s, at := st.stack, TailOf(cfg, fuel, e, env, |st.conts|).at;
    SameSelf(s);
    if e.car == Sym(Symbol.Begin) {
      TailBeginSim(cfg, fuel, e.cdr, env, st);
    } else if e.car == Sym(Symbol.If) {
      TailIfSim(cfg, fuel, e.cdr, env, Step(cfg, st));
      ArriveStep(cfg, st, s, s, at);
    } else {
      TailCallSim(cfg, fuel, e.car, e.cdr, env, st);
    }
  }

  lemma TailBeginSim(cfg: Config, fuel: nat, rest: Value, env: Value, st: State)
    requires st.Running? && st.pc == At(Label.Eval) && st.r0 == env && st.stack != []
    requires st.r1 == Pair(Sym(Symbol.Begin), rest) && rest != Nil
    requires TailOfBody(cfg, fuel, rest, env, |st.conts|).Tail?
    requires |st.stack| + Later(0, TailOfBody(cfg, fuel, rest, env, |st.conts|)).height <= cfg.capacity
    ensures ComesAfter(cfg, 1, st, st.stack, TailOfBody(cfg, fuel, rest, env, |st.conts|).at)
  {
    hide ComesTo, ComesAfter, TailOfBody;
    var s, e, at, begin := st.stack, st.r1, TailOfBody(cfg, fuel, rest, env, |st.conts|).at, Sym(Symbol.Begin);
    SameSelf(s);
    var loop := Step(cfg, st);
    var frame := Frame(env, e, e, Special(BeginEval), False);
    SameSelf(s + [frame]);
    Returns(cfg, Step(cfg, loop), s + [frame], fuel, begin);
    ResumeBack(s, env, e, e, BeginEval, begin, st.conts);
    var back := Back(BeginEval, env, begin, e, s, st.conts);
    TailBodySim(cfg, fuel, rest, env, Step(cfg, back));
    ArriveStep(cfg, back, s, s, at);
    ArriveCall(cfg, loop, s, s, st.conts, fuel, frame, Val(begin, 0), at);
    ArriveStep(cfg, st, s, s, at);
  }

  lemma BodyTail(cfg: Config, fuel: nat, formals: Value, body: Value, args: Value, outer: Value, k: nat)
    requires FormalsFit(formals, args) && Pairlis(formals, args, outer).Good? && !IsBegin(body)
    ensures TailOfBound(cfg, fuel, formals, List(body), args, outer, k)
         == Tail(Place(body, Scope(Pairlis(formals, args, outer).value), 0, k), 0)
  {
    hide Pairlis, FormalsFit;
    var env := Scope(Pairlis(formals, args, outer).value);
    assert List(body).cdr == Nil && List(body).car == body;
    assert TailOfFirst(cfg, fuel, List(body), env, k) == Tail(Place(body, env, 0, k), 0);
    assert TailOfBody(cfg, fuel, List(body), env, k) == TailOfFirst(cfg, fuel, List(body), env, k);
  }

  /** A lambda form that is applied where it stands, which is what `let` is: the
      body's last expression keeps the depth. */
  lemma LetTail(cfg: Config, fuel: nat, formals: Value, body: Value, rest: Value, env: Value, k: nat)
    requires EvalList(cfg, fuel, rest, env).Val? && !IsBegin(body)
    requires FormalsFit(formals, EvalList(cfg, fuel, rest, env).value)
    requires Pairlis(formals, EvalList(cfg, fuel, rest, env).value, env).Good?
    ensures
      var let := Pair(Pair(Sym(Lambda), Pair(formals, List(body))), rest);
      var t := TailOf(cfg, fuel, let, env, k);
      t.Tail? && t.at == Place(body, Scope(Pairlis(formals, EvalList(cfg, fuel, rest, env).value, env).value), 0, k)
  {
    hide EvalList, Pairlis, FormalsFit, TailOfBound;
    var fn := Pair(Sym(Lambda), Pair(formals, List(body)));
    var args := EvalList(cfg, fuel, rest, env);
    BodyTail(cfg, fuel, formals, body, args.value, env, k);
    LambdaValue(cfg, fuel, formals, List(body), env);
    var t := TailOfBound(cfg, fuel, formals, List(body), args.value, env, k);
    hide Evaluate;
    assert TailOfDirect(cfg, fuel, fn, args.value, env, k) == t;
    assert TailOfApply(cfg, fuel, fn, args.value, env, k) == t;
    assert TailOfCall(cfg, fuel, fn, rest, env, k) == Later(0, Later(args.height, t));
  }

  lemma LambdaValue(cfg: Config, fuel: nat, formals: Value, body: Value, env: Value)
    ensures Evaluate(cfg, fuel, Pair(Sym(Lambda), Pair(formals, body)), env) == Val(Closure(formals, body, env), 0)
  {
  }

  /** The operators that leave a frame. */
  predicate LeavesFrame(fn: Value) {
    fn == Special(Apply) || fn == Special(Label.Eval) || fn == Sym(Symbol.CallCc)
  }

  /** Which calls keep the depth, and which leave a frame. */
  lemma DepthKept(cfg: Config, fuel: nat, fn: Value, args: Value, env: Value, k: nat)
    requires TailOfDirect(cfg, fuel, fn, args, env, k).Tail? && fn != Sym(Symbol.CallWithValues)
    ensures TailOfDirect(cfg, fuel, fn, args, env, k).at.added > 0 <==> LeavesFrame(fn)
    ensures TailOfDirect(cfg, fuel, fn, args, env, k).at.added == 0 <==> fn.Closure? || fn.Pair?
  {
    hide TailOfApply;
    if fn.Closure? {
      BoundDepth(cfg, fuel, fn.formals, fn.body, args, fn.env.cdr, k);
    } else if fn.Pair? {
      BoundDepth(cfg, fuel, fn.cdr.car, fn.cdr.cdr, args, env, k);
    }
  }

  lemma BoundDepth(cfg: Config, fuel: nat, formals: Value, body: Value, args: Value, outer: Value, k: nat)
    requires TailOfBound(cfg, fuel, formals, body, args, outer, k).Tail?
    ensures TailOfBound(cfg, fuel, formals, body, args, outer, k).at.added == 0
  {
    BodyDepth(cfg, fuel, body, Scope(Pairlis(formals, args, outer).value), k);
  }

  lemma {:induction false} BodyDepth(cfg: Config, fuel: nat, es: Value, env: Value, k: nat)
    requires TailOfBody(cfg, fuel, es, env, k).Tail?
    ensures TailOfBody(cfg, fuel, es, env, k).at.added == 0
    decreases Size(es), 1
  {
    hide Evaluate;
    if IsBegin(es.car) {
      AppendSize(es.car.cdr, es.cdr);
      assert Size(es.car) == 1 + Size(es.car.cdr);
      FirstDepth(cfg, fuel, Append(es.car.cdr, es.cdr), env, k);
    } else {
      FirstDepth(cfg, fuel, es, env, k);
    }
  }

  lemma {:induction false} FirstDepth(cfg: Config, fuel: nat, es: Value, env: Value, k: nat)
    requires TailOfFirst(cfg, fuel, es, env, k).Tail?
    ensures TailOfFirst(cfg, fuel, es, env, k).at.added == 0
    decreases Size(es), 0
  {
    hide Evaluate;
    if es.cdr != Nil {
      BodyDepth(cfg, fuel, es.cdr, env, k);
    }
  }

  /** A chain of tail positions: each place is that of the tail position of the
      one before, and the evaluations in between need at most `h` frames. */
  ghost predicate TailChain(cfg: Config, fuel: nat, chain: seq<Place>, h: nat) {
    forall i :: 0 < i < |chain| ==> TailLink(cfg, fuel, chain[i - 1], chain[i], h)
  }

  ghost predicate TailLink(cfg: Config, fuel: nat, a: Place, b: Place, h: nat) {
    var t := TailOf(cfg, fuel, a.e, a.env, a.captured);
    t.Tail? && t.at == b && t.height <= h
  }

  /** The frames left on the way. */
  function Added(chain: seq<Place>): nat {
    if chain == [] then 0 else chain[0].added + Added(chain[1..])
  }

  /** A loop through tail calls, however long, comes to its last iteration at
      the stack depth at which it started and the frames that it has left, in a
      stack with room for only `h` frames more. */
  lemma {:induction false} TailLoop(cfg: Config, fuel: nat, chain: seq<Place>, h: nat, st: State)
    requires chain != [] && TailChain(cfg, fuel, chain, h)
    requires st.Running? && st.pc == At(Label.Eval) && st.stack != []
    requires st.r1 == chain[0].e && st.r0 == chain[0].env && |st.conts| == chain[0].captured
    requires |st.stack| + Added(chain[1..]) + h <= cfg.capacity
    ensures ComesAfter(cfg, |chain| - 1, st, st.stack, chain[|chain| - 1].(added := Added(chain[1..])))
    decreases |chain|
  {
    hide Step, Evaluate, TailOf;
    var s, last := st.stack, chain[|chain| - 1];
    SameSelf(s);
    assert s[..|s|] == s;
    if |chain| == 1 {
      ArriveNow(cfg, st, s, last.(added := 0));
    } else {
      assert TailLink(cfg, fuel, chain[0], chain[1], h);
      TailSim(cfg, fuel, chain[0].e, chain[0].env, st);
      var n: nat, next :| n >= 1 && Reaches(cfg, n, st, |s|, next) && Evaluates(next, s, chain[1]);
      ChainRest(cfg, fuel, chain, h);
      TailLoop(cfg, fuel, chain[1..], h, next);
      LoopOn(cfg, n, st, s, next, |chain| - 2, last.(added := Added(chain[1..][1..])), chain[1]);
    }
  }

  /** The first turn, and then the others. */
  lemma LoopOn(cfg: Config, n: nat, st: State, s: seq<Frame>, next: State, k: nat, at: Place, first: Place)
    requires n >= 1 && Reaches(cfg, n, st, |s|, next) && Evaluates(next, s, first)
    requires ComesAfter(cfg, k, next, next.stack, at)
    ensures ComesAfter(cfg, k + 1, st, s, at.(added := first.added + at.added))
  {
    hide ComesAfter;
    ArriveAbove(cfg, k, next, s, next.stack, at);
    SameSelf(s);
    var end := at.(added := first.added + at.added);
    ArriveAfter(cfg, n, st, |s|, next, k, s, s, end);
    Sooner(cfg, n + k, k + 1, st, s, end);
  }

  lemma Sooner(cfg: Config, n: nat, k: nat, st: State, s: seq<Frame>, at: Place)
    requires ComesAfter(cfg, n, st, s, at) && k <= n
    ensures ComesAfter(cfg, k, st, s, at)
  {
  }

  lemma ChainRest(cfg: Config, fuel: nat, chain: seq<Place>, h: nat)
    requires chain != [] && TailChain(cfg, fuel, chain, h)
    ensures TailChain(cfg, fuel, chain[1..], h)
  {
    var rest := chain[1..];
    forall i | 0 < i < |rest| ensures TailLink(cfg, fuel, rest[i - 1], rest[i], h) {
      assert rest[i - 1] == chain[i] && rest[i] == chain[i + 1];
      assert TailLink(cfg, fuel, chain[i + 1 - 1], chain[i + 1], h);
    }
  }

  const LOOP := Named("loop")

  /** The call `(loop)`. */
  const CALL := List(Sym(LOOP))

  /** The same call by way of `apply`. */
  const APPLICATION := Pair(Special(Apply), Pair(Sym(LOOP), List(Nil)))

  /** Inside a procedure without formals that was made without bindings. */
  const EMPTY_SCOPE := Scope(Nil)

  /** `loop` is a procedure with one expression as its body. */
  predicate Loops(cfg: Config, e: Value) {
    LOOP in cfg.globals && cfg.globals[LOOP] == Closure(Nil, List(e), EMPTY_SCOPE)
  }

  /** Applying the closure leads to its body, in an empty scope again. */
  lemma ThunkTail(cfg: Config, fuel: nat, e: Value, k: nat)
    requires !IsBegin(e)
    ensures TailOfApply(cfg, fuel, Closure(Nil, List(e), EMPTY_SCOPE), Nil, EMPTY_SCOPE, k)
         == Tail(Place(e, EMPTY_SCOPE, 0, k), 0)
  {
    BodyTail(cfg, fuel, Nil, e, Nil, Nil, k);
  }

  lemma LoopValue(cfg: Config, e: Value)
    requires Loops(cfg, e)
    ensures Evaluate(cfg, 1, Sym(LOOP), EMPTY_SCOPE) == Val(Closure(Nil, List(e), EMPTY_SCOPE), 0)
    ensures EvalList(cfg, 1, Nil, EMPTY_SCOPE) == Val(Nil, 0)
    ensures EvalList(cfg, 1, Pair(Sym(LOOP), List(Nil)), EMPTY_SCOPE)
         == Val(Pair(Closure(Nil, List(e), EMPTY_SCOPE), List(Nil)), 2)
  {
    hide EvalIf, EvalBody, ApplyTo, ApplyValue;
    assert Assq(LOOP, EMPTY_SCOPE) == NotFound;
    assert Evaluate(cfg, 1, Sym(LOOP), EMPTY_SCOPE) == Val(Closure(Nil, List(e), EMPTY_SCOPE), 0);
    assert EvalList(cfg, 1, List(Nil), EMPTY_SCOPE) == Val(List(Nil), 1) by {
      assert Evaluate(cfg, 1, Nil, EMPTY_SCOPE) == Val(Nil, 0);
      assert EvalList(cfg, 1, Nil, EMPTY_SCOPE) == Val(Nil, 0);
    }
  }

  lemma CallLink(cfg: Config, k: nat)
    requires Loops(cfg, CALL)
    ensures TailLink(cfg, 1, Place(CALL, EMPTY_SCOPE, 0, k), Place(CALL, EMPTY_SCOPE, 0, k), 1)
  {
    hide Evaluate, EvalList, TailOfDirect, Loops, TailOfBody, TailOfIf;
    LoopValue(cfg, CALL);
    ThunkTail(cfg, 0, CALL, k);
    assert Applicable(Closure(Nil, List(CALL), EMPTY_SCOPE));
    assert TailOfApply(cfg, 1, Sym(LOOP), Nil, EMPTY_SCOPE, k) == Tail(Place(CALL, EMPTY_SCOPE, 0, k), 1);
  }

  lemma ApplicationLink(cfg: Config, k: nat)
    requires Loops(cfg, APPLICATION)
    ensures TailLink(cfg, 1, Place(APPLICATION, EMPTY_SCOPE, 1, k), Place(APPLICATION, EMPTY_SCOPE, 1, k), 3)
    ensures TailLink(cfg, 1, Place(APPLICATION, EMPTY_SCOPE, 0, k), Place(APPLICATION, EMPTY_SCOPE, 1, k), 3)
  {
    var fn := Closure(Nil, List(APPLICATION), EMPTY_SCOPE);
    hide EvalList, Loops, TailOfApply, TailOfBody, TailOfIf, TailOfBound;
    LoopValue(cfg, APPLICATION);
    ThunkTail(cfg, 0, APPLICATION, k);
    assert Evaluate(cfg, 1, Special(Apply), EMPTY_SCOPE) == Val(Special(Apply), 0);
    assert TailOfDirect(cfg, 1, Special(Apply), Pair(fn, List(Nil)), EMPTY_SCOPE, k)
        == Tail(Place(APPLICATION, EMPTY_SCOPE, 1, k), 1);
    assert TailOfApply(cfg, 1, Special(Apply), Pair(fn, List(Nil)), EMPTY_SCOPE, k)
        == Tail(Place(APPLICATION, EMPTY_SCOPE, 1, k), 1) by {
      DirectTail(cfg, Special(Apply), Pair(fn, List(Nil)), k);
    }
  }

  lemma DirectTail(cfg: Config, fn: Value, args: Value, k: nat)
    requires Direct(fn)
    ensures TailOfApply(cfg, 1, fn, args, EMPTY_SCOPE, k) == TailOfDirect(cfg, 1, fn, args, EMPTY_SCOPE, k)
  {
    hide TailOfDirect;
  }

  /** The same place over and over again. */
  lemma Turns(cfg: Config, at: Place, h: nat, turns: nat, st: State)
    requires at.added <= 1 && TailLink(cfg, 1, at, at, h)
    requires st.Running? && st.pc == At(Label.Eval) && st.stack != [] && st.r1 == at.e && st.r0 == at.env
    requires |st.conts| == at.captured && |st.stack| + (if at.added == 1 then turns else 0) + h <= cfg.capacity
    ensures ComesAfter(cfg, turns, st, st.stack, at.(added := if at.added == 1 then turns else 0))
  {
    var chain := seq(turns + 1, _ => at);
    SameAdded(at, turns);
    assert chain[1..] == seq(turns, _ => at);
    TailLoop(cfg, 1, chain, h, st);
  }

  lemma {:induction false} SameAdded(at: Place, n: nat)
    requires at.added <= 1
    ensures Added(seq(n, _ => at)) == if at.added == 1 then n else 0
  {
    if n > 0 {
      assert seq(n, _ => at)[1..] == seq(n - 1, _ => at);
      SameAdded(at, n - 1);
    }
  }

  /** A procedure that calls itself, turned so many times, is at the depth at
      which it began. */
  lemma CallsKeepDepth(cfg: Config, turns: nat, st: State)
    requires Loops(cfg, CALL)
    requires st.Running? && st.pc == At(Label.Eval) && st.stack != [] && st.r1 == CALL && st.r0 == EMPTY_SCOPE
    requires |st.stack| + 1 <= cfg.capacity
    ensures ComesAfter(cfg, turns, st, st.stack, Place(CALL, EMPTY_SCOPE, 0, |st.conts|))
  {
    hide Loops;
    CallLink(cfg, |st.conts|);
    Turns(cfg, Place(CALL, EMPTY_SCOPE, 0, |st.conts|), 1, turns, st);
  }

  /** A procedure that applies itself has left a frame for every turn. */
  lemma ApplicationsGrow(cfg: Config, turns: nat, st: State)
    requires Loops(cfg, APPLICATION)
    requires st.Running? && st.pc == At(Label.Eval) && st.stack != [] && st.r1 == APPLICATION && st.r0 == EMPTY_SCOPE
    requires |st.stack| + turns + 3 <= cfg.capacity
    ensures ComesAfter(cfg, turns, st, st.stack, Place(APPLICATION, EMPTY_SCOPE, turns, |st.conts|))
  {
    hide Loops;
    ApplicationLink(cfg, |st.conts|);
    Turns(cfg, Place(APPLICATION, EMPTY_SCOPE, 1, |st.conts|), 3, turns, st);
  }
}
