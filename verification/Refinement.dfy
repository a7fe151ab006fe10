/** The register machine refines the recursive evaluator. */
module Refinement {
  import opened Values
  import opened Machine
  import opened Evaluator

  /** In `n` steps, all of them with at least `d` frames on the stack, `st`
      becomes `st'`. */
  ghost predicate Reaches(cfg: Config, n: nat, st: State, d: nat, st': State) {
    if n == 0 then st == st'
    else st.Running? && |st.stack| >= d && Reaches(cfg, n - 1, Step(cfg, st), d, st')
  }

  ghost predicate Goes(cfg: Config, st: State, d: nat, st': State) {
    exists n :: Reaches(cfg, n, st, d, st')
  }

  ghost predicate Fails(cfg: Config, st: State, d: nat) {
    exists e :: Goes(cfg, st, d, Failed(e))
  }

  /** The machine takes `k` steps or more without dropping below `d` frames. */
  ghost predicate Lasts(cfg: Config, st: State, d: nat, k: nat) {
    exists n, st' :: n >= k && Reaches(cfg, n, st, d, st')
  }

  lemma {:induction false} ReachesTrans(cfg: Config, m: nat, n: nat, a: State, d: nat, b: State, k: nat, c: State)
    requires Reaches(cfg, m, a, d, b) && Reaches(cfg, n, b, k, c) && k <= d
    ensures Reaches(cfg, m + n, a, k, c)
  {
    hide Step;
    if m > 0 {
      ReachesTrans(cfg, m - 1, n, Step(cfg, a), d, b, k, c);
    }
  }

  lemma GoesTrans(cfg: Config, a: State, d: nat, b: State, k: nat, c: State)
    requires Goes(cfg, a, d, b) && Goes(cfg, b, k, c) && k <= d
    ensures Goes(cfg, a, k, c)
  {
    var m :| Reaches(cfg, m, a, d, b);
    var n :| Reaches(cfg, n, b, k, c);
    ReachesTrans(cfg, m, n, a, d, b, k, c);
  }

  lemma GoesStep(cfg: Config, a: State, d: nat)
    requires a.Running? && |a.stack| >= d
    ensures Goes(cfg, a, d, Step(cfg, a))
  {
    assert Reaches(cfg, 0, Step(cfg, a), d, Step(cfg, a));
    assert Reaches(cfg, 1, a, d, Step(cfg, a));
  }

  lemma FailsAfter(cfg: Config, a: State, d: nat, b: State, k: nat)
    requires Goes(cfg, a, d, b) && Fails(cfg, b, k) && k <= d
    ensures Fails(cfg, a, k)
  {
    var e :| Goes(cfg, b, k, Failed(e));
    GoesTrans(cfg, a, d, b, k, Failed(e));
  }

  lemma LastsAfter(cfg: Config, a: State, d: nat, b: State, k: nat, n: nat)
    requires Goes(cfg, a, d, b) && Lasts(cfg, b, k, n) && k <= d
    ensures Lasts(cfg, a, k, n)
  {
    var m :| Reaches(cfg, m, a, d, b);
    var i, c :| i >= n && Reaches(cfg, i, b, k, c);
    ReachesTrans(cfg, m, i, a, d, b, k, c);
  }

  lemma LastsStep(cfg: Config, a: State, d: nat, n: nat)
    requires a.Running? && |a.stack| >= d && Lasts(cfg, Step(cfg, a), d, n)
    ensures Lasts(cfg, a, d, n + 1)
  {
    var i, c :| i >= n && Reaches(cfg, i, Step(cfg, a), d, c);
    assert Reaches(cfg, i + 1, a, d, c);
  }

  lemma LastsZero(cfg: Config, a: State, d: nat)
    ensures Lasts(cfg, a, d, 0)
  {
    assert Reaches(cfg, 0, a, d, a);
  }

  /** What the machine does from `st`, when the evaluator gives `r`:
      with a value, it returns that value to the frames `s`, unless the stack is
      too small for the height; with an error it stops with an error; and when
      the bound on the depth of closures is reached it takes at least as many
      steps, still above `s`, or stops with an error. */
  ghost predicate Outcome(cfg: Config, st: State, s: seq<Frame>, conts: seq<seq<Frame>>, fuel: nat, r: Result) {
    match r
    case Val(v, h) =>
      || Goes(cfg, st, |s|, Resume(v, s, conts))
      || (|s| + h > cfg.capacity && Fails(cfg, st, |s|))
    case Err => Fails(cfg, st, |s|)
    case Fuel => Lasts(cfg, st, |s|, fuel) || Fails(cfg, st, |s|)
    case Beyond => true
  }

  /** The frames agree but for the procedure slot of the one on top. */
  predicate SameFrames(s: seq<Frame>, t: seq<Frame>) {
    && s != [] && |t| == |s| && Below(t) == Below(s)
    && Top(t) == Top(s).(procedure := Top(t).procedure)
  }

  lemma SameResume(v: Value, s: seq<Frame>, t: seq<Frame>, conts: seq<seq<Frame>>)
    requires SameFrames(s, t)
    ensures Resume(v, s, conts) == Resume(v, t, conts)
  {
  }

  lemma Carry(cfg: Config, st: State, d: nat, mid: State, s: seq<Frame>, t: seq<Frame>,
              conts: seq<seq<Frame>>, fuel: nat, r: Result)
    requires Goes(cfg, st, d, mid) && d >= |s| && SameFrames(s, t)
    requires Outcome(cfg, mid, t, conts, fuel, r)
    ensures Outcome(cfg, st, s, conts, fuel, r)
  {
    match r
    case Val(v, h) =>
      SameResume(v, s, t, conts);
      if Goes(cfg, mid, |s|, Resume(v, s, conts)) {
        GoesTrans(cfg, st, d, mid, |s|, Resume(v, s, conts));
      } else {
        FailsAfter(cfg, st, d, mid, |s|);
      }
    case Err => FailsAfter(cfg, st, d, mid, |s|);
    case Fuel =>
      if Fails(cfg, mid, |s|) {
        FailsAfter(cfg, st, d, mid, |s|);
      } else {
        LastsAfter(cfg, st, d, mid, |s|, fuel);
      }
    case Beyond =>
  }

  /** One step that is not a call. */
  lemma Jump(cfg: Config, st: State, s: seq<Frame>, t: seq<Frame>, conts: seq<seq<Frame>>, fuel: nat, r: Result)
    requires st.Running? && |st.stack| >= |s| && SameFrames(s, t)
    requires Outcome(cfg, Step(cfg, st), t, conts, fuel, r)
    ensures Outcome(cfg, st, s, conts, fuel, r)
    ensures r.Fuel? ==> Outcome(cfg, st, s, conts, fuel + 1, r)
  {
    GoesStep(cfg, st, |s|);
    Carry(cfg, st, |s|, Step(cfg, st), s, t, conts, fuel, r);
    if r.Fuel? {
      if Lasts(cfg, Step(cfg, st), |s|, fuel) {
        LastsStep(cfg, st, |s|, fuel);
      } else {
        FailsAfter(cfg, st, |s|, Step(cfg, st), |s|);
      }
    }
  }

  /** The same outcome, read with a larger height. */
  lemma Higher(cfg: Config, st: State, s: seq<Frame>, conts: seq<seq<Frame>>, fuel: nat, h: nat, r: Result)
    requires Outcome(cfg, st, s, conts, fuel, r)
    ensures Outcome(cfg, st, s, conts, fuel, After(h, r))
  {
  }

  lemma WeakFails(cfg: Config, st: State, d: nat, k: nat)
    requires Fails(cfg, st, d) && k <= d
    ensures Fails(cfg, st, k)
  {
    var e :| Goes(cfg, st, d, Failed(e));
    assert Reaches(cfg, 0, Failed(e), k, Failed(e));
    assert Goes(cfg, Failed(e), k, Failed(e));
    GoesTrans(cfg, st, d, Failed(e), k, Failed(e));
  }

  lemma WeakLasts(cfg: Config, st: State, d: nat, k: nat, n: nat)
    requires Lasts(cfg, st, d, n) && k <= d
    ensures Lasts(cfg, st, k, n)
  {
    var i, c :| i >= n && Reaches(cfg, i, st, d, c);
    assert Reaches(cfg, 0, c, k, c);
    ReachesTrans(cfg, i, 0, st, d, c, k, c);
  }

  /** A computation that runs above the frames `s` and does not come back with
      a value has the same outcome with respect to `s`. */
  lemma NoReturn(cfg: Config, st: State, u: seq<Frame>, s: seq<Frame>, conts: seq<seq<Frame>>, fuel: nat, r: Result)
    requires Outcome(cfg, st, u, conts, fuel, r) && |u| >= |s| && !r.Val?
    ensures Outcome(cfg, st, s, conts, fuel, r)
  {
    match r
    case Err => WeakFails(cfg, st, |u|, |s|);
    case Fuel =>
      if Fails(cfg, st, |u|) {
        WeakFails(cfg, st, |u|, |s|);
      } else {
        WeakLasts(cfg, st, |u|, |s|, fuel);
      }
    case Beyond =>
  }

  /** A saved frame, the computation above it, and what happens on return. */
  lemma Call(cfg: Config, st: State, s: seq<Frame>, t: seq<Frame>, conts: seq<seq<Frame>>, fuel: nat,
             frame: Frame, r1: Result, r2: Result)
    requires st.Running? && |st.stack| == |s| && SameFrames(s, t)
    requires if |s| >= cfg.capacity then Step(cfg, st) == Failed(StackFull)
             else Outcome(cfg, Step(cfg, st), t + [frame], conts, fuel, r1)
    requires r1.Val? && |s| < cfg.capacity ==> Outcome(cfg, Resume(r1.value, t + [frame], conts), t, conts, fuel, r2)
    ensures Outcome(cfg, st, s, conts, fuel, Then(r1, r2))
    ensures Then(r1, r2).Fuel? ==> Outcome(cfg, st, s, conts, fuel + 1, Fuel)
  {
    GoesStep(cfg, st, |s|);
    var next := Step(cfg, st);
    if |s| >= cfg.capacity {
      Overflow(cfg, st, s, conts, fuel, r1, r2);
    } else if r1.Val? {
      CallReturns(cfg, st, s, t, conts, fuel, frame, r1, r2);
    } else {
      NoReturn(cfg, next, t + [frame], t, conts, fuel, r1);
      Jump(cfg, st, s, t, conts, fuel, r1);
    }
  }

  /** Two results in a row, the first under a saved frame. */
  function Then(r1: Result, r2: Result): Result {
    if r1.Val? then After(r1.height, r2) else r1
  }

  lemma Overflow(cfg: Config, st: State, s: seq<Frame>, conts: seq<seq<Frame>>, fuel: nat, r1: Result, r2: Result)
    requires Goes(cfg, st, |s|, Failed(StackFull)) && |s| >= cfg.capacity
    ensures Outcome(cfg, st, s, conts, fuel, Then(r1, r2)) && Fails(cfg, st, |s|)
  {
    assert Fails(cfg, st, |s|);
  }

  lemma CallReturns(cfg: Config, st: State, s: seq<Frame>, t: seq<Frame>, conts: seq<seq<Frame>>, fuel: nat,
                    frame: Frame, r1: Result, r2: Result)
    requires st.Running? && |st.stack| == |s| < cfg.capacity && SameFrames(s, t) && r1.Val?
    requires Outcome(cfg, Step(cfg, st), t + [frame], conts, fuel, r1)
    requires Outcome(cfg, Resume(r1.value, t + [frame], conts), t, conts, fuel, r2)
    ensures Outcome(cfg, st, s, conts, fuel, After(r1.height, r2))
    ensures r2.Fuel? ==> Outcome(cfg, st, s, conts, fuel + 1, Fuel)
  {
    GoesStep(cfg, st, |s|);
    var next, back := Step(cfg, st), Resume(r1.value, t + [frame], conts);
    assert |t + [frame]| == |s| + 1;
    if Goes(cfg, next, |s| + 1, back) {
      Carry(cfg, next, |s| + 1, back, t, t, conts, fuel, r2);
      Jump(cfg, st, s, t, conts, fuel, r2);
      Higher(cfg, st, s, conts, fuel, r1.height, r2);
    } else {
      WeakFails(cfg, next, |s| + 1, |s|);
      FailsAfter(cfg, st, |s|, next, |s|);
    }
  }

  /** The state after returning `v` to a frame that was saved with `PushCc`. */
  function Back(l: Label, a: Value, v: Value, p2: Value, stack: seq<Frame>, conts: seq<seq<Frame>>): State {
    Running(At(l), a, v, p2, Special(l), stack, conts)
  }

  lemma ResumeBack(t: seq<Frame>, a: Value, r1: Value, p2: Value, l: Label, v: Value, conts: seq<seq<Frame>>)
    ensures Resume(v, t + [Frame(a, r1, p2, Special(l), False)], conts) == Back(l, a, v, p2, t, conts)
  {
    assert Below(t + [Frame(a, r1, p2, Special(l), False)]) == t;
  }

  lemma SameSelf(s: seq<Frame>)
    requires s != []
    ensures SameFrames(s, s)
  {
  }

  /** One step to the block that returns. */
  lemma Returns(cfg: Config, st: State, t: seq<Frame>, fuel: nat, v: Value)
    requires st.Running? && st.stack != [] && SameFrames(st.stack, t)
    requires Step(cfg, st).Running? && Step(cfg, st).pc == At(Return) && Step(cfg, st).r1 == v
    requires Step(cfg, st).stack == t && Step(cfg, st).conts == st.conts
    ensures Outcome(cfg, st, st.stack, st.conts, fuel, Val(v, 0))
  {
    var next := Step(cfg, st);
    GoesStep(cfg, next, |t|);
    SameSelf(t);
    Jump(cfg, st, st.stack, t, st.conts, fuel, Val(v, 0));
  }

  lemma StepFails(cfg: Config, st: State, e: Error, fuel: nat)
    requires st.Running? && Step(cfg, st) == Failed(e)
    ensures Outcome(cfg, st, st.stack, st.conts, fuel, Err)
  {
    GoesStep(cfg, st, |st.stack|);
  }

  /** A block that computes its answer at once. */
  lemma Answers(cfg: Config, st: State, t: seq<Frame>, mid: State, fuel: nat, a: Answer<Value>)
    requires st.Running? && st.stack != [] && SameFrames(st.stack, t)
    requires mid.Running? && mid.stack == t && mid.conts == st.conts && Step(cfg, st) == Answered(mid, a)
    ensures Outcome(cfg, st, st.stack, st.conts, fuel, FromAnswer(a))
  {
    match a
    case Good(v) => Returns(cfg, st, t, fuel, v);
    case Bad(e) => StepFails(cfg, st, e, fuel);
    case Outside =>
  }

  /** A measure for programs that does not depend on how bodies are spliced. */
  function Size(v: Value): nat {
    match v
    case Pair(a, d) => 1 + Size(a) + Size(d)
    case _ => 0
  }

  lemma SizeTwo(v: Value)
    requires v.Pair? && v.cdr.Pair?
    ensures Size(v) == 2 + Size(v.car) + Size(v.cdr.car) + Size(v.cdr.cdr)
    ensures v.cdr.cdr.Pair? ==> Size(v.cdr.cdr.car) < Size(v)
  {
    assert Size(v.cdr) == 1 + Size(v.cdr.car) + Size(v.cdr.cdr);
    if v.cdr.cdr.Pair? {
      assert Size(v.cdr.cdr) == 1 + Size(v.cdr.cdr.car) + Size(v.cdr.cdr.cdr);
    }
  }

  lemma {:induction false} AppendSize(x: Value, y: Value)
    requires IsList(x)
    ensures Size(Append(x, y)) == Size(x) + Size(y)
  {
    if x.Pair? {
      AppendSize(x.cdr, y);
    }
  }

  lemma EvalSim(cfg: Config, fuel: nat, e: Value, env: Value, st: State)
    requires st.Running? && st.pc == At(Label.Eval) && st.r0 == env && st.r1 == e && st.stack != []
    ensures Outcome(cfg, st, st.stack, st.conts, fuel, Evaluate(cfg, fuel, e, env))
    decreases fuel, Size(e), 3
  {
    hide Outcome;
    AnyBeyond(cfg, st, st.stack, st.conts, fuel);
    var s := st.stack;
    SameSelf(s);
    if e.Pair? && !SpecialForm(e.car) {
      CallSim(cfg, fuel, e.car, e.cdr, env, st);
    } else {
      match e
      case Pair(c, rest) =>
        if c == Sym(Quote) && rest.Pair? {
          Returns(cfg, st, s, fuel, rest.car);
        } else if c == Sym(Symbol.Begin) {
          BeginFormSim(cfg, fuel, rest, env, st);
        } else if c == Sym(Lambda) && rest.Pair? {
          Returns(cfg, st, s, fuel, Closure(rest.car, rest.cdr, env));
        } else if c == Sym(Symbol.If) {
          IfSim(cfg, fuel, rest, env, Step(cfg, st));
          Jump(cfg, st, s, s, st.conts, fuel, EvalIf(cfg, fuel, rest, env));
        }
      case Sym(x) =>
        if x == CurrentEnvironment || x == Symbol.Begin || x == Symbol.CallCc {
          Returns(cfg, st, s, fuel, e);
        } else {
          Answers(cfg, st, s, st, fuel, Lookup(cfg, x, env));
        }
      case Binding(_) =>
      case _ => Returns(cfg, st, s, fuel, e);
    }
  }

  /** A call: the operator is evaluated, then the arguments, and then the
      operator as it stands is applied. */
  lemma CallSim(cfg: Config, fuel: nat, c: Value, rest: Value, env: Value, st: State)
    requires st.Running? && st.pc == At(Label.Eval) && st.r0 == env && st.stack != []
    requires st.r1 == Pair(c, rest) && !SpecialForm(c)
    ensures Outcome(cfg, st, st.stack, st.conts, fuel, Evaluate(cfg, fuel, st.r1, env))
    decreases fuel, Size(st.r1), 2
  {
    hide Outcome, Evaluate, EvalList, ApplyTo;
    var e, s := st.r1, st.stack;
    SameSelf(s);
    var frame := Frame(env, e, e, Special(EvalCheckFunc), False);
    var fn := Evaluate(cfg, fuel, c, env);
    var next := Step(cfg, st);
    if |s| < cfg.capacity {
      EvalSim(cfg, fuel, c, env, next);
    }
    ResumeBack(s, env, e, e, EvalCheckFunc, if fn.Val? then fn.value else Nil, st.conts);
    var r := CallRest(cfg, fuel, c, rest, env);
    OperatorAgain(cfg, fuel, c, rest, env);
    if fn.Val? {
      CallRestSim(cfg, fuel, c, rest, env, fn.value, s, st.conts);
    }
    Call(cfg, st, s, s, st.conts, fuel, frame, fn, r);
  }

  /** What a call does after its operator has been evaluated once. */
  function CallRest(cfg: Config, fuel: nat, c: Value, rest: Value, env: Value): Result {
    var args := EvalList(cfg, fuel, rest, env);
    if args.Val? then After(args.height, ApplyTo(cfg, fuel, c, args.value, env)) else args
  }

  /** The second evaluation of the operator makes no difference. */
  lemma OperatorAgain(cfg: Config, fuel: nat, c: Value, rest: Value, env: Value)
    requires !SpecialForm(c)
    ensures Then(Evaluate(cfg, fuel, c, env), CallRest(cfg, fuel, c, rest, env))
         == Evaluate(cfg, fuel, Pair(c, rest), env)
  {
  }

  lemma CallRestSim(cfg: Config, fuel: nat, c: Value, rest: Value, env: Value, v: Value,
                    s: seq<Frame>, conts: seq<seq<Frame>>)
    requires s != []
    ensures Outcome(cfg, Back(EvalCheckFunc, env, v, Pair(c, rest), s, conts), s, conts, fuel,
                    CallRest(cfg, fuel, c, rest, env))
    decreases fuel, Size(Pair(c, rest)), 1
  {
    hide Outcome, Evaluate, EvalList, ApplyTo;
    var e := Pair(c, rest);
    var st := Back(EvalCheckFunc, env, v, e, s, conts);
    var frame := Frame(env, v, e, Special(Eval2), False);
    var args := EvalList(cfg, fuel, rest, env);
    SameSelf(s);
    if |s| < cfg.capacity {
      EvalListSim(cfg, fuel, rest, env, Step(cfg, st));
    }
    if args.Val? {
      ResumeBack(s, env, v, e, Eval2, args.value, conts);
      ApplyCallSim(cfg, fuel, c, rest, env, args.value, s, conts);
      Call(cfg, st, s, s, conts, fuel, frame, args, ApplyTo(cfg, fuel, c, args.value, env));
    } else {
      Call(cfg, st, s, s, conts, fuel, frame, args, Beyond);
    }
  }

  /** Operator and arguments come together. */
  lemma ApplyCallSim(cfg: Config, fuel: nat, c: Value, rest: Value, env: Value, args: Value,
                     s: seq<Frame>, conts: seq<seq<Frame>>)
    requires s != []
    ensures Outcome(cfg, Back(Eval2, env, args, Pair(c, rest), s, conts), s, conts, fuel,
                    ApplyTo(cfg, fuel, c, args, env))
    decreases fuel, Size(Pair(c, rest)), 0
  {
    hide Outcome, ApplyTo;
    var back := Back(Eval2, env, args, Pair(c, rest), s, conts);
    SameSelf(s);
    assert Size(c) < Size(Pair(c, rest));
    ApplySim(cfg, fuel, c, args, env, Step(cfg, back));
    Jump(cfg, back, s, s, conts, fuel, ApplyTo(cfg, fuel, c, args, env));
  }

  lemma EvalListSim(cfg: Config, fuel: nat, e: Value, env: Value, st: State)
    requires st.Running? && st.pc == At(Evlis) && st.r0 == env && st.r1 == e && st.stack != []
    ensures Outcome(cfg, st, st.stack, st.conts, fuel, EvalList(cfg, fuel, e, env))
    decreases fuel, Size(e), 4
  {
    hide Outcome;
    AnyBeyond(cfg, st, st.stack, st.conts, fuel);
    var s := st.stack;
    SameSelf(s);
    if e == Nil {
      Returns(cfg, st, s, fuel, Nil);
    } else if !e.Pair? {
      EvalSim(cfg, fuel, e, env, Step(cfg, st));
      Jump(cfg, st, s, s, st.conts, fuel, Evaluate(cfg, fuel, e, env));
    } else {
      var frame := Frame(env, e, e, Special(Evlis2), False);
      var v := Evaluate(cfg, fuel, e.car, env);
      if |s| < cfg.capacity {
        EvalSim(cfg, fuel, e.car, env, Step(cfg, st));
      }
      if v.Val? {
        ResumeBack(s, env, e, e, Evlis2, v.value, st.conts);
        EvalRestSim(cfg, fuel, e, env, v.value, s, st.conts);
        var vs := EvalList(cfg, fuel, e.cdr, env);
        Call(cfg, st, s, s, st.conts, fuel, frame, v,
             if vs.Val? then After(vs.height, Val(Pair(v.value, vs.value), 0)) else vs);
      } else {
        Call(cfg, st, s, s, st.conts, fuel, frame, v, Beyond);
      }
    }
  }

  lemma EvalRestSim(cfg: Config, fuel: nat, e: Value, env: Value, v: Value,
                    s: seq<Frame>, conts: seq<seq<Frame>>)
    requires s != [] && e.Pair?
    ensures
      var vs := EvalList(cfg, fuel, e.cdr, env);
      Outcome(cfg, Back(Evlis2, env, v, e, s, conts), s, conts, fuel,
              if vs.Val? then After(vs.height, Val(Pair(v, vs.value), 0)) else vs)
    decreases fuel, Size(e), 0
  {
    hide Outcome;
    var st := Back(Evlis2, env, v, e, s, conts);
    var frame := Frame(env, v, v, Special(Evlis3), False);
    var vs := EvalList(cfg, fuel, e.cdr, env);
    SameSelf(s);
    if |s| < cfg.capacity {
      EvalListSim(cfg, fuel, e.cdr, env, Step(cfg, st));
    }
    if vs.Val? {
      ResumeBack(s, env, v, v, Evlis3, vs.value, conts);
      Returns(cfg, Back(Evlis3, env, vs.value, v, s, conts), s, fuel, Pair(v, vs.value));
      Call(cfg, st, s, s, conts, fuel, frame, vs, Val(Pair(v, vs.value), 0));
    } else {
      Call(cfg, st, s, s, conts, fuel, frame, vs, Beyond);
    }
  }

  lemma IfSim(cfg: Config, fuel: nat, parts: Value, env: Value, st: State)
    requires st.Running? && st.pc == At(Label.If) && st.r0 == env && st.r1 == parts && st.stack != []
    ensures Outcome(cfg, st, st.stack, st.conts, fuel, EvalIf(cfg, fuel, parts, env))
    decreases fuel, Size(parts), 3
  {
    hide Outcome;
    AnyBeyond(cfg, st, st.stack, st.conts, fuel);
    var s := st.stack;
    SameSelf(s);
    if parts.Pair? && parts.cdr.Pair? {
      var frame := Frame(env, parts, parts, Special(IfExpr), False);
      var test := Evaluate(cfg, fuel, parts.car, env);
      if |s| < cfg.capacity {
        EvalSim(cfg, fuel, parts.car, env, Step(cfg, st));
      }
      if test.Val? {
        ResumeBack(s, env, parts, parts, IfExpr, test.value, st.conts);
        BranchSim(cfg, fuel, parts, env, test.value, s, st.conts);
        Call(cfg, st, s, s, st.conts, fuel, frame, test, Branch(cfg, fuel, parts, env, test.value));
      } else {
        Call(cfg, st, s, s, st.conts, fuel, frame, test, Beyond);
      }
    }
  }

  function Branch(cfg: Config, fuel: nat, parts: Value, env: Value, v: Value): Result
    requires parts.Pair? && parts.cdr.Pair?
  {
    if v != False then Evaluate(cfg, fuel, parts.cdr.car, env)
    else if parts.cdr.cdr == Nil then Val(Unspecified, 0)
    else if parts.cdr.cdr.Pair? then Evaluate(cfg, fuel, parts.cdr.cdr.car, env)
    else Beyond
  }

  lemma BranchSim(cfg: Config, fuel: nat, parts: Value, env: Value, v: Value,
                  s: seq<Frame>, conts: seq<seq<Frame>>)
    requires s != [] && parts.Pair? && parts.cdr.Pair?
    ensures Outcome(cfg, Back(IfExpr, env, v, parts, s, conts), s, conts, fuel, Branch(cfg, fuel, parts, env, v))
    decreases fuel, Size(parts), 0
  {
    hide Outcome;
    AnyBeyond(cfg, Back(IfExpr, env, v, parts, s, conts), s, conts, fuel);
    var st := Back(IfExpr, env, v, parts, s, conts);
    SameSelf(s);
    SizeTwo(parts);
    if v != False {
      EvalSim(cfg, fuel, parts.cdr.car, env, Step(cfg, st));
      Jump(cfg, st, s, s, conts, fuel, Evaluate(cfg, fuel, parts.cdr.car, env));
    } else if parts.cdr.cdr == Nil {
      Returns(cfg, st, s, fuel, Unspecified);
    } else if parts.cdr.cdr.Pair? {
      EvalSim(cfg, fuel, parts.cdr.cdr.car, env, Step(cfg, st));
      Jump(cfg, st, s, s, conts, fuel, Evaluate(cfg, fuel, parts.cdr.cdr.car, env));
    }
  }

  lemma BeginFormSim(cfg: Config, fuel: nat, rest: Value, env: Value, st: State)
    requires st.Running? && st.pc == At(Label.Eval) && st.r0 == env && st.stack != []
    requires st.r1 == Pair(Sym(Symbol.Begin), rest)
    ensures Outcome(cfg, st, st.stack, st.conts, fuel, Evaluate(cfg, fuel, st.r1, env))
    decreases fuel, Size(st.r1), 1
  {
    hide Outcome;
    var e, s, begin := st.r1, st.stack, Sym(Symbol.Begin);
    SameSelf(s);
    var loop := Step(cfg, st);
    var next := Step(cfg, loop);
    if rest == Nil {
      Returns(cfg, next, s, fuel, begin);
      Jump(cfg, loop, s, s, st.conts, fuel, Val(begin, 0));
      Jump(cfg, st, s, s, st.conts, fuel, Val(begin, 0));
    } else {
      var frame := Frame(env, e, e, Special(BeginEval), False);
      var r := EvalBody(cfg, fuel, rest, env);
      if |s| < cfg.capacity {
        SameSelf(s + [frame]);
        Returns(cfg, next, s + [frame], fuel, begin);
      }
      ResumeBack(s, env, e, e, BeginEval, begin, st.conts);
      var back := Back(BeginEval, env, begin, e, s, st.conts);
      BodySim(cfg, fuel, rest, env, Step(cfg, back));
      Jump(cfg, back, s, s, st.conts, fuel, r);
      Call(cfg, loop, s, s, st.conts, fuel, frame, Val(begin, 0), r);
      Jump(cfg, st, s, s, st.conts, fuel, After(0, r));
    }
  }

  lemma BodySim(cfg: Config, fuel: nat, es: Value, env: Value, st: State)
    requires st.Running? && st.pc == At(Label.Begin) && st.r0 == env && st.r1 == es && st.stack != []
    requires es != Nil
    ensures Outcome(cfg, st, st.stack, st.conts, fuel, EvalBody(cfg, fuel, es, env))
    decreases fuel, Size(es), 3
  {
    hide Outcome;
    AnyBeyond(cfg, st, st.stack, st.conts, fuel);
    if !EvalBody(cfg, fuel, es, env).Beyond? {
      if IsBegin(es.car) {
        var b := es.car.cdr;
        var spliced := Append(b, es.cdr);
        AppendSize(b, es.cdr);
        assert Size(es.car) == 1 + Size(b);
        SpliceBetter(cfg, fuel, es, env);
        if spliced.Pair? {
          FirstSim(cfg, fuel, spliced, env, st, st.(r1 := spliced));
        }
        BetterOutcome(cfg, st, st.stack, st.conts, fuel,
                      EvalFirst(cfg, fuel, spliced, env), EvalFirst(cfg, fuel, es, env));
      } else {
        FirstSim(cfg, fuel, es, env, st, st);
      }
    }
  }

  /** The first expression of a body, and then the rest. */
  lemma FirstSim(cfg: Config, fuel: nat, es: Value, env: Value, st: State, mid: State)
    requires st.Running? && mid.Running? && Step(cfg, st) == BeginFirst(cfg, mid)
    requires mid.r0 == env && mid.r1 == es && mid.stack == st.stack != [] && mid.conts == st.conts
    requires es.Pair?
    ensures Outcome(cfg, st, st.stack, st.conts, fuel, EvalFirst(cfg, fuel, es, env))
    decreases fuel, Size(es), 2
  {
    hide Outcome;
    var s := st.stack;
    SameSelf(s);
    var v := Evaluate(cfg, fuel, es.car, env);
    if es.cdr == Nil {
      EvalSim(cfg, fuel, es.car, env, Step(cfg, st));
      Jump(cfg, st, s, s, st.conts, fuel, v);
    } else {
      var frame := Frame(env, es, es, Special(BeginEval), False);
      if |s| < cfg.capacity {
        EvalSim(cfg, fuel, es.car, env, Step(cfg, st));
      }
      if v.Val? {
        ResumeBack(s, env, es, es, BeginEval, v.value, st.conts);
        var back := Back(BeginEval, env, v.value, es, s, st.conts);
        var r := EvalBody(cfg, fuel, es.cdr, env);
        BodySim(cfg, fuel, es.cdr, env, Step(cfg, back));
        Jump(cfg, back, s, s, st.conts, fuel, r);
        Call(cfg, st, s, s, st.conts, fuel, frame, v, r);
      } else {
        Call(cfg, st, s, s, st.conts, fuel, frame, v, Beyond);
      }
    }
  }

  /** A result that says at least as much, with no larger height. */
  predicate Better(r: Result, r': Result) {
    match r'
    case Val(v, h) => r.Val? && r.value == v && r.height <= h
    case Err => r.Err?
    case Fuel => r.Fuel?
    case Beyond => true
  }

  lemma BetterOutcome(cfg: Config, st: State, s: seq<Frame>, conts: seq<seq<Frame>>, fuel: nat, r: Result, r': Result)
    requires Better(r, r') && (!r'.Beyond? ==> Outcome(cfg, st, s, conts, fuel, r))
    ensures Outcome(cfg, st, s, conts, fuel, r')
  {
  }

  lemma {:induction false} AppendNil(x: Value)
    requires IsList(x)
    ensures Append(x, Nil) == x
  {
    if x.Pair? {
      AppendNil(x.cdr);
    }
  }

  lemma BodyUnfold(cfg: Config, fuel: nat, es: Value, env: Value)
    requires es.Pair?
    ensures EvalBody(cfg, fuel, es, env) ==
      if IsBegin(es.car) && (!IsList(es.car.cdr) || (es.car.cdr == Nil && es.cdr == Nil)) then Beyond
      else EvalFirst(cfg, fuel, es, env)
    ensures EvalFirst(cfg, fuel, es, env) ==
      if es.cdr == Nil then Evaluate(cfg, fuel, es.car, env)
      else Then(Evaluate(cfg, fuel, es.car, env), EvalBody(cfg, fuel, es.cdr, env))
  {
  }

  lemma NoBody(cfg: Config, fuel: nat, es: Value, env: Value)
    requires !es.Pair?
    ensures EvalBody(cfg, fuel, es, env) == EvalFirst(cfg, fuel, es, env) == Beyond
  {
  }

  lemma BeginUnfold(cfg: Config, fuel: nat, e: Value, env: Value)
    requires IsBegin(e)
    ensures Evaluate(cfg, fuel, e, env) ==
      if e.cdr == Nil then Val(e.car, 0) else After(0, EvalBody(cfg, fuel, e.cdr, env))
  {
  }

  lemma AppendUnfold(x: Value, y: Value)
    requires IsList(x) && x.Pair? && y != Nil
    ensures IsList(x.cdr) && Append(x, y) == Pair(x.car, Append(x.cdr, y)) && Append(x.cdr, y) != Nil
    ensures x.cdr == Nil ==> Append(x.cdr, y) == y
    ensures x.cdr != Nil ==> x.cdr.Pair?
  {
  }

  /** Sequencing respects what is better, and is associative up to that. */
  lemma InParts(a: Result, b: Result, c: Result, d: Result)
    ensures Better(c, Then(b, d)) ==> Better(Then(a, c), Then(Then(a, b), d))
    ensures Better(Then(a, d), Then(a, d))
    ensures Better(Then(a, c), Beyond)
    ensures Then(Beyond, d) == Beyond
  {
  }

  /** A body in two parts. */
  lemma {:induction false} BodyAppend(cfg: Config, fuel: nat, x: Value, y: Value, env: Value)
    requires IsList(x) && x.Pair? && y != Nil
    ensures Better(EvalBody(cfg, fuel, Append(x, y), env),
                   Then(EvalBody(cfg, fuel, x, env), EvalBody(cfg, fuel, y, env)))
  {
    AppendUnfold(x, y);
    hide *;
    BodyUnfold(cfg, fuel, x, env);
    BodyUnfold(cfg, fuel, Append(x, y), env);
    if x.cdr != Nil {
      BodyAppend(cfg, fuel, x.cdr, y, env);
    }
    InParts(Evaluate(cfg, fuel, x.car, env), EvalBody(cfg, fuel, x.cdr, env),
            EvalBody(cfg, fuel, Append(x.cdr, y), env), EvalBody(cfg, fuel, y, env));
  }

  /** Splicing a nested begin form into the body around it changes neither the
      value nor an error, and saves frames. */
  lemma SpliceBetter(cfg: Config, fuel: nat, es: Value, env: Value)
    requires es.Pair? && IsBegin(es.car) && IsList(es.car.cdr)
    requires !(es.car.cdr == Nil && es.cdr == Nil)
    ensures Better(EvalFirst(cfg, fuel, Append(es.car.cdr, es.cdr), env), EvalFirst(cfg, fuel, es, env))
  {
    hide Evaluate;
    hide EvalBody;
    hide EvalFirst;
    var b, y := es.car.cdr, es.cdr;
    BodyUnfold(cfg, fuel, es, env);
    BeginUnfold(cfg, fuel, es.car, env);
    if b == Nil {
      if y.Pair? {
        BodyUnfold(cfg, fuel, y, env);
      } else {
        NoBody(cfg, fuel, y, env);
      }
    } else {
      BodyUnfold(cfg, fuel, b, env);
      if y == Nil {
        AppendNil(b);
      } else {
        var z := Append(b, y);
        assert z == Pair(b.car, Append(b.cdr, y));
        BodyUnfold(cfg, fuel, z, env);
        if b.cdr == Nil {
          assert Append(b.cdr, y) == y;
        } else {
          BodyAppend(cfg, fuel, b.cdr, y, env);
        }
      }
    }
  }

  /** Applying an operator as it stands. */
  lemma ApplySim(cfg: Config, fuel: nat, fn: Value, args: Value, env: Value, st: State)
    requires st.Running? && st.pc == At(Apply) && st.r0 == env && st.r1 == Pair(fn, args) && st.stack != []
    ensures Outcome(cfg, st, st.stack, st.conts, fuel, ApplyTo(cfg, fuel, fn, args, env))
    decreases fuel, Size(fn), 5
  {
    hide Outcome;
    AnyBeyond(cfg, st, st.stack, st.conts, fuel);
    var s, mid := st.stack, SetProcedure(st, fn);
    var t := mid.stack;
    assert SameFrames(s, t);
    if !Direct(fn) {
      OperatorSim(cfg, fuel, fn, args, env, st);
    } else if fn.Closure? {
      ClosureSim(cfg, fuel, fn, args, env, st);
    } else if fn.Pair? {
      LambdaSim(cfg, fuel, fn, args, env, st);
    } else if fn.Builtin? {
      if !CountFits(fn.arity, args) {
        StepFails(cfg, st, WrongNumberOfArgs, fuel);
      } else {
        Answers(cfg, st, t, mid, fuel, ApplyBuiltin(cfg, fn.name, fn.arity, args));
      }
    } else if fn == Special(Apply) {
      SpecialApplySim(cfg, fuel, args, env, st);
    } else if fn == Special(Label.Eval) {
      SpecialEvalSim(cfg, fuel, args, env, st);
    } else if fn == Sym(Symbol.CallWithValues) {
      CallWithValuesSim(cfg, fuel, args, env, st);
    } else if fn == Sym(CurrentEnvironment) {
      Returns(cfg, st, t, fuel, env);
    } else if !ApplyDirect(cfg, fuel, fn, args, env).Beyond? {
      StepFails(cfg, st, WrongTypeArg, fuel);
    }
  }

  lemma ApplyUnfold(cfg: Config, fuel: nat, fn: Value, args: Value, env: Value)
    requires !Direct(fn) && Evaluate(cfg, fuel, fn, env).Val?
    ensures ApplyTo(cfg, fuel, fn, args, env)
         == Then(Evaluate(cfg, fuel, fn, env), ApplyOnce(cfg, fuel, Evaluate(cfg, fuel, fn, env), args, env))
  {
    hide Evaluate;
  }

  lemma OperatorSim(cfg: Config, fuel: nat, fn: Value, args: Value, env: Value, st: State)
    requires st.Running? && st.pc == At(Apply) && st.r0 == env && st.r1 == Pair(fn, args) && st.stack != []
    requires !Direct(fn)
    ensures Outcome(cfg, st, st.stack, st.conts, fuel, ApplyTo(cfg, fuel, fn, args, env))
    decreases fuel, Size(fn), 4
  {
    hide Outcome;
    AnyBeyond(cfg, st, st.stack, st.conts, fuel);
    var s, t, e := st.stack, SetProcedure(st, fn).stack, st.r1;
    assert SameFrames(s, t);
    var frame := Frame(env, e, e, Special(Apply2), False);
    var v := Evaluate(cfg, fuel, fn, env);
    assert Step(cfg, st) == PushCc(cfg, SetProcedure(st, fn), fn, e, env, Apply2, At(Label.Eval));
    if |s| < cfg.capacity {
      EvalSim(cfg, fuel, fn, env, Step(cfg, st));
    }
    if v.Val? {
      ResumeBack(t, env, e, e, Apply2, v.value, st.conts);
      ApplyUnfold(cfg, fuel, fn, args, env);
      ApplyValueSim(cfg, fuel, fn, v, args, env, t, st.conts, e);
      Call(cfg, st, s, t, st.conts, fuel, frame, v, ApplyOnce(cfg, fuel, v, args, env));
    } else {
      Call(cfg, st, s, t, st.conts, fuel, frame, v, Beyond);
    }
  }

  /** Applying what the operator has evaluated to, not counting the frames that
      its evaluation took. */
  function ApplyOnce(cfg: Config, fuel: nat, v: Result, args: Value, env: Value): Result
    requires v.Val?
  {
    if !Applicable(v.value) then Err
    else if fuel == 0 then Fuel
    else ApplyTo(cfg, fuel - 1, v.value, args, env)
  }

  lemma ApplyValueSim(cfg: Config, fuel: nat, fn: Value, v: Result, args: Value, env: Value,
                      t: seq<Frame>, conts: seq<seq<Frame>>, e: Value)
    requires v.Val? && t != [] && e == Pair(fn, args)
    ensures Outcome(cfg, Back(Apply2, env, v.value, e, t, conts), t, conts, fuel, ApplyOnce(cfg, fuel, v, args, env))
    decreases fuel, 0, 0
  {
    hide Outcome;
    var st := Back(Apply2, env, v.value, e, t, conts);
    SameSelf(t);
    if !Applicable(v.value) {
      StepFails(cfg, st, WrongTypeArg, fuel);
    } else if fuel == 0 {
      NoFuel(cfg, st, t, conts);
    } else {
      ApplySim(cfg, fuel - 1, v.value, args, env, Step(cfg, st));
      Jump(cfg, st, t, t, conts, fuel - 1, ApplyTo(cfg, fuel - 1, v.value, args, env));
      MoreFuel(cfg, st, t, conts, fuel - 1, ApplyTo(cfg, fuel - 1, v.value, args, env));
    }
  }

  lemma AnyBeyond(cfg: Config, st: State, s: seq<Frame>, conts: seq<seq<Frame>>, fuel: nat)
    ensures Outcome(cfg, st, s, conts, fuel, Beyond)
  {
  }

  lemma NoFuel(cfg: Config, st: State, s: seq<Frame>, conts: seq<seq<Frame>>)
    ensures Outcome(cfg, st, s, conts, 0, Fuel)
  {
    LastsZero(cfg, st, |s|);
  }

  /** Only running out of fuel mentions the amount. */
  lemma MoreFuel(cfg: Config, st: State, s: seq<Frame>, conts: seq<seq<Frame>>, fuel: nat, r: Result)
    requires Outcome(cfg, st, s, conts, fuel, r)
    requires r.Fuel? ==> Outcome(cfg, st, s, conts, fuel + 1, Fuel)
    ensures Outcome(cfg, st, s, conts, fuel + 1, r)
  {
  }

  /** Entering a body in the scope of new bindings. */
  lemma EnterSim(cfg: Config, fuel: nat, body: Value, bindings: Answer<Value>, st: State, mid: State, t: seq<Frame>)
    requires st.Running? && st.stack != [] && SameFrames(st.stack, t)
    requires mid.Running? && mid.stack == t && mid.conts == st.conts
    requires Step(cfg, st) == Enter(mid, body, bindings)
    ensures Outcome(cfg, st, st.stack, st.conts, fuel, EvalIn(cfg, fuel, body, bindings))
    ensures EvalIn(cfg, fuel, body, bindings).Fuel? ==> Outcome(cfg, st, st.stack, st.conts, fuel + 1, Fuel)
    decreases fuel, Size(body), 4
  {
    hide Outcome;
    AnyBeyond(cfg, st, st.stack, st.conts, fuel);
    match bindings
    case Good(p) =>
      var next := Step(cfg, st);
      SameSelf(t);
      if body == Nil {
        Returns(cfg, next, t, fuel, Unspecified);
      } else {
        BodySim(cfg, fuel, body, Scope(p), next);
      }
      Jump(cfg, st, st.stack, t, st.conts, fuel, EvalIn(cfg, fuel, body, bindings));
    case Bad(e) => StepFails(cfg, st, e, fuel);
    case Outside =>
  }

  lemma ClosureSim(cfg: Config, fuel: nat, fn: Value, args: Value, env: Value, st: State)
    requires st.Running? && st.pc == At(Apply) && st.r0 == env && st.r1 == Pair(fn, args) && st.stack != []
    requires fn.Closure?
    ensures Outcome(cfg, st, st.stack, st.conts, fuel, ApplyTo(cfg, fuel, fn, args, env))
    decreases fuel, Size(fn), 4
  {
    hide Outcome;
    AnyBeyond(cfg, st, st.stack, st.conts, fuel);
    var mid := SetProcedure(st, fn);
    assert SameFrames(st.stack, mid.stack);
    if fn.env.Pair? {
      if !FormalsFit(fn.formals, args) {
        StepFails(cfg, st, WrongNumberOfArgs, fuel);
      } else if fuel == 0 {
        NoFuel(cfg, st, st.stack, st.conts);
      } else {
        var p := Pairlis(fn.formals, args, fn.env.cdr);
        EnterSim(cfg, fuel - 1, fn.body, p, st, mid, mid.stack);
        MoreFuel(cfg, st, st.stack, st.conts, fuel - 1, EvalIn(cfg, fuel - 1, fn.body, p));
      }
    }
  }

  lemma LambdaSim(cfg: Config, fuel: nat, fn: Value, args: Value, env: Value, st: State)
    requires st.Running? && st.pc == At(Apply) && st.r0 == env && st.r1 == Pair(fn, args) && st.stack != []
    requires fn.Pair? && fn.car == Sym(Lambda)
    ensures Outcome(cfg, st, st.stack, st.conts, fuel, ApplyTo(cfg, fuel, fn, args, env))
    decreases fuel, Size(fn), 4
  {
    hide Outcome;
    AnyBeyond(cfg, st, st.stack, st.conts, fuel);
    var mid := SetProcedure(st, fn);
    assert SameFrames(st.stack, mid.stack);
    if fn.cdr.Pair? {
      SizeTwo(fn);
      var p := Pairlis(fn.cdr.car, args, env);
      if p.Good? && !FormalsFit(fn.cdr.car, args) {
        StepFails(cfg, st, WrongNumberOfArgs, fuel);
      } else {
        EnterSim(cfg, fuel, fn.cdr.cdr, p, st, mid, mid.stack);
      }
    }
  }

  /** A frame that only returns what it is given. */
  lemma ReturnFrame(cfg: Config, env: Value, v: Value, e: Value, t: seq<Frame>, conts: seq<seq<Frame>>, fuel: nat)
    requires t != []
    ensures Outcome(cfg, Back(Return, env, v, e, t, conts), t, conts, fuel, Val(v, 0))
  {
    GoesStep(cfg, Back(Return, env, v, e, t, conts), |t|);
  }

  lemma SpecialApplied(cfg: Config, fuel: nat, args: Value, env: Value)
    ensures ApplyTo(cfg, fuel, Special(Apply), args, env) ==
      if !args.Pair? || !args.cdr.Pair? then Beyond
      else if fuel == 0 then Fuel
      else Under(ApplyTo(cfg, fuel - 1, args.car, args.cdr.car, env))
  {
    hide Evaluate;
  }

  lemma SpecialApplySim(cfg: Config, fuel: nat, args: Value, env: Value, st: State)
    requires st.Running? && st.pc == At(Apply) && st.r0 == env && st.r1 == Pair(Special(Apply), args) && st.stack != []
    ensures Outcome(cfg, st, st.stack, st.conts, fuel, ApplyTo(cfg, fuel, Special(Apply), args, env))
    decreases fuel, 0, 4
  {
    SpecialApplied(cfg, fuel, args, env);
    hide Outcome, ApplyTo;
    AnyBeyond(cfg, st, st.stack, st.conts, fuel);
    var s, mid, e := st.stack, SetProcedure(st, Special(Apply)), st.r1;
    var t := mid.stack;
    assert SameFrames(s, t);
    if args.Pair? && args.cdr.Pair? {
      if fuel == 0 {
        NoFuel(cfg, st, s, st.conts);
      } else {
        var frame := Frame(env, e, e, Special(Return), False);
        var r := ApplyTo(cfg, fuel - 1, args.car, args.cdr.car, env);
        assert Step(cfg, st) == PushCc(cfg, mid, Pair(args.car, args.cdr.car), e, env, Return, At(Apply));
        if |s| < cfg.capacity {
          ApplySim(cfg, fuel - 1, args.car, args.cdr.car, env, Step(cfg, st));
        }
        CallAndReturn(cfg, st, s, t, st.conts, fuel - 1, frame, r);
      }
    }
  }

  lemma SpecialEvalSim(cfg: Config, fuel: nat, args: Value, env: Value, st: State)
    requires st.Running? && st.pc == At(Apply) && st.r0 == env && st.stack != []
    requires st.r1 == Pair(Special(Label.Eval), args)
    ensures Outcome(cfg, st, st.stack, st.conts, fuel, ApplyTo(cfg, fuel, Special(Label.Eval), args, env))
    decreases fuel, 0, 4
  {
    hide Outcome;
    AnyBeyond(cfg, st, st.stack, st.conts, fuel);
    var s, mid, e := st.stack, SetProcedure(st, Special(Label.Eval)), st.r1;
    var t := mid.stack;
    assert SameFrames(s, t);
    if args.Pair? && args.cdr.Pair? {
      if fuel == 0 {
        NoFuel(cfg, st, s, st.conts);
      } else {
        var frame := Frame(env, e, e, Special(Return), False);
        var r := Evaluate(cfg, fuel - 1, args.car, args.cdr.car);
        assert Step(cfg, st) == PushCc(cfg, mid, args.car, e, args.cdr.car, Return, At(Label.Eval));
        if |s| < cfg.capacity {
          EvalSim(cfg, fuel - 1, args.car, args.cdr.car, Step(cfg, st));
        }
        CallAndReturn(cfg, st, s, t, st.conts, fuel - 1, frame, r);
      }
    }
  }

  lemma CallAndReturn(cfg: Config, st: State, s: seq<Frame>, t: seq<Frame>, conts: seq<seq<Frame>>, fuel: nat,
                      frame: Frame, r: Result)
    requires st.Running? && |st.stack| == |s| && SameFrames(s, t)
    requires frame == Frame(frame.r0, frame.r1, frame.r2, Special(Return), False)
    requires if |s| >= cfg.capacity then Step(cfg, st) == Failed(StackFull)
             else Outcome(cfg, Step(cfg, st), t + [frame], conts, fuel, r)
    ensures Outcome(cfg, st, s, conts, fuel + 1, Under(r))
  {
    hide Outcome;
    var v := if r.Val? then r.value else Nil;
    ResumeBack(t, frame.r0, frame.r1, frame.r2, Return, v, conts);
    ReturnFrame(cfg, frame.r0, v, frame.r2, t, conts, fuel);
    Call(cfg, st, s, t, conts, fuel, frame, r, Val(v, 0));
    MoreFuel(cfg, st, s, conts, fuel, Under(r));
  }

  /** The consumer is applied to what the producer has returned. */
  lemma ConsumerSim(cfg: Config, fuel: nat, args: Value, env: Value, v: Value, t: seq<Frame>, conts: seq<seq<Frame>>)
    requires args.Pair? && args.cdr.Pair? && t != []
    ensures Outcome(cfg, Back(CallWithValues2, env, v, args, t, conts), t, conts, fuel,
                    ApplyTo(cfg, fuel, args.cdr.car, ValueList(v), env))
    decreases fuel, Size(args.cdr.car), 6
  {
    hide Outcome;
    hide ApplyTo;
    var back := Back(CallWithValues2, env, v, args, t, conts);
    SameSelf(t);
    ApplySim(cfg, fuel, args.cdr.car, ValueList(v), env, Step(cfg, back));
    Jump(cfg, back, t, t, conts, fuel, ApplyTo(cfg, fuel, args.cdr.car, ValueList(v), env));
  }

  lemma CallWithValuesSim(cfg: Config, fuel: nat, args: Value, env: Value, st: State)
    requires st.Running? && st.pc == At(Apply) && st.r0 == env && st.stack != []
    requires st.r1 == Pair(Sym(Symbol.CallWithValues), args)
    ensures Outcome(cfg, st, st.stack, st.conts, fuel, ApplyTo(cfg, fuel, Sym(Symbol.CallWithValues), args, env))
    decreases fuel, 0, 4
  {
    hide Outcome, Evaluate;
    AnyBeyond(cfg, st, st.stack, st.conts, fuel);
    var s, mid := st.stack, Step(cfg, st);
    assert SameFrames(s, mid.stack);
    if args.Pair? && args.cdr.Pair? {
      if fuel == 0 {
        NoFuel(cfg, st, s, st.conts);
      } else {
        var r := ApplyTo(cfg, fuel, Sym(Symbol.CallWithValues), args, env);
        ProducerSim(cfg, fuel, args, env, mid);
        Jump(cfg, st, s, mid.stack, st.conts, fuel - 1, r);
        MoreFuel(cfg, st, s, st.conts, fuel - 1, r);
      }
    }
  }

  lemma ValuesApplied(cfg: Config, fuel: nat, args: Value, env: Value)
    requires args.Pair? && args.cdr.Pair? && fuel > 0
    ensures
      var v := ApplyTo(cfg, fuel - 1, args.car, Nil, env);
      ApplyTo(cfg, fuel, Sym(Symbol.CallWithValues), args, env) ==
        Then(v, if v.Val? then ApplyTo(cfg, fuel - 1, args.cdr.car, ValueList(v.value), env) else Beyond)
  {
    hide Evaluate;
  }

  /** The producer is applied, and then the consumer to what it returned. */
  lemma ProducerSim(cfg: Config, fuel: nat, args: Value, env: Value, st: State)
    requires st.Running? && st.pc == Block.CallWithValues && st.r0 == env && st.r1 == args && st.stack != []
    requires args.Pair? && args.cdr.Pair? && fuel > 0
    ensures Outcome(cfg, st, st.stack, st.conts, fuel - 1, ApplyTo(cfg, fuel, Sym(Symbol.CallWithValues), args, env))
    decreases fuel, 0, 3
  {
    ValuesApplied(cfg, fuel, args, env);
    hide Outcome, Evaluate, ApplyTo;
    var s := st.stack;
    SameSelf(s);
    var frame := Frame(env, args, args, Special(CallWithValues2), False);
    var v := ApplyTo(cfg, fuel - 1, args.car, Nil, env);
    assert Step(cfg, st) == PushCc(cfg, st, List(args.car), args, env, CallWithValues2, At(Apply));
    if |s| < cfg.capacity {
      ApplySim(cfg, fuel - 1, args.car, Nil, env, Step(cfg, st));
    }
    hide Step;
    var r2 := Beyond;
    if v.Val? {
      ResumeBack(s, env, args, args, CallWithValues2, v.value, st.conts);
      r2 := ApplyTo(cfg, fuel - 1, args.cdr.car, ValueList(v.value), env);
      ConsumerSim(cfg, fuel - 1, args, env, v.value, s, st.conts);
    }
    Call(cfg, st, s, s, st.conts, fuel - 1, frame, v, r2);
  }
}
