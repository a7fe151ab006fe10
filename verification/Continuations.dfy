/** Invariants of every run, with first-class continuations.

    The loop is entered again and again, also from builtins that it runs itself,
    and what one activation captured is there in the next.  So nothing is said
    of how a run begins, but that its state is a good one. */
module Continuations {
  import opened Values
  import opened Machine
  import opened Refinement

  /** Where a saved frame resumes, R2 holds what that block takes apart. */
  predicate Shape(l: Label, r2: Value, captured: nat) {
    match l
    case Evlis2 => r2.Pair?
    case Evlis3 => true
    case Apply2 => r2.Pair?
    case EvalCheckFunc => r2.Pair?
    case Eval2 => r2.Pair?
    case BeginEval => r2.Pair?
    case IfExpr => r2.Pair?
    case CallCc2 => r2.Continuation? && r2.id < captured
    case CallWithValues2 => r2.Pair?
    case Return => true
    case _ => false
  }

  /** A frame stops the loop, or resumes in a block that knows it. */
  predicate GoodFrame(f: Frame, captured: nat) {
    f.r3 == Unspecified || (f.r3.Special? && Shape(f.r3.place, f.r2, captured))
  }

  /** What a frame that waits for the receiver of call/cc stands on is what was
      captured. */
  predicate Captures(f: Frame, below: seq<Frame>, conts: seq<seq<Frame>>)
    requires GoodFrame(f, |conts|)
  {
    f.r3 == Special(CallCc2) ==> conts[f.r2.id] == below
  }

  ghost predicate GoodStack(conts: seq<seq<Frame>>, s: seq<Frame>) {
    forall i :: 0 <= i < |s| ==> GoodFrame(s[i], |conts|) && Captures(s[i], s[..i], conts)
  }

  predicate GoodBlock(pc: Block, r2: Value, captured: nat) {
    match pc
    case CallCc => true
    case CallWithValues => true
    case At(l) =>
      match l
      case Evlis => true
      case Apply => true
      case Eval => true
      case Begin => true
      case If => true
      case _ => Shape(l, r2, captured)
  }

  ghost predicate GoodStacks(conts: seq<seq<Frame>>) {
    forall k :: 0 <= k < |conts| ==> GoodStack(conts, conts[k])
  }

  /** What holds in every state of a run. */
  ghost predicate GoodState(st: State)
    requires st.Running?
  {
    && GoodBlock(st.pc, st.r2, |st.conts|)
    && GoodStack(st.conts, st.stack) && GoodStacks(st.conts)
    && (st.pc == At(CallCc2) ==> st.conts[st.r2.id] == st.stack)
  }

  lemma Pushed(conts: seq<seq<Frame>>, s: seq<Frame>, f: Frame)
    requires GoodStack(conts, s) && GoodFrame(f, |conts|) && Captures(f, s, conts)
    ensures GoodStack(conts, s + [f])
  {
    var t := s + [f];
    forall i | 0 <= i < |t| ensures GoodFrame(t[i], |conts|) && Captures(t[i], t[..i], conts) {
      if i < |s| {
        assert t[i] == s[i] && t[..i] == s[..i];
      } else {
        assert t[..i] == s;
      }
    }
  }

  lemma Popped(conts: seq<seq<Frame>>, s: seq<Frame>)
    requires GoodStack(conts, s) && s != []
    ensures GoodStack(conts, Below(s)) && GoodFrame(Top(s), |conts|) && Captures(Top(s), Below(s), conts)
  {
    var t := Below(s);
    forall i | 0 <= i < |t| ensures GoodFrame(t[i], |conts|) && Captures(t[i], t[..i], conts) {
      assert t[i] == s[i] && t[..i] == s[..i];
    }
  }

  lemma Noted(conts: seq<seq<Frame>>, s: seq<Frame>, p: Value)
    requires GoodStack(conts, s) && s != []
    ensures GoodStack(conts, Below(s) + [Top(s).(procedure := p)])
  {
    Popped(conts, s);
    Pushed(conts, Below(s), Top(s).(procedure := p));
  }

  lemma Extended(conts: seq<seq<Frame>>, s: seq<Frame>, t: seq<Frame>)
    requires GoodStack(conts, s)
    ensures GoodStack(conts + [t], s)
  {
    forall i | 0 <= i < |s| ensures GoodFrame(s[i], |conts| + 1) && Captures(s[i], s[..i], conts + [t]) {
      assert GoodFrame(s[i], |conts|) && Captures(s[i], s[..i], conts);
    }
  }

  lemma AllExtended(conts: seq<seq<Frame>>, t: seq<Frame>)
    requires GoodStacks(conts) && GoodStack(conts, t)
    ensures GoodStacks(conts + [t])
  {
    forall k | 0 <= k < |conts + [t]| ensures GoodStack(conts + [t], (conts + [t])[k]) {
      Extended(conts, if k < |conts| then conts[k] else t, t);
    }
  }

  /** What one step may do: fail in a way the program is to blame for, stop, or
      keep everything, and never forget or change a captured stack. */
  ghost predicate Keeps(st: State, st': State)
    requires st.Running?
  {
    match st'
    case Running(_, _, _, _, _, _, _) => GoodState(st') && st.conts <= st'.conts
    case Failed(e) => e != UnknownContinuation
    case Halted(_, left, saved) => GoodStack(saved, left) && saved == st.conts && GoodStacks(saved)
    case Off => true
  }

  lemma PushCcKeeps(cfg: Config, st: State, p1: Value, p2: Value, a: Value, c: Label, to: Block)
    requires st.Running? && GoodStack(st.conts, st.stack) && GoodStacks(st.conts)
    requires GoodBlock(to, p2, |st.conts|) && to != At(CallCc2)
    requires Shape(c, p2, |st.conts|) && (c == CallCc2 ==> st.conts[p2.id] == st.stack)
    ensures Keeps(st, PushCc(cfg, st, p1, p2, a, c, to))
  {
    hide GoodStack;
    hide Shape;
    hide GoodBlock;
    Pushed(st.conts, st.stack, Frame(st.r0, st.r1, p2, Special(c), False));
  }

  lemma ReturnKeeps(cfg: Config, st: State)
    requires st.Running? && GoodState(st) && st.pc == At(Return)
    ensures Keeps(st, Step(cfg, st))
  {
    hide GoodStack;
    if st.stack != [] {
      Popped(st.conts, st.stack);
    }
  }

  lemma BuiltinError(cfg: Config, name: string, arity: int, args: Value)
    ensures var a := ApplyBuiltin(cfg, name, arity, args); a.Bad? ==> a.error == Primitive
  {
  }

  lemma ApplyKeeps(cfg: Config, st: State)
    requires st.Running? && GoodState(st) && st.pc == At(Apply)
    ensures Keeps(st, Step(cfg, st))
  {
    hide GoodStack, PushCc, ApplyBuiltin, FormalsFit, CountFits, Constant;
    if st.r1.Pair? && st.stack != [] {
      var fn, args := st.r1.car, st.r1.cdr;
      var mid := SetProcedure(st, fn);
      Noted(st.conts, st.stack, fn);
      var e := st.r1;
      if fn == Special(Apply) {
        if args.Pair? && args.cdr.Pair? {
          PushCcKeeps(cfg, mid, Pair(args.car, args.cdr.car), e, st.r0, Return, At(Apply));
        }
      } else if fn == Special(Label.Eval) {
        if args.Pair? && args.cdr.Pair? {
          PushCcKeeps(cfg, mid, args.car, e, args.cdr.car, Return, At(Label.Eval));
        }
      } else if fn.Builtin? {
        BuiltinError(cfg, fn.name, fn.arity, args);
      } else if fn.Continuation? && fn.id < |st.conts| {
        assert GoodStack(st.conts, st.conts[fn.id]);
      } else {
        PushCcKeeps(cfg, mid, fn, e, st.r0, Apply2, At(Label.Eval));
      }
    }
  }

  lemma CallCcKeeps(cfg: Config, st: State)
    requires st.Running? && GoodState(st) && st.pc == Block.CallCc
    ensures Keeps(st, Step(cfg, st))
  {
    hide GoodStack;
    if st.r1.Pair? {
      var mid := st.(conts := st.conts + [st.stack]);
      Extended(st.conts, st.stack, st.stack);
      AllExtended(st.conts, st.stack);
      var k := Continuation(|st.conts|);
      PushCcKeeps(cfg, mid, Pair(st.r1.car, List(k)), k, st.r0, CallCc2, At(Apply));
    }
  }

  /** The second capture, made when the receiver returns, saves the same frames. */
  lemma SecondCapture(cfg: Config, st: State)
    requires st.Running? && GoodState(st) && st.pc == At(CallCc2)
    ensures Step(cfg, st) == Goto(st, Return, st.r1)
    ensures Keeps(st, Step(cfg, st))
  {
    assert st.conts[st.r2.id := st.stack] == st.conts;
  }

  lemma OtherKeeps(cfg: Config, st: State)
    requires st.Running? && GoodState(st)
    requires st.pc != At(Return) && st.pc != At(Apply) && st.pc != Block.CallCc && st.pc != At(CallCc2)
    ensures Keeps(st, Step(cfg, st))
  {
    hide GoodStack, PushCc, Append;
    var r0, r1, r2 := st.r0, st.r1, st.r2;
    match st.pc
    case CallWithValues => if r1.Pair? { PushCcKeeps(cfg, st, List(r1.car), r1, r0, CallWithValues2, At(Apply)); }
    case At(l) =>
      if l == Evlis && r1.Pair? {
        PushCcKeeps(cfg, st, r1.car, r1, r0, Evlis2, At(Label.Eval));
      } else if l == Evlis2 && r2.Pair? {
        PushCcKeeps(cfg, st, r2.cdr, r1, r0, Evlis3, At(Evlis));
      } else if l == Label.Eval && r1.Pair? {
        PushCcKeeps(cfg, st, r1.car, r1, r0, EvalCheckFunc, At(Label.Eval));
      } else if l == EvalCheckFunc && r2.Pair? {
        PushCcKeeps(cfg, st, r2.cdr, r2, r0, Eval2, At(Evlis));
      } else if l == Label.Begin && r1.Pair? {
        BeginKeeps(cfg, st);
      } else if l == Label.If && r1.Pair? {
        PushCcKeeps(cfg, st, r1.car, r1, r0, IfExpr, At(Label.Eval));
      }
  }

  lemma BeginKeeps(cfg: Config, st: State)
    requires st.Running? && GoodState(st) && st.pc == At(Label.Begin) && st.r1.Pair?
    ensures Keeps(st, Step(cfg, st))
  {
    hide GoodStack;
    var mid := st;
    if IsBegin(st.r1.car) && IsList(st.r1.car.cdr) {
      mid := st.(r1 := Append(st.r1.car.cdr, st.r1.cdr));
    }
    if mid.r1.Pair? {
      PushCcKeeps(cfg, mid, mid.r1.car, mid.r1, mid.r0, BeginEval, At(Label.Eval));
    }
  }

  lemma StepKeeps(cfg: Config, st: State)
    requires st.Running? && GoodState(st)
    ensures Keeps(st, Step(cfg, st))
  {
    if st.pc == At(Return) {
      ReturnKeeps(cfg, st);
    } else if st.pc == At(Apply) {
      ApplyKeeps(cfg, st);
    } else if st.pc == Block.CallCc {
      CallCcKeeps(cfg, st);
    } else if st.pc == At(CallCc2) {
      SecondCapture(cfg, st);
    } else {
      OtherKeeps(cfg, st);
    }
  }

  /** Over a whole run: every state is good, what has been captured is never
      changed, and no frame resumes nowhere. */
  lemma {:induction false} RunKeeps(cfg: Config, n: nat, st: State, st': State)
    requires st.Running? && GoodState(st) && Reaches(cfg, n, st, 0, st')
    ensures st'.Running? ==> GoodState(st') && st.conts <= st'.conts
    ensures st'.Halted? ==> GoodStack(st'.saved, st'.left) && GoodStacks(st'.saved) && st.conts <= st'.saved
    ensures st' != Failed(UnknownContinuation)
    decreases n
  {
    hide Step;
    if n > 0 {
      StepKeeps(cfg, st);
      if n > 1 {
        RunKeeps(cfg, n - 1, Step(cfg, st), st');
      }
    }
  }

  /** The stack of a run that was entered on top of the frames `base`: an entry
      frame, which stops the loop, and then frames that do not. */
  predicate Stands(base: seq<Frame>, s: seq<Frame>) {
    && |s| > |base| && s[..|base|] == base && s[|base|].r3 == Unspecified
    && forall i :: |base| < i < |s| ==> s[i].r3 != Unspecified
  }

  /** The run stands on `base`, and so does all it has captured; `earlier`
      continuations were there when it began. */
  ghost predicate Standing(base: seq<Frame>, earlier: nat, st: State)
    requires st.Running?
  {
    Stands(base, st.stack) && forall k :: earlier <= k < |st.conts| ==> Stands(base, st.conts[k])
  }

  /** The next step applies a continuation of an earlier run, whose frames are
      not on top of `base`. */
  predicate Leaves(base: seq<Frame>, earlier: nat, st: State)
    requires st.Running?
  {
    && st.pc == At(Apply) && st.stack != [] && st.r1.Pair? && st.r1.cdr.Pair? && st.r1.car.Continuation?
    && var id := st.r1.car.id;
       id < earlier && id < |st.conts| && st.conts[id] != [] && !Stands(base, st.conts[id])
  }

  lemma StandsPushed(base: seq<Frame>, s: seq<Frame>, f: Frame)
    requires Stands(base, s) && f.r3 != Unspecified
    ensures Stands(base, s + [f])
  {
    var t := s + [f];
    assert t[..|base|] == s[..|base|];
  }

  lemma StandsPopped(base: seq<Frame>, s: seq<Frame>)
    requires Stands(base, s)
    ensures Top(s).r3 == Unspecified ==> Below(s) == base
    ensures Top(s).r3 != Unspecified ==> Stands(base, Below(s))
  {
    if Top(s).r3 != Unspecified {
      assert Below(s)[..|base|] == s[..|base|];
    }
  }

  lemma StandsNoted(base: seq<Frame>, s: seq<Frame>, p: Value)
    requires Stands(base, s)
    ensures Stands(base, Below(s) + [Top(s).(procedure := p)])
  {
    var t := Below(s) + [Top(s).(procedure := p)];
    assert t[..|base|] == s[..|base|];
  }

  /** The stack stays, or a frame that resumes somewhere is put on it. */
  predicate Grows(s: seq<Frame>, t: seq<Frame>) {
    t == s || (t != [] && Below(t) == s && Top(t).r3.Special?)
  }

  lemma StandsGrown(base: seq<Frame>, s: seq<Frame>, t: seq<Frame>)
    requires Stands(base, s) && Grows(s, t)
    ensures Stands(base, t)
  {
    if t != s {
      StandsPushed(base, s, Top(t));
      assert t == s + [Top(t)];
    }
  }

  /** Blocks that only push. */
  lemma OtherGrows(cfg: Config, st: State)
    requires st.Running?
    requires st.pc != At(Return) && st.pc != At(Apply) && st.pc != Block.CallCc && st.pc != At(CallCc2)
    ensures Step(cfg, st).Running? ==> Step(cfg, st).conts == st.conts && Grows(st.stack, Step(cfg, st).stack)
    ensures !Step(cfg, st).Halted?
  {
    hide Append, IsList, Lookup;
  }

  lemma ApplyGrows(cfg: Config, st: State)
    requires st.Running? && st.pc == At(Apply) && st.stack != [] && st.r1.Pair? && !st.r1.car.Continuation?
    ensures var next, mid := Step(cfg, st), SetProcedure(st, st.r1.car);
      next.Running? ==> next.conts == st.conts && Grows(mid.stack, next.stack)
    ensures !Step(cfg, st).Halted?
  {
    hide ApplyBuiltin, Pairlis, FormalsFit, CountFits;
  }

  lemma ContinuationSteps(cfg: Config, st: State)
    requires st.Running? && st.pc == At(Apply) && st.stack != [] && st.r1.Pair? && st.r1.car.Continuation?
    ensures var next, id := Step(cfg, st), st.r1.car.id;
      && (next.Running? <==> st.r1.cdr.Pair? && id < |st.conts|) && !next.Halted?
      && (next.Running? ==> next.conts == st.conts)
      && (next.Running? ==>
            next.stack == if st.conts[id] == [] then SetProcedure(st, st.r1.car).stack else st.conts[id])
  {
  }

  lemma ContinuationStanding(cfg: Config, base: seq<Frame>, earlier: nat, st: State)
    requires st.Running? && Standing(base, earlier, st)
    requires st.pc == At(Apply) && st.stack != [] && st.r1.Pair? && st.r1.car.Continuation?
    ensures Step(cfg, st).Running? ==> (Standing(base, earlier, Step(cfg, st)) <==> !Leaves(base, earlier, st))
  {
    ContinuationSteps(cfg, st);
    StandsNoted(base, st.stack, st.r1.car);
    hide Step, Stands, SetProcedure;
    var next, id := Step(cfg, st), st.r1.car.id;
    if next.Running? {
      var back := st.conts[id];
      assert Standing(base, earlier, next) <==> Stands(base, next.stack);
      assert id >= earlier ==> Stands(base, back);
    }
  }

  lemma ApplyStanding(cfg: Config, base: seq<Frame>, earlier: nat, st: State)
    requires st.Running? && Standing(base, earlier, st)
    requires st.pc == At(Apply) && st.stack != [] && st.r1.Pair? && !st.r1.car.Continuation?
    ensures Step(cfg, st).Running? ==> Standing(base, earlier, Step(cfg, st))
  {
    ApplyGrows(cfg, st);
    StandsNoted(base, st.stack, st.r1.car);
    hide Step, Stands, Grows, SetProcedure;
    var next := Step(cfg, st);
    if next.Running? {
      StandsGrown(base, SetProcedure(st, st.r1.car).stack, next.stack);
    }
  }

  /** Only the application of a continuation that was captured earlier can
      change the frames below the entry frame, and when the entry frame is
      popped they are what is left. */
  lemma StandingStep(cfg: Config, base: seq<Frame>, earlier: nat, st: State)
    requires st.Running? && GoodState(st) && Standing(base, earlier, st)
    ensures Step(cfg, st).Running? ==> (Standing(base, earlier, Step(cfg, st)) <==> !Leaves(base, earlier, st))
    ensures Step(cfg, st).Halted? ==> Step(cfg, st).left == base
  {
    hide Stands, Grows;
    if st.pc == At(Apply) {
      if st.r1.Pair? && st.stack != [] {
        if st.r1.car.Continuation? {
          ContinuationSteps(cfg, st);
          ContinuationStanding(cfg, base, earlier, st);
        } else {
          ApplyGrows(cfg, st);
          ApplyStanding(cfg, base, earlier, st);
        }
      }
    } else if st.pc == At(Return) {
      StackNotEmpty(base, st.stack);
      StandsPopped(base, st.stack);
    } else if st.pc == At(CallCc2) {
      SecondCapture(cfg, st);
    } else if st.pc == Block.CallCc {
      if st.r1.Pair? {
        var mid := st.(conts := st.conts + [st.stack]);
        assert Standing(base, earlier, mid);
        CallCcGrows(cfg, st);
        if Step(cfg, st).Running? {
          StandsGrown(base, st.stack, Step(cfg, st).stack);
        }
      }
    } else {
      OtherGrows(cfg, st);
      if Step(cfg, st).Running? {
        StandsGrown(base, st.stack, Step(cfg, st).stack);
      }
    }
  }

  lemma StackNotEmpty(base: seq<Frame>, s: seq<Frame>)
    requires Stands(base, s)
    ensures s != []
  {
  }

  lemma CallCcGrows(cfg: Config, st: State)
    requires st.Running? && st.pc == Block.CallCc
    ensures Step(cfg, st).Running? ==>
      Step(cfg, st).conts == st.conts + [st.stack] && Grows(st.stack, Step(cfg, st).stack)
    ensures !Step(cfg, st).Halted?
  {
  }

  /** No step of the run applies a continuation that takes it elsewhere. */
  ghost predicate NeverLeaves(cfg: Config, base: seq<Frame>, earlier: nat, n: nat, st: State) {
    n == 0 || (st.Running? && !Leaves(base, earlier, st) && NeverLeaves(cfg, base, earlier, n - 1, Step(cfg, st)))
  }

  ghost predicate AlwaysStands(cfg: Config, base: seq<Frame>, earlier: nat, n: nat, st: State) {
    && (st.Running? ==> Standing(base, earlier, st))
    && (n == 0 || (st.Running? && AlwaysStands(cfg, base, earlier, n - 1, Step(cfg, st))))
  }

  /** Frames below the entry frame stay as they are, and below all that is
      captured, exactly as long as no continuation from before is applied. */
  lemma {:induction false} BaseUntouched(cfg: Config, base: seq<Frame>, earlier: nat, n: nat, st: State, st': State)
    requires st.Running? && GoodState(st) && Standing(base, earlier, st) && Reaches(cfg, n, st, 0, st')
    ensures NeverLeaves(cfg, base, earlier, n, st) <==> AlwaysStands(cfg, base, earlier, n, st)
    ensures NeverLeaves(cfg, base, earlier, n, st) && st'.Running? ==> Standing(base, earlier, st')
    ensures NeverLeaves(cfg, base, earlier, n, st) && st'.Halted? ==> st'.left == base
    decreases n
  {
    hide Step, GoodState, Standing, Leaves;
    if n > 0 {
      var next := Step(cfg, st);
      StepGood(cfg, st);
      StandingStep(cfg, base, earlier, st);
      if next.Running? {
        if Standing(base, earlier, next) {
          BaseUntouched(cfg, base, earlier, n - 1, next, st');
        }
      } else {
        assert n == 1 && NeverLeaves(cfg, base, earlier, 0, next);
        HaltsStanding(cfg, base, earlier, st);
      }
    }
  }

  lemma StepGood(cfg: Config, st: State)
    requires st.Running? && GoodState(st)
    ensures Step(cfg, st).Running? ==> GoodState(Step(cfg, st))
  {
    hide Step;
    StepKeeps(cfg, st);
  }

  /** A step that ends the run applies no continuation. */
  lemma HaltsStanding(cfg: Config, base: seq<Frame>, earlier: nat, st: State)
    requires st.Running? && !Step(cfg, st).Running?
    ensures !Leaves(base, earlier, st)
  {
  }

  lemma {:induction false} NothingEarlier(cfg: Config, base: seq<Frame>, n: nat, st: State, st': State)
    requires Reaches(cfg, n, st, 0, st')
    ensures NeverLeaves(cfg, base, 0, n, st)
  {
    hide Step;
    if n > 0 {
      NothingEarlier(cfg, base, n - 1, Step(cfg, st), st');
    }
  }

  /** Applying a captured continuation, at any later time and however often,
      puts back the frames that call/cc saw, and returns the argument to them. */
  lemma ContinuationReturns(cfg: Config, at: State, n: nat, later: State, v: Value, rest: Value)
    requires at.Running? && GoodState(at) && at.pc == Block.CallCc && at.stack != [] && Step(cfg, at).Running?
    requires Reaches(cfg, n, Step(cfg, at), 0, later) && later.Running? && later.pc == At(Apply) && later.stack != []
    requires later.r1 == Pair(Continuation(|at.conts|), Pair(v, rest))
    ensures Step(cfg, later).Running? && Step(cfg, later).pc == At(Return)
    ensures Step(cfg, Step(cfg, later)) == Resume(v, at.stack, later.conts)
  {
    hide GoodState, Step, Resume;
    Captured(cfg, at, n, later);
    ContinuationApplied(cfg, later, |at.conts|, v, rest);
  }

  lemma ContinuationApplied(cfg: Config, st: State, id: nat, v: Value, rest: Value)
    requires st.Running? && st.pc == At(Apply) && st.stack != [] && st.r1 == Pair(Continuation(id), Pair(v, rest))
    requires id < |st.conts| && st.conts[id] != []
    ensures Step(cfg, st).Running? && Step(cfg, st).pc == At(Return)
    ensures Step(cfg, Step(cfg, st)) == Resume(v, st.conts[id], st.conts)
  {
    hide Resume;
  }

  /** What call/cc captured is what the run has for it ever after. */
  lemma Captured(cfg: Config, at: State, n: nat, later: State)
    requires at.Running? && GoodState(at) && at.pc == Block.CallCc && Step(cfg, at).Running?
    requires Reaches(cfg, n, Step(cfg, at), 0, later) && later.Running?
    ensures GoodState(later) && |at.conts| < |later.conts| && later.conts[|at.conts|] == at.stack
  {
    CallCcGrows(cfg, at);
    hide GoodState, Step;
    StepKeeps(cfg, at);
    RunKeeps(cfg, n, Step(cfg, at), later);
  }

  /** The receiver of call/cc returning normally does the same. */
  lemma ReceiverReturns(cfg: Config, at: State, n: nat, later: State)
    requires at.Running? && GoodState(at) && at.pc == Block.CallCc && Step(cfg, at).Running?
    requires Reaches(cfg, n, Step(cfg, at), 0, later) && later.Running? && later.pc == At(CallCc2)
    requires later.r2 == Continuation(|at.conts|)
    ensures Step(cfg, later).Running? && Step(cfg, later).pc == At(Return)
    ensures Step(cfg, Step(cfg, later)) == Resume(later.r1, at.stack, later.conts)
  {
    Captured(cfg, at, n, later);
    SecondCapture(cfg, later);
  }
}
