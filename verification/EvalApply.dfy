/** The interpreter loop over its own stack: an array of slots that is used from
    the end down, five slots a frame. */
module EvalApply {
  import opened Values
  import opened Machine
  import opened Evaluator
  import opened Refinement
  import opened Theorems
  import opened Continuations

  const FRAME_SIZE := 5
  const FRAME_PROCEDURE := 4

  /** How a block of code, or a run, ends. */
  datatype Verdict = Proceeds | Returned(value: Value) | Aborted(error: Error) | Strayed

  /** The frames in the used part of the stack, the uppermost last. */
  function Frames(s: seq<Value>): (f: seq<Frame>)
    ensures |f| == |s| / FRAME_SIZE
  {
    if |s| < FRAME_SIZE then []
    else Frames(s[FRAME_SIZE..]) + [Frame(s[3], s[2], s[1], s[0], s[FRAME_PROCEDURE])]
  }

  function CopiedFrames(saved: seq<seq<Value>>): (f: seq<seq<Frame>>)
    ensures |f| == |saved|
    ensures forall i :: 0 <= i < |f| ==> f[i] == Frames(saved[i])
  {
    seq(|saved|, i requires 0 <= i < |saved| => Frames(saved[i]))
  }

  /** Whole frames, no more than fit. */
  predicate Whole(n: int, length: int) {
    0 <= n <= length && n % FRAME_SIZE == 0
  }

  predicate AllWhole(saved: seq<seq<Value>>, length: int) {
    forall i :: 0 <= i < |saved| ==> Whole(|saved[i]|, length)
  }

  lemma PushedSlots(was: seq<Value>, now: seq<Value>)
    requires |now| == |was| + FRAME_SIZE && now[FRAME_SIZE..] == was
    ensures Frames(now) == Frames(was) + [Frame(now[3], now[2], now[1], now[0], now[FRAME_PROCEDURE])]
  {
  }

  lemma TopSlots(s: seq<Value>)
    requires FRAME_SIZE <= |s|
    ensures Frames(s) != [] && Below(Frames(s)) == Frames(s[FRAME_SIZE..])
    ensures Top(Frames(s)) == Frame(s[3], s[2], s[1], s[0], s[FRAME_PROCEDURE])
  {
  }

  lemma NoSlots(s: seq<Value>)
    requires |s| < FRAME_SIZE
    ensures Frames(s) == []
  {
  }

  lemma {:induction false} FramesInjective(s: seq<Value>, t: seq<Value>)
    requires |s| % FRAME_SIZE == 0 && |t| % FRAME_SIZE == 0 && Frames(s) == Frames(t)
    ensures s == t
    decreases |s|
  {
    hide Frames;
    assert |s| / FRAME_SIZE == |t| / FRAME_SIZE;
    assert |s| == |t|;
    if |s| >= FRAME_SIZE {
      TopSlots(s);
      TopSlots(t);
      FramesInjective(s[FRAME_SIZE..], t[FRAME_SIZE..]);
      FirstSlots(s);
      FirstSlots(t);
    }
  }

  lemma FirstSlots(s: seq<Value>)
    requires FRAME_SIZE <= |s|
    ensures s == [s[0], s[1], s[2], s[3], s[FRAME_PROCEDURE]] + s[FRAME_SIZE..]
  {
  }

  /** The state that a run ends in, if it ends. */
  predicate EndsAs(v: Verdict, end: State) {
    match v
    case Proceeds => true
    case Returned(x) => end.Halted? && end.value == x
    case Aborted(e) => end == Failed(e)
    case Strayed => end == Off
  }

  /** What the run of an application comes to, by what the evaluator says. */
  ghost predicate Agrees(cfg: Config, budget: nat, v: Verdict, r: Result, fuel: nat, depth: nat) {
    && (r.Val? && depth + r.height <= cfg.capacity ==> v == Returned(r.value) || v.Proceeds?)
    && (r.Err? ==> v.Aborted? || v.Proceeds?)
    && (v.Returned? && fuel > budget ==> r.Beyond? || (r.Val? && r.value == v.value))
  }

  /** A run that returned what the evaluator says has left the frames below the
      entry frame, and the captured ones, as they were. */
  ghost predicate LeavesAsWas(st: State, end: State, v: Verdict, r: Result)
    requires st.Running? && st.stack != []
  {
    v.Returned? && r.Val? ==> end == Halted(r.value, Below(st.stack), st.conts)
  }

  lemma RunAgrees(cfg: Config, budget: nat, n: nat, v: Verdict, st: State, end: State, fuel: nat, r: Result)
    requires st.Running? && st.stack != [] && Top(st.stack).r3 == Unspecified
    requires Outcome(cfg, st, st.stack, st.conts, fuel, r)
    requires n <= budget && Reaches(cfg, n, st, 0, end) && EndsAs(v, end)
    ensures Agrees(cfg, budget, v, r, fuel, |st.stack|)
    ensures LeavesAsWas(st, end, v, r)
  {
    hide Step;
    hide Reaches;
    var s := st.stack;
    if !v.Proceeds? {
      if r.Val? && Goes(cfg, st, |s|, Resume(r.value, s, st.conts)) {
        var m :| Reaches(cfg, m, st, |s|, Resume(r.value, s, st.conts));
        Lower(cfg, m, st, |s|, Resume(r.value, s, st.conts));
        Deterministic(cfg, n, m, st, 0, end, Resume(r.value, s, st.conts));
      } else if Fails(cfg, st, |s|) {
        WeakFails(cfg, st, |s|, 0);
        var e :| Goes(cfg, st, 0, Failed(e));
        var m :| Reaches(cfg, m, st, 0, Failed(e));
        Deterministic(cfg, n, m, st, 0, end, Failed(e));
      } else if r.Fuel? {
        var m, far :| m >= fuel && Reaches(cfg, m, st, |s|, far);
        Lower(cfg, m, st, |s|, far);
        Deterministic(cfg, n, m, st, 0, end, far);
      }
    }
  }

  lemma {:induction false} Lower(cfg: Config, n: nat, a: State, d: nat, b: State)
    requires Reaches(cfg, n, a, d, b)
    ensures Reaches(cfg, n, a, 0, b)
  {
    hide Step;
    if n > 0 {
      Lower(cfg, n - 1, Step(cfg, a), d, b);
    }
  }

  lemma CallAgrees(cfg: Config, budget: nat, n: nat, v: Verdict, st: State, end: State, f: Value, x: Value, a: Value)
    requires st.Running? && st.pc == At(Apply) && st.r0 == a && st.r1 == Pair(f, x)
    requires st.stack != [] && Top(st.stack).r3 == Unspecified
    requires n <= budget && Reaches(cfg, n, st, 0, end) && EndsAs(v, end)
    ensures forall fuel: nat :: Agrees(cfg, budget, v, ApplyTo(cfg, fuel, f, x, a), fuel, |st.stack|)
    ensures forall fuel: nat :: LeavesAsWas(st, end, v, ApplyTo(cfg, fuel, f, x, a))
  {
    hide *;
    forall fuel: nat
      ensures Agrees(cfg, budget, v, ApplyTo(cfg, fuel, f, x, a), fuel, |st.stack|)
      ensures LeavesAsWas(st, end, v, ApplyTo(cfg, fuel, f, x, a))
    {
      ApplySim(cfg, fuel, f, x, a, st);
      RunAgrees(cfg, budget, n, v, st, end, fuel, ApplyTo(cfg, fuel, f, x, a));
    }
  }

  /** Without room for the first frame nothing is evaluated. */
  lemma NoRoom(cfg: Config, budget: nat, depth: nat, f: Value, x: Value, a: Value)
    requires depth >= cfg.capacity
    ensures forall fuel: nat ::
      Agrees(cfg, budget, Aborted(StackFull), ApplyTo(cfg, fuel, f, x, a), fuel, depth + 1)
  {
    hide ApplyTo;
  }

  ghost predicate EndsWithin(cfg: Config, st: State, n: nat) {
    forall k: nat, end :: Reaches(cfg, k, st, 0, end) ==> k <= n
  }

  /** What the evaluator gives a value for is done after so many steps. */
  lemma EnoughSteps(cfg: Config, fuel: nat, f: Value, x: Value, a: Value, st: State)
    requires st.Running? && st.pc == At(Apply) && st.r0 == a && st.r1 == Pair(f, x)
    requires st.stack != [] && Top(st.stack).r3 == Unspecified
    requires ApplyTo(cfg, fuel, f, x, a).Val?
    requires |st.stack| + ApplyTo(cfg, fuel, f, x, a).height <= cfg.capacity
    ensures exists n: nat :: EndsWithin(cfg, st, n)
  {
    hide Step;
    hide ApplyTo;
    hide Reaches;
    var r := ApplyTo(cfg, fuel, f, x, a);
    ApplySim(cfg, fuel, f, x, a, st);
    var n :| Reaches(cfg, n, st, |st.stack|, Resume(r.value, st.stack, st.conts));
    var last := Resume(r.value, st.stack, st.conts);
    Lower(cfg, n, st, |st.stack|, last);
    forall k: nat, end | Reaches(cfg, k, st, 0, end) ensures k <= n {
      Deterministic(cfg, n, k, st, 0, last, end);
    }
    assert EndsWithin(cfg, st, n);
  }

  class Vm {
    const cfg: Config
    const slots: array<Value>
    var sp: int
    var pc: Block
    var r0: Value
    var r1: Value
    var r2: Value
    var r3: Value
    // What the vectors behind the continuations hold.
    var saved: seq<seq<Value>>

    ghost predicate Valid()
      reads `sp, `saved
    {
      && cfg.capacity == slots.Length / FRAME_SIZE
      && 0 <= sp <= slots.Length && Whole(slots.Length - sp, slots.Length)
      && AllWhole(saved, slots.Length)
    }

    ghost function Used(): seq<Value>
      requires 0 <= sp <= slots.Length
      reads `sp, slots
    {
      slots[sp..]
    }

    /** The state of the machine that the fields stand for. */
    ghost function State(): State
      requires 0 <= sp <= slots.Length
      reads this, slots
    {
      Running(pc, r0, r1, r2, r3, Frames(Used()), CopiedFrames(saved))
    }

    /** The block did the step to `st`. */
    ghost predicate Does(v: Verdict, st: State)
      reads this, slots
    {
      match v
      case Proceeds => Valid() && State() == st
      case Returned(x) => Valid() && st == Halted(x, Frames(Used()), CopiedFrames(saved))
      case Aborted(e) => st == Failed(e)
      case Strayed => st == Off
    }

    constructor (cfg: Config, size: nat)
      requires cfg.capacity == size / FRAME_SIZE
      ensures this.cfg == cfg && Valid() && Sound() && Used() == [] && saved == []
    {
      this.cfg := cfg;
      slots := new Value[size](_ => Nil);
      sp := size;
      pc := At(Return);
      r0, r1, r2, r3 := Nil, Nil, Nil, Nil;
      saved := [];
    }

    method GcPushFrame() returns (ok: bool)
      requires Valid()
      modifies this`sp, slots
      ensures ok == (|Frames(old(Used()))| < cfg.capacity)
      ensures Valid()
      ensures !ok ==> sp == old(sp) && slots[..] == old(slots[..])
      ensures ok ==> sp == old(sp) - FRAME_SIZE && Used() == [r3, r2, r1, r0, False] + old(Used())
    {
      hide AllWhole;
      hide Frames;
      if sp < FRAME_SIZE {
        return false;
      }
      slots[sp - 1] := False;
      slots[sp - 2] := r0;
      slots[sp - 3] := r1;
      slots[sp - 4] := r2;
      slots[sp - 5] := r3;
      sp := sp - FRAME_SIZE;
      ok := true;
    }

    method GcPeekFrame()
      requires Valid() && FRAME_SIZE <= slots.Length - sp
      modifies this`r0, this`r1, this`r2, this`r3
      ensures Top(Frames(Used())) == Frame(r0, r1, r2, r3, slots[sp + FRAME_PROCEDURE])
    {
      r3 := slots[sp];
      r2 := slots[sp + 1];
      r1 := slots[sp + 2];
      r0 := slots[sp + 3];
      TopSlots(Used());
    }

    method GcPopFrame()
      requires Valid() && FRAME_SIZE <= slots.Length - sp
      modifies this`sp, this`r0, this`r1, this`r2, this`r3
      ensures Valid() && Frames(Used()) == Below(old(Frames(Used())))
      ensures Top(old(Frames(Used()))) == Frame(r0, r1, r2, r3, old(slots[sp + FRAME_PROCEDURE]))
    {
      GcPeekFrame();
      TopSlots(Used());
      sp := sp + FRAME_SIZE;
      assert Used() == old(Used())[FRAME_SIZE..];
    }

    method PushCc(p1: Value, p2: Value, a: Value, c: Label, to: Block) returns (v: Verdict)
      requires Valid()
      modifies this, slots
      ensures Does(v, Machine.PushCc(cfg, old(State()), p1, p2, a, c, to))
    {
      hide Frames, CopiedFrames, AllWhole;
      var x := r3;
      ghost var was := Used();
      r3 := Special(c);
      r2 := p2;
      var ok := GcPushFrame();
      if !ok {
        return Aborted(StackFull);
      }
      assert Used()[FRAME_SIZE..] == was;
      PushedSlots(was, Used());
      r1 := p1;
      r0 := a;
      r3 := x;
      pc := to;
      v := Proceeds;
    }

    method Evlis() returns (v: Verdict)
      requires Valid()
      modifies this, slots
      ensures Does(v, StepEvlis(cfg, old(State())))
    {
      if r1 == Nil {
        pc := At(Return);
        return Proceeds;
      }
      if !r1.Pair? {
        pc := At(Label.Eval);
        return Proceeds;
      }
      v := PushCc(r1.car, r1, r0, Evlis2, At(Label.Eval));
    }

    method EvlisRest() returns (v: Verdict)
      requires Valid() && pc == At(Evlis2)
      modifies this, slots
      ensures Does(v, Step(cfg, old(State())))
    {
      if !r2.Pair? {
        return Strayed;
      }
      v := PushCc(r2.cdr, r1, r0, Evlis3, At(Label.Evlis));
    }

    /** Where the values of a call are put together. */
    method EvlisDone() returns (v: Verdict)
      requires Valid() && pc == At(Evlis3)
      modifies this`pc, this`r1
      ensures Does(v, Step(cfg, old(State())))
    {
      r1 := Pair(r2, r1);
      pc := At(Return);
      v := Proceeds;
    }

    method SetProcedure(p: Value)
      requires Valid() && FRAME_SIZE <= slots.Length - sp
      modifies slots
      ensures State() == Machine.SetProcedure(old(State()), p) && slots[sp + FRAME_PROCEDURE] == p
    {
      ghost var was := Used();
      TopSlots(was);
      slots[sp + FRAME_PROCEDURE] := p;
      TopSlots(Used());
      assert Used()[FRAME_SIZE..] == was[FRAME_SIZE..];
      ghost var f := Frames(Used());
      assert f == Below(f) + [Top(f)];
    }

    /** Puts the slots of a continuation back. */
    method Reinstate(s: seq<Value>)
      requires Valid() && Whole(|s|, slots.Length)
      modifies this`sp, slots
      ensures Valid() && Used() == if s == [] then old(Used()) else s
    {
      if |s| != 0 {
        var i := 0;
        while i < |s|
          invariant 0 <= i <= |s|
          invariant forall k :: 0 <= k < i ==> slots[slots.Length - |s| + k] == s[k]
        {
          slots[slots.Length - |s| + i] := s[i];
          i := i + 1;
        }
        sp := slots.Length - |s|;
        assert Used() == s;
      }
    }

    /** A copy of the used part of the stack. */
    method Capture() returns (s: seq<Value>)
      requires Valid()
      ensures s == Used()
    {
      s := [];
      var i := sp;
      while i < slots.Length
        invariant sp <= i <= slots.Length
        invariant s == slots[sp..i]
      {
        s := s + [slots[i]];
        i := i + 1;
      }
    }

    /** Enters the body of a lambda. */
    method CallLambda(body: Value, bindings: Answer<Value>) returns (v: Verdict)
      requires Valid()
      modifies this`pc, this`r0, this`r1
      ensures Does(v, Enter(old(State()), body, bindings))
    {
      match bindings {
        case Good(p) =>
          r1 := body;
          r0 := Scope(p);
          pc := At(Label.Begin);
          return Proceeds;
        case Bad(e) =>
          return Aborted(e);
        case Outside =>
          return Strayed;
      }
    }

    method Answer(a: Answer<Value>) returns (v: Verdict)
      requires Valid()
      modifies this`pc, this`r1
      ensures Does(v, Answered(old(State()), a))
    {
      match a {
        case Good(x) =>
          r1 := x;
          pc := At(Return);
          return Proceeds;
        case Bad(e) =>
          return Aborted(e);
        case Outside =>
          return Strayed;
      }
    }

    /** The procedure of the frame on top is the one that is applied. */
    ghost predicate Noted(fn: Value, args: Value)
      reads `sp, `r1, slots
    {
      && FRAME_SIZE <= slots.Length - sp && 0 <= sp
      && r1 == Pair(fn, args) && slots[sp + FRAME_PROCEDURE] == fn
    }

    lemma NotedTwice(fn: Value, args: Value)
      requires Valid() && Noted(fn, args)
      ensures Frames(Used()) != [] && Machine.SetProcedure(State(), fn) == State()
      ensures State().Running? && State().r1 == Pair(fn, args)
    {
      TopSlots(Used());
      ghost var f := Frames(Used());
      assert f == Below(f) + [Top(f)];
    }

    /** The primitives that the interpreter runs in its own loop. */
    method ApplySpecial(c: Label, args: Value) returns (v: Verdict)
      requires Valid() && Noted(Special(c), args)
      modifies this, slots
      ensures Does(v, StepApply(cfg, old(State())))
    {
      NotedTwice(Special(c), args);
      if c == Apply || c == Label.Eval {
        if !args.Pair? || !args.cdr.Pair? {
          return Strayed;
        }
        if c == Apply {
          v := PushCc(Pair(args.car, args.cdr.car), r1, r0, Return, At(Apply));
        } else {
          v := PushCc(args.car, r1, args.cdr.car, Return, At(Label.Eval));
        }
      } else if c == BeginExpand {
        v := Strayed;
      } else {
        v := Aborted(WrongTypeArg);
      }
    }

    method ApplyProcedure(fn: Value, args: Value) returns (v: Verdict)
      requires Valid() && Noted(fn, args)
      requires fn.Builtin? || fn.Closure?
      modifies this, slots
      ensures Does(v, StepApply(cfg, old(State())))
    {
      NotedTwice(fn, args);
      match fn {
        case Builtin(name, arity) =>
          if !CountFits(arity, args) {
            return Aborted(WrongNumberOfArgs);
          }
          v := Answer(ApplyBuiltin(cfg, name, arity, args));
        case Closure(formals, body, env) =>
          if !env.Pair? {
            return Strayed;
          }
          if !FormalsFit(formals, args) {
            return Aborted(WrongNumberOfArgs);
          }
          v := CallLambda(body, Pairlis(formals, args, env.cdr));
      }
    }

    lemma SavedFrames(id: nat)
      requires Valid() && id < |saved|
      ensures Whole(|saved[id]|, slots.Length)
      ensures CopiedFrames(saved)[id] == Frames(saved[id]) && (Frames(saved[id]) == [] <==> saved[id] == [])
    {
    }

    /** The slots of continuation `id` are back, if there are any. */
    lemma ContinuationDone(st: State, was: seq<Value>, id: nat, args: Value)
      requires Valid() && st.Running? && st.r1 == Pair(Continuation(id), args) && args.Pair? && id < |saved|
      requires st.stack == Frames(was) && st.stack != [] && st.conts == CopiedFrames(saved)
      requires Machine.SetProcedure(st, Continuation(id)) == st
      requires pc == At(Return) && r0 == st.r0 && r1 == args.car && r2 == st.r2 && r3 == st.r3
      requires Used() == if saved[id] == [] then was else saved[id]
      ensures Does(Proceeds, StepApply(cfg, st))
    {
      SavedFrames(id);
      hide Frames, CopiedFrames, AllWhole;
    }

    method ApplyContinuation(id: nat, args: Value) returns (v: Verdict)
      requires Valid() && Noted(Continuation(id), args)
      modifies this, slots
      ensures Does(v, StepApply(cfg, old(State())))
    {
      hide *;
      UsedWhole();
      NotedTwice(Continuation(id), args);
      ghost var st, was := State(), Used();
      if id >= |saved| || !args.Pair? {
        ContinuationStrays(st, id, args);
        return Strayed;
      }
      SavedFrames(id);
      Reinstate(saved[id]);
      r1 := args.car;
      pc := At(Return);
      ContinuationDone(st, was, id, args);
      v := Proceeds;
    }

    lemma ContinuationStrays(st: State, id: nat, args: Value)
      requires Valid() && st == State() && st.r1 == Pair(Continuation(id), args) && (id >= |saved| || !args.Pair?)
      ensures Does(Strayed, StepApply(cfg, st))
    {
    }

    method ApplyLambda(fn: Value, args: Value) returns (v: Verdict)
      requires Valid() && Noted(fn, args) && fn.Pair? && fn.car == Sym(Lambda)
      modifies this, slots
      ensures Does(v, StepApply(cfg, old(State())))
    {
      NotedTwice(fn, args);
      if !fn.cdr.Pair? {
        return Strayed;
      }
      var p := Pairlis(fn.cdr.car, args, r0);
      if p.Good? && !FormalsFit(fn.cdr.car, args) {
        return Aborted(WrongNumberOfArgs);
      }
      v := CallLambda(fn.cdr.cdr, p);
    }

    method ApplyForm(fn: Value, args: Value) returns (v: Verdict)
      requires Valid() && Noted(fn, args)
      requires fn.Sym? || fn.Pair?
      modifies this, slots
      ensures Does(v, StepApply(cfg, old(State())))
    {
      hide Frames, CopiedFrames, AllWhole;
      NotedTwice(fn, args);
      if fn == Sym(Symbol.CallCc) {
        r1 := args;
        pc := Machine.Block.CallCc;
        v := Proceeds;
      } else if fn == Sym(Symbol.CallWithValues) {
        r1 := args;
        pc := Machine.Block.CallWithValues;
        v := Proceeds;
      } else if fn == Sym(CurrentEnvironment) {
        r1 := r0;
        pc := At(Return);
        v := Proceeds;
      } else if fn.Pair? && fn.car == Sym(Lambda) {
        v := ApplyLambda(fn, args);
      } else {
        v := PushCc(fn, r1, r0, Apply2, At(Label.Eval));
      }
    }

    lemma ApplyNoted(st: State)
      requires st.Running? && st.r1.Pair? && st.stack != []
      ensures StepApply(cfg, Machine.SetProcedure(st, st.r1.car)) == StepApply(cfg, st)
    {
      var mid := Machine.SetProcedure(st, st.r1.car);
      assert Machine.SetProcedure(mid, st.r1.car) == mid;
    }

    method ApplyAny(fn: Value, args: Value) returns (v: Verdict)
      requires Valid() && Noted(fn, args)
      modifies this, slots
      ensures Does(v, StepApply(cfg, old(State())))
    {
      if fn.Builtin? || fn.Closure? {
        v := ApplyProcedure(fn, args);
      } else if fn.Continuation? {
        v := ApplyContinuation(fn.id, args);
      } else if fn.Special? {
        v := ApplySpecial(fn.place, args);
      } else if fn.Sym? || fn.Pair? {
        v := ApplyForm(fn, args);
      } else {
        NotedTwice(fn, args);
        if Constant(fn) {
          v := Aborted(WrongTypeArg);
        } else {
          v := PushCc(fn, r1, r0, Apply2, At(Label.Eval));
        }
      }
    }

    method ApplyBlock() returns (v: Verdict)
      requires Valid()
      modifies this, slots
      ensures Does(v, StepApply(cfg, old(State())))
    {
      if !r1.Pair? || slots.Length - sp < FRAME_SIZE {
        return Strayed;
      }
      var fn, args := r1.car, r1.cdr;
      ApplyNoted(State());
      SetProcedure(fn);
      v := ApplyAny(fn, args);
    }

    method ApplyTwo() returns (v: Verdict)
      requires Valid()
      modifies this`pc, this`r1
      ensures Does(v, StepApply2(old(State())))
    {
      if !Applicable(r1) {
        return Aborted(WrongTypeArg);
      }
      if !r2.Pair? {
        return Strayed;
      }
      r1 := Pair(r1, r2.cdr);
      pc := At(Apply);
      v := Proceeds;
    }

    method Eval() returns (v: Verdict)
      requires Valid()
      modifies this, slots
      ensures Does(v, StepEval(cfg, old(State())))
    {
      if r1.Pair? {
        v := EvalForm(r1.car, r1.cdr);
      } else if r1.Sym? {
        var s := r1.sym;
        if s == CurrentEnvironment || s == Symbol.Begin || s == Symbol.CallCc {
          pc := At(Return);
          return Proceeds;
        }
        v := Answer(Lookup(cfg, s, r0));
      } else if r1.Binding? {
        v := Strayed;
      } else {
        pc := At(Return);
        v := Proceeds;
      }
    }

    method EvalForm(c: Value, rest: Value) returns (v: Verdict)
      requires Valid() && r1 == Pair(c, rest)
      modifies this, slots
      ensures Does(v, StepEval(cfg, old(State())))
    {
      hide Frames, CopiedFrames, AllWhole;
      if c == Sym(Quote) {
        if !rest.Pair? {
          return Strayed;
        }
        r1 := rest.car;
        pc := At(Return);
        v := Proceeds;
      } else if c == Sym(Symbol.Begin) {
        pc := At(Label.Begin);
        v := Proceeds;
      } else if c == Sym(Lambda) {
        if !rest.Pair? {
          return Strayed;
        }
        r1 := Closure(rest.car, rest.cdr, r0);
        pc := At(Return);
        v := Proceeds;
      } else if c == Sym(Symbol.If) {
        r1 := rest;
        pc := At(Label.If);
        v := Proceeds;
      } else if SpecialForm(c) {
        v := Strayed;
      } else {
        v := PushCc(c, r1, r0, EvalCheckFunc, At(Label.Eval));
      }
    }

    /** The operator has been evaluated; its value is not looked at. */
    method EvalCheckFuncBlock() returns (v: Verdict)
      requires Valid()
      modifies this, slots
      ensures Does(v, StepEvalCheckFunc(cfg, old(State())))
    {
      if !r2.Pair? {
        return Strayed;
      }
      v := PushCc(r2.cdr, r2, r0, Eval2, At(Label.Evlis));
    }

    method EvalTwo() returns (v: Verdict)
      requires Valid()
      modifies this`pc, this`r1
      ensures Does(v, StepEval2(old(State())))
    {
      if !r2.Pair? {
        return Strayed;
      }
      r1 := Pair(r2.car, r1);
      pc := At(Apply);
      v := Proceeds;
    }

    method Begin() returns (v: Verdict)
      requires Valid()
      modifies this, slots
      ensures Does(v, StepBegin(cfg, old(State())))
    {
      if r1 == Nil {
        r1 := Unspecified;
        pc := At(Return);
        return Proceeds;
      }
      if !r1.Pair? {
        return Strayed;
      }
      if IsBegin(r1.car) {
        var forms := r1.car.cdr;
        if forms != Nil && !forms.Pair? {
          return Aborted(NotAPair);
        }
        if !IsList(forms) {
          return Strayed;
        }
        r1 := Append(forms, r1.cdr);
      }
      v := BeginForm();
    }

    method BeginForm() returns (v: Verdict)
      requires Valid()
      modifies this, slots
      ensures Does(v, BeginFirst(cfg, old(State())))
    {
      if !r1.Pair? {
        return Strayed;
      }
      if r1.cdr == Nil {
        r1 := r1.car;
        pc := At(Label.Eval);
        return Proceeds;
      }
      v := PushCc(r1.car, r1, r0, BeginEval, At(Label.Eval));
    }

    method BeginEvalBlock() returns (v: Verdict)
      requires Valid()
      modifies this`pc, this`r1
      ensures Does(v, StepBeginEval(old(State())))
    {
      if !r2.Pair? {
        return Strayed;
      }
      if r2.cdr == Nil {
        pc := At(Return);
      } else {
        r1 := r2.cdr;
        pc := At(Label.Begin);
      }
      v := Proceeds;
    }

    method VmIf() returns (v: Verdict)
      requires Valid()
      modifies this, slots
      ensures Does(v, StepIf(cfg, old(State())))
    {
      if !r1.Pair? {
        return Strayed;
      }
      v := PushCc(r1.car, r1, r0, IfExpr, At(Label.Eval));
    }

    method IfExprBlock() returns (v: Verdict)
      requires Valid()
      modifies this`pc, this`r1
      ensures Does(v, StepIfExpr(old(State())))
    {
      if !r2.Pair? || !r2.cdr.Pair? {
        return Strayed;
      }
      var x := r1;
      if x != False {
        r1 := r2.cdr.car;
        pc := At(Label.Eval);
      } else if r2.cdr.cdr == Nil {
        r1 := Unspecified;
        pc := At(Return);
      } else if r2.cdr.cdr.Pair? {
        r1 := r2.cdr.cdr.car;
        pc := At(Label.Eval);
      } else {
        return Strayed;
      }
      v := Proceeds;
    }

    method CallCc() returns (v: Verdict)
      requires Valid()
      modifies this, slots
      ensures Does(v, StepCallCc(cfg, old(State())))
    {
      if !r1.Pair? {
        return Strayed;
      }
      ghost var st := State();
      var x := Continuation(|saved|);
      var s := Capture();
      saved := saved + [s];
      assert CopiedFrames(saved) == st.conts + [st.stack];
      v := PushCc(Pair(r1.car, List(x)), x, r0, CallCc2, At(Apply));
    }

    method CallCcTwo() returns (v: Verdict)
      requires Valid()
      modifies this`pc, this`saved
      ensures Does(v, StepCallCc2(old(State())))
    {
      if !r2.Continuation? || r2.id >= |saved| {
        return Strayed;
      }
      ghost var st := State();
      var s := Capture();
      saved := saved[r2.id := s];
      assert CopiedFrames(saved) == st.conts[r2.id := st.stack];
      pc := At(Return);
      v := Proceeds;
    }

    method CallWithValues() returns (v: Verdict)
      requires Valid()
      modifies this, slots
      ensures Does(v, StepCallWithValues(cfg, old(State())))
    {
      if !r1.Pair? {
        return Strayed;
      }
      v := PushCc(List(r1.car), r1, r0, CallWithValues2, At(Apply));
    }

    method CallWithValuesTwo() returns (v: Verdict)
      requires Valid()
      modifies this`pc, this`r1
      ensures Does(v, StepCallWithValues2(old(State())))
    {
      if r1.Multiple? {
        r1 := r1.list;
      } else {
        r1 := List(r1);
      }
      if !r2.Pair? || !r2.cdr.Pair? {
        return Strayed;
      }
      r1 := Pair(r2.cdr.car, r1);
      pc := At(Apply);
      v := Proceeds;
    }

    /** Pops the frame on top and goes on where it says. */
    method VmReturn() returns (v: Verdict)
      requires Valid()
      modifies this
      ensures Does(v, Resume(old(r1), old(State()).stack, old(State()).conts))
    {
      hide AllWhole, CopiedFrames, Frames;
      if slots.Length - sp < FRAME_SIZE {
        NoSlots(Used());
        return Strayed;
      }
      TopSlots(Used());
      var x := r1;
      GcPopFrame();
      r1 := x;
      match r3 {
        case Special(l) =>
          pc := At(l);
          v := Proceeds;
        case Unspecified =>
          v := Returned(r1);
        case _ =>
          v := Aborted(UnknownContinuation);
      }
    }

    /** One block of code. */
    method Block() returns (v: Verdict)
      requires Valid()
      modifies this, slots
      ensures Does(v, Step(cfg, old(State())))
    {
      match pc {
        case CallCc => v := CallCc();
        case CallWithValues => v := CallWithValues();
        case At(l) =>
          match l {
            case Evlis => v := Evlis();
            case Evlis2 => v := EvlisRest();
            case Evlis3 => v := EvlisDone();
            case Apply => v := ApplyBlock();
            case Apply2 => v := ApplyTwo();
            case Eval => v := Eval();
            case EvalCheckFunc => v := EvalCheckFuncBlock();
            case Eval2 => v := EvalTwo();
            case Begin => v := Begin();
            case BeginEval => v := BeginEvalBlock();
            case If => v := VmIf();
            case IfExpr => v := IfExprBlock();
            case CallCc2 => v := CallCcTwo();
            case CallWithValues2 => v := CallWithValuesTwo();
            case Return => v := VmReturn();
            case _ => v := Strayed;
          }
      }
    }

    /** The frames on the stack and those that are saved are good ones. */
    ghost predicate Sound()
      requires 0 <= sp <= slots.Length
      reads `sp, `saved, slots
    {
      GoodStack(CopiedFrames(saved), Frames(Used())) && GoodStacks(CopiedFrames(saved))
    }

    predicate Alive(v: Verdict) {
      v.Proceeds? || v.Returned?
    }

    /** Where a run of `n` blocks from `st` has come to. */
    ghost predicate Comes(v: Verdict, st: State, n: nat, end: State)
      reads this, slots
    {
      Does(v, end) && Reaches(cfg, n, st, 0, end)
    }

    /** A block more. */
    lemma OneMore(v: Verdict, st: State, n: nat, before: State, end: State)
      requires before.Running? && Reaches(cfg, n, st, 0, before)
      requires end == Step(cfg, before) && Does(v, end)
      ensures Comes(v, st, n + 1, end)
    {
      hide Step, Does;
      assert Reaches(cfg, 0, end, 0, end);
      assert Reaches(cfg, 1, before, 0, end);
      ReachesTrans(cfg, n, 1, st, 0, before, 0, end);
    }

    /** The loop, for at most `budget` blocks. */
    method Run(budget: nat) returns (v: Verdict, ghost n: nat, ghost end: State)
      requires Valid() && GoodState(State())
      modifies this, slots
      ensures n <= budget && (v.Proceeds? ==> n == budget)
      ensures Comes(v, old(State()), n, end) && v != Aborted(UnknownContinuation)
      ensures v.Proceeds? ==> Valid() && GoodState(State())
      ensures Alive(v) ==> Valid() && Sound() && old(saved) <= saved
    {
      hide Step, GoodState, Frames, GoodStack, GoodStacks, Does;
      ghost var st, was := State(), saved;
      var i := 0;
      v, end := Proceeds, st;
      RunStarts(st);
      while i < budget && v.Proceeds?
        invariant 0 <= i <= budget
        invariant Comes(v, st, i, end)
      {
        ProceedsTo(v, end);
        end := Step(cfg, end);
        ghost var before := State();
        v := Block();
        OneMore(v, st, i, before, end);
        i := i + 1;
      }
      n := i;
      RunSound(v, st, n, end, was);
    }

    /** Where `apply` starts the loop. */
    static ghost function Entry(st: State, f: Value, x: Value, a: Value): State
      requires st.Running?
    {
      Running(At(Apply), a, Pair(f, x), Unspecified, Special(Apply),
              st.stack + [Frame(st.r0, st.r1, Unspecified, Unspecified, False)], st.conts)
    }

    lemma EntryGood(st: State, f: Value, x: Value, a: Value)
      requires st.Running? && GoodStack(st.conts, st.stack) && GoodStacks(st.conts)
      ensures GoodState(Entry(st, f, x, a))
      ensures Standing(st.stack, |st.conts|, Entry(st, f, x, a))
    {
      Pushed(st.conts, st.stack, Frame(st.r0, st.r1, Unspecified, Unspecified, False));
      assert Entry(st, f, x, a).stack[..|st.stack|] == st.stack;
    }

    /** What the evaluator has a value for. */
    static ghost predicate HasValue(cfg: Config, f: Value, x: Value, a: Value) {
      exists fuel: nat :: ApplyTo(cfg, fuel, f, x, a).Val?
    }

    /** What a call comes to that began in the state `st`, with `was` in the used
        slots and `kept` captured.  The run ends with the value that the
        evaluator gives, and stack and captured stacks are slot for slot as they
        were; or it fails as the evaluator does; or the budget is used up.
        Whatever else the procedure does, the stack is as it was unless a
        continuation from before has been applied, and the loop can be entered
        again. */
    ghost predicate CallEnds(v: Verdict, n: nat, f: Value, x: Value, a: Value, budget: nat,
                             st: State, was: seq<Value>, kept: seq<seq<Value>>)
      requires st.Running?
      reads this, slots
    {
      && (v.Returned? ==> Valid() && Sound())
      && (v.Proceeds? ==> Valid() && GoodState(State()) && Reaches(cfg, budget, Entry(st, f, x, a), 0, State()))
      && (Alive(v) ==> kept <= saved)
      && v != Aborted(UnknownContinuation)
      && (forall fuel: nat :: Agrees(cfg, budget, v, ApplyTo(cfg, fuel, f, x, a), fuel, |st.stack| + 1))
      && (v.Returned? && HasValue(cfg, f, x, a) ==> Used() == was && saved == kept)
      && (v.Returned? && NeverLeaves(cfg, st.stack, |kept|, n, Entry(st, f, x, a)) ==> Used() == was)
      && (v.Returned? && kept == [] ==> Used() == was)
    }

    /** Calls a procedure from outside the loop, or from a builtin that the loop
        runs; also when there are continuations already. */
    method Call(f: Value, x: Value, a: Value, budget: nat) returns (v: Verdict, ghost n: nat)
      requires Valid() && Sound()
      modifies this, slots
      ensures CallEnds(v, n, f, x, a, budget, old(State()), old(Used()), old(saved))
    {
      ghost var st, was, kept := State(), Used(), saved;
      UsedWhole();
      hide *;
      var ok := EnterCall(f, x, a);
      if ok {
        v, n := Entered(f, x, a, budget, st, was, kept);
      } else {
        v, n := Aborted(StackFull), 0;
        CallFails(f, x, a, budget, st, was, kept);
      }
    }

    lemma CallFails(f: Value, x: Value, a: Value, budget: nat, st: State, was: seq<Value>, kept: seq<seq<Value>>)
      requires st.Running? && |st.stack| >= cfg.capacity
      ensures CallEnds(Aborted(StackFull), 0, f, x, a, budget, st, was, kept)
    {
      hide ApplyTo, Agrees;
      NoRoom(cfg, budget, |st.stack|, f, x, a);
    }

    /** The run that follows. */
    method Entered(f: Value, x: Value, a: Value, budget: nat,
                   ghost st: State, ghost was: seq<Value>, ghost kept: seq<seq<Value>>)
      returns (v: Verdict, ghost n: nat)
      requires st.Running? && st.stack == Frames(was) && st.conts == CopiedFrames(kept)
      requires |was| % FRAME_SIZE == 0 && AllWhole(kept, slots.Length) && saved == kept
      requires Valid() && State() == Entry(st, f, x, a) && GoodState(State())
      requires Standing(st.stack, |kept|, State())
      modifies this, slots
      ensures CallEnds(v, n, f, x, a, budget, st, was, kept)
    {
      UsedWhole();
      hide *;
      ghost var start := State();
      ghost var end;
      EntryFacts(st, f, x, a);
      v, n, end := Run(budget);
      CameTo(v, start, n, end);
      CallAgrees(cfg, budget, n, v, start, end, f, x, a);
      CallDone(f, x, a, budget, v, n, st, end, was, kept);
    }

    /** All that is known of a run, put together. */
    lemma CallDone(f: Value, x: Value, a: Value, budget: nat, v: Verdict, n: nat, st: State, end: State,
                   was: seq<Value>, kept: seq<seq<Value>>)
      requires st.Running? && st.stack == Frames(was) && st.conts == CopiedFrames(kept)
      requires GoodState(Entry(st, f, x, a)) && Standing(st.stack, |kept|, Entry(st, f, x, a))
      requires |was| % FRAME_SIZE == 0 && AllWhole(kept, slots.Length) && n <= budget
      requires Reaches(cfg, n, Entry(st, f, x, a), 0, end) && v != Aborted(UnknownContinuation)
      requires v.Proceeds? ==> Valid() && end == State() && GoodState(State()) && n == budget
      requires v.Returned? ==> Valid() && end == Halted(v.value, Frames(Used()), CopiedFrames(saved))
      requires Alive(v) ==> Valid() && Sound() && kept <= saved
      requires forall fuel: nat :: Agrees(cfg, budget, v, ApplyTo(cfg, fuel, f, x, a), fuel, |st.stack| + 1)
      requires forall fuel: nat :: LeavesAsWas(Entry(st, f, x, a), end, v, ApplyTo(cfg, fuel, f, x, a))
      ensures CallEnds(v, n, f, x, a, budget, st, was, kept)
    {
      hide Reaches, GoodState, Standing, NeverLeaves, ApplyTo, Frames, Agrees, Sound, AllWhole, Valid, HasValue;
      if v.Returned? {
        CallLeaves(f, x, a, v, n, st, end, was, kept);
      }
    }

    lemma UsedWhole()
      requires Valid()
      ensures 0 <= sp <= slots.Length && |Used()| % FRAME_SIZE == 0
      ensures State().Running? && State().stack == Frames(Used()) && |Frames(Used())| == |State().stack|
      ensures State().conts == CopiedFrames(saved) && AllWhole(saved, slots.Length)
      ensures State() == Running(pc, r0, r1, r2, r3, Frames(Used()), CopiedFrames(saved))
    {
    }

    lemma EntryFacts(st: State, f: Value, x: Value, a: Value)
      requires st.Running?
      ensures
        var e := Entry(st, f, x, a);
        && e.Running? && e.pc == At(Apply) && e.r0 == a && e.r1 == Pair(f, x)
        && |e.stack| == |st.stack| + 1 && e.stack != [] && Top(e.stack).r3 == Unspecified
        && Below(e.stack) == st.stack && e.conts == st.conts
    {
    }

    lemma CameTo(v: Verdict, st: State, n: nat, end: State)
      requires Comes(v, st, n, end)
      ensures Reaches(cfg, n, st, 0, end) && EndsAs(v, end)
      ensures v.Proceeds? ==> Valid() && end == State()
      ensures v.Returned? ==> Valid() && end == Halted(v.value, Frames(Used()), CopiedFrames(saved))
    {
    }

    lemma RunStarts(st: State)
      requires Valid() && st == State()
      ensures Comes(Proceeds, st, 0, st)
    {
    }

    lemma ProceedsTo(v: Verdict, end: State)
      requires v.Proceeds? && Does(v, end)
      ensures Valid() && end == State() && end.Running?
    {
    }

    /** A run from a good state ends in one. */
    lemma RunSound(v: Verdict, st: State, n: nat, end: State, was: seq<seq<Value>>)
      requires st.Running? && GoodState(st) && Comes(v, st, n, end)
      requires st.conts == CopiedFrames(was) && AllWhole(was, slots.Length)
      ensures v != Aborted(UnknownContinuation)
      ensures v.Proceeds? ==> Valid() && GoodState(State())
      ensures Alive(v) ==> Valid() && Sound() && was <= saved
    {
      hide Reaches, GoodStack, GoodStacks, GoodBlock, Frames;
      RunKeeps(cfg, n, st, end);
      CameTo(v, st, n, end);
      if Alive(v) {
        UsedWhole();
        SavedPrefix(was, saved, slots.Length);
      }
    }

    /** What a run that returned has left of the stack. */
    lemma CallLeaves(f: Value, x: Value, a: Value, v: Verdict, n: nat, st: State, end: State,
                     was: seq<Value>, kept: seq<seq<Value>>)
      requires st.Running? && st.stack == Frames(was) && st.conts == CopiedFrames(kept)
      requires GoodState(Entry(st, f, x, a)) && Standing(st.stack, |kept|, Entry(st, f, x, a))
      requires Valid() && |was| % FRAME_SIZE == 0 && AllWhole(kept, slots.Length) && v.Returned?
      requires Reaches(cfg, n, Entry(st, f, x, a), 0, end)
      requires end == Halted(v.value, Frames(Used()), CopiedFrames(saved))
      requires forall fuel: nat :: LeavesAsWas(Entry(st, f, x, a), end, v, ApplyTo(cfg, fuel, f, x, a))
      ensures HasValue(cfg, f, x, a) ==> Used() == was && saved == kept
      ensures NeverLeaves(cfg, st.stack, |kept|, n, Entry(st, f, x, a)) ==> Used() == was
      ensures kept == [] ==> Used() == was
    {
      hide Reaches, GoodState, Standing, NeverLeaves, ApplyTo, Frames;
      UsedWhole();
      EntryFacts(st, f, x, a);
      BaseUntouched(cfg, st.stack, |kept|, n, Entry(st, f, x, a), end);
      if kept == [] {
        NothingEarlier(cfg, st.stack, n, Entry(st, f, x, a), end);
      }
      if Frames(Used()) == Frames(was) {
        FramesInjective(Used(), was);
      }
      if fuel: nat :| ApplyTo(cfg, fuel, f, x, a).Val? {
        assert LeavesAsWas(Entry(st, f, x, a), end, v, ApplyTo(cfg, fuel, f, x, a));
        SavedPrefix(kept, saved, slots.Length);
      }
    }

    method EnterCall(f: Value, x: Value, a: Value) returns (ok: bool)
      requires Valid() && Sound()
      modifies this, slots
      ensures saved == old(saved)
      ensures !ok ==> |Frames(old(Used()))| >= cfg.capacity
      ensures ok ==> Valid() && State() == Entry(old(State()), f, x, a) && GoodState(State())
      ensures ok ==> Standing(Frames(old(Used())), |saved|, State())
    {
      hide GoodState, Standing, Frames, GoodStack, GoodStacks;
      EntryGood(State(), f, x, a);
      r3 := Unspecified;
      r2 := Unspecified;
      ok := GcPushFrame();
      if ok {
        PushedSlots(old(Used()), Used());
        r1 := Pair(f, x);
        r0 := a;
        r3 := Special(Apply);
        pc := At(Apply);
      }
    }
  }

  /** Captured frames determine the slots. */
  lemma SavedPrefix(a: seq<seq<Value>>, b: seq<seq<Value>>, length: int)
    requires AllWhole(a, length) && AllWhole(b, length) && CopiedFrames(a) <= CopiedFrames(b)
    ensures a <= b
  {
    forall i | 0 <= i < |a| ensures a[i] == b[i] {
      assert CopiedFrames(a)[i] == CopiedFrames(b)[i];
      FramesInjective(a[i], b[i]);
    }
  }
}
