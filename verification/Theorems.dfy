/** What the refinement means for whole evaluations. */
module Theorems {
  import opened Values
  import opened Machine
  import opened Evaluator
  import opened Refinement

  /** A machine about to evaluate `e` in `env` on top of the frames `s`, the
      uppermost of which says where to go on. */
  ghost predicate Starts(st: State, e: Value, env: Value, s: seq<Frame>) {
    && st.Running? && st.pc == At(Label.Eval) && st.r0 == env && st.r1 == e && st.stack == s
    && s != [] && (Top(s).r3.Special? || Top(s).r3 == Unspecified)
  }

  /** The machine returns `v` to `s`, never having looked below `s`. */
  ghost predicate ReturnsValue(cfg: Config, st: State, s: seq<Frame>, v: Value)
    requires st.Running?
  {
    Goes(cfg, st, |s|, Resume(v, s, st.conts))
  }

  /** Nothing happens after a state like this, as far as `d` frames go. */
  predicate Stopped(st: State, d: nat) {
    !st.Running? || |st.stack| < d
  }

  lemma {:induction false} Deterministic(cfg: Config, m: nat, n: nat, a: State, d: nat, b: State, c: State)
    requires Reaches(cfg, m, a, d, b) && Reaches(cfg, n, a, d, c)
    requires Stopped(b, d)
    ensures n <= m
    ensures Stopped(c, d) ==> b == c && m == n
  {
    hide Step;
    if m > 0 && n > 0 {
      Deterministic(cfg, m - 1, n - 1, Step(cfg, a), d, b, c);
    }
  }

  lemma GoesOnce(cfg: Config, a: State, d: nat, b: State, c: State)
    requires Goes(cfg, a, d, b) && Goes(cfg, a, d, c) && Stopped(b, d) && Stopped(c, d)
    ensures b == c
  {
    var m :| Reaches(cfg, m, a, d, b);
    var n :| Reaches(cfg, n, a, d, c);
    Deterministic(cfg, m, n, a, d, b, c);
  }

  lemma ResumeStops(v: Value, s: seq<Frame>, conts: seq<seq<Frame>>)
    requires s != [] && (Top(s).r3.Special? || Top(s).r3 == Unspecified)
    ensures Stopped(Resume(v, s, conts), |s|) && !Resume(v, s, conts).Failed?
  {
  }

  /** The evaluator's value is the machine's, with enough room on the stack;
      and the operator of a call being evaluated twice makes no difference. */
  lemma Computes(cfg: Config, fuel: nat, e: Value, env: Value, st: State, s: seq<Frame>)
    requires Starts(st, e, env, s)
    requires Evaluate(cfg, fuel, e, env).Val? && |s| + Evaluate(cfg, fuel, e, env).height <= cfg.capacity
    ensures ReturnsValue(cfg, st, s, Evaluate(cfg, fuel, e, env).value)
  {
    EvalSim(cfg, fuel, e, env, st);
  }

  /** Whatever value the machine returns is the evaluator's. */
  lemma Complete(cfg: Config, e: Value, env: Value, st: State, s: seq<Frame>, v: Value)
    requires Starts(st, e, env, s) && ReturnsValue(cfg, st, s, v)
    requires forall fuel: nat :: !Evaluate(cfg, fuel, e, env).Beyond?
    ensures exists fuel: nat :: Evaluate(cfg, fuel, e, env).Val? && Evaluate(cfg, fuel, e, env).value == v
  {
    var back := Resume(v, s, st.conts);
    ResumeStops(v, s, st.conts);
    var n :| Reaches(cfg, n, st, |s|, back);
    var fuel := n + 1;
    var r := Evaluate(cfg, fuel, e, env);
    EvalSim(cfg, fuel, e, env, st);
    if Fails(cfg, st, |s|) {
      var x :| Goes(cfg, st, |s|, Failed(x));
      GoesOnce(cfg, st, |s|, back, Failed(x));
      assert false;
    } else if r.Fuel? {
      var m, far :| m >= fuel && Reaches(cfg, m, st, |s|, far);
      Deterministic(cfg, n, m, st, |s|, back, far);
      assert false;
    } else {
      ResumeStops(r.value, s, st.conts);
      GoesOnce(cfg, st, |s|, back, Resume(r.value, s, st.conts));
    }
  }

  /** The machine returns a value exactly if the evaluator has it, for programs
      in the fragment, when the stack is large enough for every evaluation of
      them. */
  lemma MachineIsEvaluator(cfg: Config, e: Value, env: Value, st: State, s: seq<Frame>, v: Value)
    requires Starts(st, e, env, s)
    requires forall fuel: nat :: !Evaluate(cfg, fuel, e, env).Beyond?
    requires forall fuel: nat :: Evaluate(cfg, fuel, e, env).Val? ==>
      |s| + Evaluate(cfg, fuel, e, env).height <= cfg.capacity
    ensures ReturnsValue(cfg, st, s, v) <==>
      exists fuel: nat :: Evaluate(cfg, fuel, e, env).Val? && Evaluate(cfg, fuel, e, env).value == v
  {
    if fuel: nat :| Evaluate(cfg, fuel, e, env).Val? && Evaluate(cfg, fuel, e, env).value == v {
      Computes(cfg, fuel, e, env, st, s);
    }
    if ReturnsValue(cfg, st, s, v) {
      Complete(cfg, e, env, st, s, v);
    }
  }

  /** A program whose evaluation never ends, or fails, never returns. */
  lemma NeverReturns(cfg: Config, e: Value, env: Value, st: State, s: seq<Frame>, v: Value)
    requires Starts(st, e, env, s)
    requires forall fuel: nat :: Evaluate(cfg, fuel, e, env).Fuel? || Evaluate(cfg, fuel, e, env).Err?
    ensures !ReturnsValue(cfg, st, s, v)
  {
    if ReturnsValue(cfg, st, s, v) {
      Complete(cfg, e, env, st, s, v);
    }
  }
}
