/** What a builtin is given: its arguments in order, and what becomes of
    multiple values among them. */
module Builtins {
  import opened Values
  import opened Machine
  import opened Evaluator
  import opened Environments

  /** The machine returns what the function behind a builtin answers to `xs`,
      with all else as it was but for the procedure slot of the frame on top. */
  ghost predicate Gives(cfg: Config, st: State, next: State, name: string, xs: seq<Value>)
    requires st.Running? && st.stack != []
  {
    match cfg.prim(name, xs)
    case Good(v) => Returns(st, next, v)
    case Bad(_) => next == Failed(Primitive)
    case Outside => next == Off
  }

  ghost predicate Returns(st: State, next: State, v: Value)
    requires st.Running? && st.stack != []
  {
    && next.Running? && next.pc == At(Return) && next.r1 == v
    && next.r0 == st.r0 && next.r2 == st.r2 && next.r3 == st.r3 && next.conts == st.conts
    && next.stack != [] && Below(next.stack) == Below(st.stack)
    && next.stack[|next.stack| - 1] == st.stack[|st.stack| - 1].(procedure := next.stack[|next.stack| - 1].procedure)
  }

  lemma ListedItems(xs: seq<Value>)
    ensures |xs| >= 1 ==> Listed(xs, Nil) == Pair(xs[0], Listed(xs[1..], Nil))
    ensures |xs| >= 2 ==> Listed(xs[1..], Nil) == Pair(xs[1], Listed(xs[2..], Nil))
    ensures |xs| >= 3 ==> Listed(xs[2..], Nil) == Pair(xs[2], Listed(xs[3..], Nil))
    ensures xs == [] ==> Listed(xs, Nil) == Nil
    ensures |xs| == 1 ==> Listed(xs[1..], Nil) == Nil
    ensures |xs| == 2 ==> Listed(xs[2..], Nil) == Nil
  {
    if |xs| >= 2 {
      assert xs[1..][1..] == xs[2..];
      if |xs| >= 3 {
        assert xs[2..][1..] == xs[3..];
      }
    }
  }

  /** What stands for an argument in first or second place: of a multiple value
      its first component. */
  function First(x: Value): Value {
    if x.Multiple? && x.list.Pair? then x.list.car else x
  }

  /** A multiple value of no components in first or second place. */
  predicate Hollow(arity: int, xs: seq<Value>) {
    || (arity != 0 && |xs| >= 1 && xs[0].Multiple? && !xs[0].list.Pair?)
    || (arity != 0 && arity != 1 && |xs| >= 2 && xs[1].Multiple? && !xs[1].list.Pair?)
  }

  /** What a builtin is given.  A multiple value in second place stays in the
      list behind its first component: of three arguments the third is then not
      passed, and a list of arguments has one more. */
  function Received(arity: int, xs: seq<Value>): seq<Value>
    requires arity == |xs| <= 3 || arity == -1
  {
    if arity == -1 then [Listed(Spread(xs), Nil)]
    else if |xs| == 3 && xs[1].Multiple? then [First(xs[0]), First(xs[1]), xs[1]]
    else if |xs| >= 2 then [First(xs[0]), First(xs[1])] + xs[2..]
    else if |xs| == 1 then [First(xs[0])]
    else []
  }

  function Spread(xs: seq<Value>): seq<Value> {
    if xs == [] then []
    else if |xs| >= 2 && xs[1].Multiple? then [First(xs[0]), First(xs[1])] + xs[1..]
    else [First(xs[0])] + xs[1..]
  }

  /** The answer to a list of arguments of the right length. */
  function Served(cfg: Config, name: string, arity: int, xs: seq<Value>): Answer<Value>
    requires arity == -1 || |xs| == arity
  {
    if Hollow(arity, xs) then Outside
    else if arity > 3 then Good(Unspecified)
    else
      match cfg.prim(name, Received(arity, xs))
      case Bad(_) => Bad(Primitive)
      case a => a
  }

  lemma ArgumentsExactly(arity: int, xs: seq<Value>)
    requires arity == -1 || |xs| == arity
    ensures BuiltinArguments(arity, Listed(xs, Nil)) ==
      if Hollow(arity, xs) then Outside
      else if arity == 0 then Good(Listed(xs, Nil))
      else if arity == 1 then Good(Listed([First(xs[0])], Nil))
      else Good(Listed(Spread(xs), Nil))
  {
    hide Listed;
    ListedItems(xs);
    if |xs| >= 1 {
      ListedItems([First(xs[0])] + xs[1..]);
      assert ([First(xs[0])] + xs[1..])[1..] == xs[1..];
    }
    if |xs| >= 2 {
      var ys := [First(xs[0]), First(xs[1])] + xs[1..];
      ListedItems(ys);
      assert ys[2..] == xs[1..];
    }
    assert |xs| == 1 ==> [First(xs[0])] + xs[1..] == [First(xs[0])];
  }

  lemma AnswerExactly(cfg: Config, name: string, arity: int, xs: seq<Value>)
    requires arity == -1 || |xs| == arity
    ensures ApplyBuiltin(cfg, name, arity, Listed(xs, Nil)) == Served(cfg, name, arity, xs)
  {
    hide Listed, BuiltinArguments;
    ArgumentsExactly(arity, xs);
    if arity == 1 {
      ListedItems([First(xs[0])]);
    } else if arity == 2 || arity == 3 {
      var ys := Spread(xs);
      ListedItems(ys);
      assert Received(arity, xs) == ys[..arity];
      assert arity == 2 ==> ys[..arity] == [ys[0], ys[1]];
      assert arity == 3 ==> ys[..arity] == [ys[0], ys[1], ys[2]];
    }
  }

  /** Applying a builtin to a list of arguments, in full: a wrong count is an
      error, a multiple value without components is read beyond its end, and
      else the function gets what `Received` says.  More than three parameters
      are never served. */
  lemma BuiltinExactly(cfg: Config, st: State, name: string, arity: int, xs: seq<Value>)
    requires Applies(st, Builtin(name, arity), xs)
    ensures
      if arity != -1 && |xs| != arity then Step(cfg, st) == Failed(WrongNumberOfArgs)
      else if Hollow(arity, xs) then Step(cfg, st) == Off
      else if arity > 3 then Returns(st, Step(cfg, st), Unspecified)
      else Gives(cfg, st, Step(cfg, st), name, Received(arity, xs))
  {
    hide Listed, Length, ApplyBuiltin, Received, Hollow;
    ListedLength(xs, Nil);
    if arity == -1 || |xs| == arity {
      AnswerExactly(cfg, name, arity, xs);
    }
  }

  /** A builtin of `n` parameters is called with its `n` arguments, in order. */
  lemma ArgumentsInOrder(cfg: Config, st: State, name: string, xs: seq<Value>)
    requires |xs| <= 3 && Applies(st, Builtin(name, |xs|), xs)
    requires forall i :: 0 <= i < |xs| ==> !xs[i].Multiple?
    ensures Gives(cfg, st, Step(cfg, st), name, xs)
  {
    BuiltinExactly(cfg, st, name, |xs|, xs);
    hide Step, Gives, Listed;
    assert Received(|xs|, xs) == xs;
  }
}
