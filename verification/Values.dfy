/** The values of the interpreter, as trees.

    The registers hold addresses of cells; here they hold the trees that the
    cells stand for.  Which they are, and that a collection in the middle of a
    run leaves them alone, is in `Decoding`. */
module Values {
  /** The places in the interpreter loop where a saved frame can resume, and
      that are also first-class values. */
  datatype Label =
    | Evlis | Evlis2 | Evlis3
    | Apply | Apply2
    | Eval | EvalCheckFunc | Eval2
    | Begin | BeginEval | If | IfExpr
    | CallCc2 | CallWithValues2 | Return
    | EvalSet | EvalDefine | BeginExpand | MacroExpand
    // The other entry points of the macro expander.
    | Expander(name: string)

  /** Symbols; the ones that the evaluator knows are told apart by name. */
  datatype Symbol =
    | Quote | Begin | Lambda | If | Set | Define | DefineMacro
    | CallCc | CallWithValues | CurrentEnvironment
    | Named(name: string)

  datatype Value =
    | Nil | False | True | Unspecified | Undefined
    | ClosureMark | CircularMark
    | Special(place: Label)
    | Num(n: int) | Chr(c: int) | Str(s: string)
    | Sym(sym: Symbol)
    | Pair(car: Value, cdr: Value)
    | Multiple(list: Value)
    | Closure(formals: Value, body: Value, env: Value)
    | Builtin(name: string, arity: int)
    | Continuation(id: nat)
    | Struct(name: string)
    | Binding(name: string)
    | Other(name: string)

  datatype Error = UnboundVariable | WrongNumberOfArgs | WrongTypeArg | NotAPair
                 | StackFull | UnknownContinuation | Primitive

  /** What a helper of the interpreter answers: a value, an error it raises, or
      that it would look at a field that its argument does not have. */
  datatype Answer<+T> = Good(value: T) | Bad(error: Error) | Outside

  /** What does not change during a run: the variables of the module, the
      functions behind the builtins, and the size of the stack in frames. */
  datatype Config = Config(globals: map<Symbol, Value>,
                           prim: (string, seq<Value>) -> Answer<Value>,
                           capacity: nat)

  function List(x: Value): Value {
    Pair(x, Nil)
  }

  /** The length of a proper list; -1 for anything else. */
  function Length(x: Value): (n: int)
    ensures -1 <= n
  {
    match x
    case Nil => 0
    case Pair(_, rest) => var n := Length(rest); if n < 0 then -1 else n + 1
    case _ => -1
  }

  predicate IsList(x: Value) {
    match x
    case Nil => true
    case Pair(_, rest) => IsList(rest)
    case _ => false
  }

  /** Copies the proper list `x` in front of `y`. */
  function Append(x: Value, y: Value): Value
    requires IsList(x)
  {
    match x
    case Nil => y
    case Pair(a, rest) => Pair(a, Append(rest, y))
  }

  /** Do the arguments fit?  A count of -1 fits everything. */
  predicate FormalsFit(formals: Value, args: Value) {
    var expected := if formals.Num? then formals.n else Length(formals);
    CountFits(expected, args)
  }

  predicate CountFits(expected: int, args: Value) {
    var got := Length(args);
    !(got != expected && got != -1 && expected != -1)
  }

  /** Adds the bindings of formals to arguments in front of an environment. */
  function Pairlis(x: Value, y: Value, a: Value): (p: Answer<Value>)
    ensures p.Good? || p == Bad(NotAPair)
  {
    match x
    case Nil => Good(a)
    case Pair(f, fs) =>
      if !y.Pair? then Bad(NotAPair)
      else
        var rest := Pairlis(fs, y.cdr, a);
        if rest.Good? then Good(Pair(Pair(f, y.car), rest.value)) else rest
    case _ => Good(Pair(Pair(x, y), a))
  }

  /** The environment of a lambda body. */
  function Scope(bindings: Value): Value {
    Pair(Pair(ClosureMark, bindings), bindings)
  }

  datatype Found = Found(value: Value) | NotFound | Broken

  /** Searches an environment whose first cell is known to be there. */
  function Assq(s: Symbol, a: Value): Found {
    match a
    case Nil => NotFound
    case Pair(entry, rest) =>
      if !entry.Pair? then Broken
      else if entry.car == Sym(s) then Found(entry.cdr)
      else Assq(s, rest)
    case _ => Broken
  }

  /** The value of a variable: in the environment, or else in the module. */
  function Lookup(cfg: Config, s: Symbol, env: Value): Answer<Value> {
    var local := if env.Pair? then Assq(s, env) else NotFound;
    match local
    case Broken => Outside
    case Found(v) => if v == Undefined then Bad(UnboundVariable) else Good(v)
    case NotFound =>
      if s in cfg.globals && cfg.globals[s] != Undefined then Good(cfg.globals[s]) else Bad(UnboundVariable)
  }

  /** The constants among the special values. */
  predicate Constant(f: Value) {
    f == Nil || f == False || f == True || f == Unspecified || f == Undefined || f == ClosureMark || f == CircularMark
  }

  /** Can a value stand in operator position after it has been evaluated? */
  predicate Applicable(f: Value) {
    match f
    case Nil => false
    case False => false
    case True => false
    case Unspecified => false
    case Undefined => false
    case Chr(_) => false
    case Num(_) => false
    case Str(_) => false
    case Struct(_) => false
    case _ => true
  }

  /** A multiple value in the first argument of a builtin is replaced by its
      first component. */
  function FirstArgument(x: Value): Answer<Value> {
    if x == Nil then Good(x)
    else if !x.Pair? then Outside
    else if x.car.Multiple? then
      if x.car.list.Pair? then Good(Pair(x.car.list.car, x.cdr)) else Outside
    else Good(x)
  }

  /** The same for the second argument, which stays in the list behind it. */
  function SecondArgument(x: Value): Answer<Value> {
    if x == Nil then Good(x)
    else if !x.Pair? then Outside
    else if x.cdr.Pair? && x.cdr.car.Multiple? then
      if x.cdr.car.list.Pair? then Good(Pair(x.car, Pair(x.cdr.car.list.car, x.cdr))) else Outside
    else Good(x)
  }

  function BuiltinArguments(arity: int, args: Value): Answer<Value> {
    var x := if arity > 0 || arity == -1 then FirstArgument(args) else Good(args);
    if !x.Good? then x
    else if arity > 1 || arity == -1 then SecondArgument(x.value) else x
  }

  /** Whatever goes wrong in a builtin is one kind of error here. */
  function Primitively(cfg: Config, name: string, args: seq<Value>): (a: Answer<Value>)
    ensures a.Bad? ==> a.error == Primitive
  {
    match cfg.prim(name, args)
    case Bad(_) => Bad(Primitive)
    case a => a
  }

  function ApplyBuiltin(cfg: Config, name: string, arity: int, args: Value): Answer<Value> {
    var a := BuiltinArguments(arity, args);
    if !a.Good? then a
    else
      var x := a.value;
      if arity == 0 then Primitively(cfg, name, [])
      else if arity == 1 then
        if x.Pair? then Primitively(cfg, name, [x.car]) else Outside
      else if arity == 2 then
        if x.Pair? && x.cdr.Pair? then Primitively(cfg, name, [x.car, x.cdr.car]) else Outside
      else if arity == 3 then
        if x.Pair? && x.cdr.Pair? && x.cdr.cdr.Pair?
        then Primitively(cfg, name, [x.car, x.cdr.car, x.cdr.cdr.car]) else Outside
      else if arity == -1 then Primitively(cfg, name, [x])
      else Good(Unspecified)
  }
}
