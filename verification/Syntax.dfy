/** Data, and the text that stands for them: what the reader reads from a text,
    as functions of the character in hand and the text behind it. */
module Syntax {
  import opened Bytes
  import opened Numerals

  const EOF := -1
  const MAX_STRING := 524288

  datatype Datum =
    | Null
    | Bool(value: bool)
    | Number(n: int)
    | Character(code: int)
    | String(bytes: Text)
    | Symbol(name: Text)
    | Keyword(name: Text)
    | Pair(car: Datum, cdr: Datum)
    | Vector(items: seq<Datum>)
    // What a lone dot reads as.
    | Dot

  datatype Problem =
    | EndInList | EndInComment | EndInBlockComment | TooLong
    | UnknownCharacter | KeywordExpected | Improper

  /** What is read, and what is left to read. */
  datatype Parse<+T> = Ok(value: T, rest: Text) | Fail(problem: Problem)

  /** The codes of a name. */
  function Codes(s: string): Text {
    seq(|s|, i requires 0 <= i < |s| => s[i] as int % 256)
  }

  /** The next character, and what comes behind it. */
  function Next(s: Text): (int, Text) {
    if s == [] then (EOF, []) else (s[0], s[1..])
  }

  function Peek(s: Text): int {
    if s == [] then EOF else s[0]
  }

  /** What can still be consumed. */
  function Left(c: int, s: Text): nat {
    |s| + if c == EOF then 0 else 1
  }

  predicate IsChar(c: int) {
    c == EOF || 0 <= c < 256
  }

  /** A character put back. */
  function Put(c: int, s: Text): Text
    requires IsChar(c)
  {
    if c == EOF then s else [c] + s
  }

  predicate IsIdentifier(c: int) {
    ' ' as int < c <= '~' as int && c != '"' as int && c != ';' as int && c != '(' as int && c != ')' as int && c != EOF
  }

  predicate EndsWord(c: int) {
    c == '"' as int || c == ';' as int || c == '(' as int || c == ')' as int || IsSpace(c) || c == EOF
  }

  function List2(a: Datum, b: Datum): Datum {
    Pair(a, Pair(b, Null))
  }

  /** The longest run of digits. */
  function DigitRun(c: int, s: Text): (r: (Text, int, Text))
    requires IsChar(c)
    ensures IsChar(r.1) && Left(r.1, r.2) + |r.0| == Left(c, s)
    ensures !IsDigit(r.1)
    decreases Left(c, s)
  {
    if IsDigit(c) then
      var (d, t) := Next(s);
      var (run, e, u) := DigitRun(d, t);
      ([c] + run, e, u)
    else ([], c, s)
  }

  /** The longest run up to the end of a word. */
  function WordRun(c: int, s: Text): (r: (Text, int, Text))
    requires IsChar(c)
    ensures IsChar(r.1) && Left(r.1, r.2) + |r.0| == Left(c, s)
    ensures EndsWord(r.1)
    decreases Left(c, s)
  {
    if EndsWord(c) then ([], c, s)
    else
      var (d, t) := Next(s);
      var (run, e, u) := WordRun(d, t);
      ([c] + run, e, u)
  }

  /** A text up to its first zero. */
  function CString(s: Text): Text {
    if s == [] || s[0] == 0 then [] else [s[0]] + CString(s[1..])
  }

  function SymbolNamed(s: Text, rest: Text): Parse<Datum> {
    if |CString(s)| > MAX_STRING then Fail(TooLong) else Ok(Symbol(CString(s)), rest)
  }

  /** Digits are a number, unless something else follows; a sign belongs to the
      number if a digit follows, and is dropped if it was none after all. */
  function IdentifierOrNumber(c: int, s: Text): (r: Parse<Datum>)
    requires IsChar(c)
    ensures r.Ok? ==> |r.rest| <= Left(c, s) && r.value != Dot
    ensures r.Ok? && !EndsWord(c) ==> |r.rest| <= |s|
  {
    var (c1, s1) := if c == '+' as int && IsDigit(Peek(s)) then Next(s) else (c, s);
    var negative := c1 == '-' as int && IsDigit(Peek(s1));
    var (c2, s2) := if negative then Next(s1) else (c1, s1);
    var (digits, c3, s3) := DigitRun(c2, s2);
    if EndsWord(c3) then
      var n := Value(digits, 10);
      Ok(Number(Long(if negative then -n else n)), Put(c3, s3))
    else
      var (word, c4, s4) := WordRun(c3, s3);
      SymbolNamed(digits + word, Put(c4, s4))
  }

  /** The rest of a line comment; the newline is in hand at the end. */
  function LineComment(c: int, s: Text): (r: Parse<int>)
    requires IsChar(c)
    ensures r.Ok? ==> r.value == 10 && |r.rest| + 1 <= Left(c, s)
    ensures r.Ok? && c != 10 ==> |r.rest| + 1 <= |s|
    decreases Left(c, s)
  {
    if c == EOF then Fail(EndInComment)
    else if c == 10 then Ok(c, s)
    else
      var (d, t) := Next(s);
      LineComment(d, t)
  }

  /** Up to the mark in front of a number sign. */
  function BlockComment(mark: int, c: int, s: Text): (r: Parse<int>)
    requires IsChar(c) && mark != EOF
    ensures r.Ok? ==> |r.rest| < Left(c, s)
    decreases Left(c, s)
  {
    if c == mark && Peek(s) == '#' as int then Ok(c, s[1..])
    else if c == EOF then Fail(EndInBlockComment)
    else
      var (d, t) := Next(s);
      BlockComment(mark, d, t)
  }

  predicate StartsBlockComment(c: int) {
    c == '!' as int || c == '|' as int
  }

  /** The first character that is not white space or comment. */
  function EatWhitespace(c: int, s: Text): (r: Parse<int>)
    requires IsChar(c)
    ensures r.Ok? ==> IsChar(r.value) && !IsSpace(r.value) && r.value != ';' as int
    ensures r.Ok? ==> Left(r.value, r.rest) <= Left(c, s)
    decreases Left(c, s)
  {
    if IsSpace(c) then
      var (d, t) := Next(s);
      EatWhitespace(d, t)
    else if c == ';' as int then
      var end := LineComment(c, s);
      if end.Fail? then end else EatWhitespace(end.value, end.rest)
    else if c == '#' as int && StartsBlockComment(Peek(s)) then
      var (d, t) := Next(s[1..]);
      var end := BlockComment(s[0], d, t);
      if end.Fail? then end
      else
        var (e, u) := Next(end.rest);
        EatWhitespace(e, u)
    else Ok(c, s)
  }

  /** The longest run of digits in a base. */
  function RadixRun(s: Text, base: nat): (r: (Text, Text))
    ensures |r.0| + |r.1| == |s|
  {
    if s != [] && IsNumber(s[0], base) then
      var (run, rest) := RadixRun(s[1..], base);
      ([s[0]] + run, rest)
    else ([], s)
  }

  function Radix(s: Text, base: nat): (r: (int, Text))
    ensures |r.1| <= |s|
  {
    var negative := Peek(s) == '-' as int;
    var (digits, rest) := RadixRun(if negative then s[1..] else s, base);
    var n := Value(digits, base);
    (Long(if negative then -n else n), rest)
  }

  /** What a letter behind a backslash stands for; others stand for themselves. */
  function Unescaped(c: Byte): Byte {
    if c == '0' as int then 0
    else if c == 'a' as int then 7
    else if c == 'b' as int then 8
    else if c == 't' as int then 9
    else if c == 'n' as int then 10
    else if c == 'v' as int then 11
    else if c == 'f' as int then 12
    else if c == 'r' as int then 13
    else if c == 'e' as int then 27
    else c
  }

  /** The rest of a string of which `done` has been read.  At the end of the
      input it never ends, and becomes too long. */
  function StringRest(done: Text, s: Text): (r: Parse<Datum>)
    ensures r.Ok? ==> r.value.String? && |r.rest| < |s|
    decreases |s|
  {
    if |done| > MAX_STRING || s == [] then Fail(TooLong)
    else if s[0] == '"' as int then Ok(String(done), s[1..])
    else if s[0] != '\\' as int then StringRest(done + [s[0]], s[1..])
    else if |s| == 1 then Fail(TooLong)
    else if s[1] == 'x' as int then
      var (n, rest) := Radix(s[2..], 16);
      StringRest(done + [n % 256], rest)
    else StringRest(done + [Unescaped(s[1])], s[2..])
  }

  predicate IsOctal(c: int) {
    '0' as int <= c <= '7' as int
  }

  predicate IsNameChar(c: int) {
    'a' as int <= c <= 'z' as int || c == '*' as int
  }

  function NameRun(s: Text): (r: (Text, Text))
    ensures |r.0| + |r.1| == |s|
  {
    if s != [] && IsNameChar(s[0]) then
      var (run, rest) := NameRun(s[1..]);
      ([s[0]] + run, rest)
    else ([], s)
  }

  /** The names of characters, the old abbreviations among them; -2 for others. */
  function CharacterNamed(name: Text): int {
    if name == Codes("*eof*") then EOF
    else if name == Codes("nul") then 0
    else if name == Codes("alarm") then 7
    else if name == Codes("backspace") then 8
    else if name == Codes("tab") then 9
    else if name == Codes("linefeed") then 10
    else if name == Codes("newline") then 10
    else if name == Codes("vtab") then 11
    else if name == Codes("page") then 12
    else if name == Codes("return") then 13
    else if name == Codes("esc") then 27
    else if name == Codes("space") then 32
    else if name == Codes("bel") then 7
    else if name == Codes("bs") then 8
    else if name == Codes("ht") then 9
    else if name == Codes("nl") then 10
    else if name == Codes("vt") then 11
    else if name == Codes("np") then 12
    else if name == Codes("cr") then 13
    else if name == Codes("fs") then 28
    else -2
  }

  function ReadCharacter(s: Text): (r: Parse<Datum>)
    ensures r.Ok? ==> r.value.Character? && |r.rest| <= |s|
  {
    if s == [] then Ok(Character(EOF), [])
    else
      var (c, t) := (s[0], s[1..]);
      var p := Peek(t);
      if IsOctal(c) && IsOctal(p) then
        var (digits, rest) := RadixRun(s, 8);
        Ok(Character(Int32(Value(digits, 8))), rest)
      else if c == 'x' as int && (IsDigit(p) || 'a' as int <= p <= 'f' as int || p == 'F' as int) then
        var (n, rest) := Radix(t, 16);
        Ok(Character(Int32(n)), rest)
      else if IsNameChar(c) && IsNameChar(p) then
        var (name, rest) := NameRun(s);
        var code := CharacterNamed(name);
        if code == -2 then Fail(UnknownCharacter) else Ok(Character(code), rest)
      else Ok(Character(c), t)
  }

  /** The elements of a proper list. */
  function Items(x: Datum): Parse<seq<Datum>> {
    match x
    case Null => Ok([], [])
    case Pair(a, d) =>
      var rest := Items(d);
      if rest.Fail? then rest else Ok([a] + rest.value, [])
    case _ => Fail(Improper)
  }

  /** A datum behind a prefix. */
  function Quoted(name: Text, inner: Parse<Datum>): Parse<Datum> {
    if inner.Fail? then inner else Ok(List2(Symbol(name), inner.value), inner.rest)
  }

  /** Reads a datum, with its first character in hand. */
  function ReadSexp(c: int, s: Text): (r: Parse<Datum>)
    requires IsChar(c)
    ensures r.Ok? ==> |r.rest| <= |s| + if c == 11 || c == 13 then 1 else 0
    decreases Left(c, s), 1
  {
    if c == EOF then Ok(Null, s)
    else if c == ';' as int then
      var end := LineComment(c, s);
      if end.Fail? then Fail(end.problem) else ReadSexp(end.value, end.rest)
    else if c == ' ' as int || c == 9 || c == 10 || c == 12 then
      var (d, t) := Next(s);
      ReadSexp(d, t)
    else if c == '(' as int then
      var (d, t) := Next(s);
      ReadList(d, t)
    else if c == ')' as int then Ok(Null, s)
    else if c == '#' as int then
      var (d, t) := Next(s);
      ReadHash(d, t)
    else if c == '`' as int then
      var (d, t) := Next(s);
      Quoted(Codes("quasiquote"), ReadSexp(d, t))
    else if c == ',' as int then
      if Peek(s) == '@' as int then
        var (d, t) := Next(s[1..]);
        Quoted(Codes("unquote-splicing"), ReadSexp(d, t))
      else
        var (d, t) := Next(s);
        Quoted(Codes("unquote"), ReadSexp(d, t))
    else if c == '\'' as int then
      var (d, t) := Next(s);
      Quoted(Codes("quote"), ReadSexp(d, t))
    else if c == '"' as int then StringRest([], s)
    else if c == '.' as int && !IsIdentifier(Peek(s)) then Ok(Dot, s)
    else IdentifierOrNumber(c, s)
  }

  /** Reads the rest of a list, up to the closing parenthesis. */
  function ReadList(c0: int, s0: Text): (r: Parse<Datum>)
    requires IsChar(c0)
    ensures r.Ok? ==> |r.rest| <= |s0|
    decreases Left(c0, s0), 2
  {
    var first := EatWhitespace(c0, s0);
    if first.Fail? then Fail(first.problem)
    else
      var (c, s) := (first.value, first.rest);
      if c == ')' as int then Ok(Null, s)
      else if c == EOF then Fail(EndInList)
      else
        var item := ReadSexp(c, s);
        if item.Fail? then item
        else
          var (d, t) := Next(item.rest);
          var tail := ReadList(d, t);
          if tail.Fail? then tail
          else if item.value != Dot then Ok(Pair(item.value, tail.value), tail.rest)
          else if tail.value.Pair? then Ok(tail.value.car, tail.rest)
          else Fail(Improper)
  }

  /** Reads a datum behind a number sign. */
  function ReadHash(c: int, s: Text): (r: Parse<Datum>)
    requires IsChar(c)
    ensures r.Ok? ==> |r.rest| <= Left(c, s)
    decreases Left(c, s), 3
  {
    var (d, t) := Next(s);
    if StartsBlockComment(c) then
      var end := BlockComment(c, d, t);
      if end.Fail? then Fail(end.problem)
      else
        var (e, u) := Next(end.rest);
        ReadSexp(e, u)
    else if c == 'f' as int then Ok(Bool(false), s)
    else if c == 't' as int then Ok(Bool(true), s)
    else if c == ',' as int then
      if Peek(s) == '@' as int then
        var (e, u) := Next(s[1..]);
        Quoted(Codes("unsyntax-splicing"), ReadSexp(e, u))
      else Quoted(Codes("unsyntax"), ReadSexp(d, t))
    else if c == '\'' as int then Quoted(Codes("syntax"), ReadSexp(d, t))
    else if c == '`' as int then Quoted(Codes("quasisyntax"), ReadSexp(d, t))
    else if c == ':' as int then
      var x := IdentifierOrNumber(d, t);
      if x.Fail? then x
      else if x.value.Symbol? then Ok(Keyword(x.value.name), x.rest)
      else Fail(KeywordExpected)
    else if c == 'b' as int then var (n, rest) := Radix(s, 2); Ok(Number(n), rest)
    else if c == 'o' as int then var (n, rest) := Radix(s, 8); Ok(Number(n), rest)
    else if c == 'x' as int then var (n, rest) := Radix(s, 16); Ok(Number(n), rest)
    else if c == '\\' as int then ReadCharacter(s)
    else if c == '(' as int then
      var list := ReadList(d, t);
      if list.Fail? then list
      else
        var items := Items(list.value);
        if items.Fail? then Fail(items.problem) else Ok(Vector(items.value), list.rest)
    else if c == ';' as int then
      var skipped := ReadSexp(d, t);
      if skipped.Fail? then skipped
      else
        var (e, u) := Next(skipped.rest);
        ReadSexp(e, u)
    else ReadSexp(d, t)
  }

  /** Reads a datum from the start of a text. */
  function Read(s: Text): Parse<Datum> {
    var (c, t) := Next(s);
    ReadSexp(c, t)
  }
}
