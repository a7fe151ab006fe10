/** The reader, on an input with one character of pushback. */
module Reader {
  import opened Bytes
  import opened Division
  import opened Numerals
  import opened Syntax
  import opened Wrappers

  /** A file, and the slot for a character that was put back; -1 if free. */
  class Input {
    const text: Text
    var position: nat
    var ungot: int

    ghost predicate Valid()
      reads this
    {
      position <= |text| && -1 <= ungot < 256
    }

    /** What is still to be read. */
    ghost function Rest(): Text
      requires Valid()
      reads this
    {
      (if ungot >= 0 then [ungot] else []) + text[position..]
    }

    constructor (text: Text)
      ensures Valid() && Rest() == text && ungot == -1
    {
      this.text := text;
      position := 0;
      ungot := -1;
      new;
      assert [] + text[0..] == text;
    }

    method Readchar() returns (c: int)
      requires Valid()
      modifies this
      ensures Valid() && ungot == -1 && IsChar(c)
      ensures (c, Rest()) == Next(old(Rest()))
    {
      ghost var was := Rest();
      c := ungot;
      if c >= 0 {
        ungot := -1;
        assert was[1..] == text[position..];
      } else if position < |text| {
        c := text[position];
        position := position + 1;
        assert was[1..] == text[position..];
      }
      assert Rest() == text[position..];
    }

    /** The slot must be free, unless there is nothing to put back. */
    method Unreadchar(c: int)
      requires Valid() && IsChar(c)
      requires c == EOF || ungot == -1
      modifies this
      ensures Valid() && Rest() == Put(c, old(Rest()))
    {
      if c != EOF {
        ungot := c;
      }
    }

    method Peekchar() returns (c: int)
      requires Valid()
      modifies this
      ensures Valid() && Rest() == old(Rest()) && c == Peek(Rest()) && IsChar(c)
    {
      c := Readchar();
      Unreadchar(c);
    }
  }

  /** The slot is free for a character that may have to be put back. */
  ghost predicate Slack(input: Input, c: int)
    reads input
  {
    input.Valid() && IsChar(c) && (input.ungot == -1 || !EndsWord(c))
  }

  /** The outcome is that of the specification, and so is what is left. */
  ghost predicate Did<T>(input: Input, r: Option<T>, spec: Parse<T>)
    reads input
  {
    match spec
    case Ok(v, rest) => input.Valid() && r == Some(v) && input.Rest() == rest
    case Fail(_) => r == None
  }

  method ReadLineComment(input: Input, c0: int) returns (r: Option<int>)
    requires input.Valid() && IsChar(c0)
    requires c0 == 10 ==> input.ungot == -1
    modifies input
    ensures Did(input, r, LineComment(c0, old(input.Rest())))
    ensures r.Some? ==> input.ungot == -1
  {
    var c := c0;
    while c != EOF
      invariant input.Valid() && IsChar(c) && (c == 10 ==> input.ungot == -1)
      invariant LineComment(c, input.Rest()) == LineComment(c0, old(input.Rest()))
      decreases Left(c, input.Rest())
    {
      if c == 10 {
        return Some(c);
      }
      c := input.Readchar();
    }
    r := None;
  }

  /** The source calls itself with each next character. */
  method ReadBlockComment(input: Input, mark: int, c: int) returns (r: Option<int>)
    requires input.Valid() && IsChar(c) && mark != EOF && input.ungot == -1
    modifies input
    ensures Did(input, r, BlockComment(mark, c, old(input.Rest())))
    ensures r.Some? ==> input.ungot == -1
    decreases Left(c, input.Rest())
  {
    if c == mark {
      var p := input.Peekchar();
      if p == '#' as int {
        var _ := input.Readchar();
        return Some(c);
      }
    }
    if c == EOF {
      return None;
    }
    var d := input.Readchar();
    r := ReadBlockComment(input, mark, d);
  }

  method EatSpace(input: Input, c0: int) returns (r: Option<int>)
    requires Slack(input, c0) && (input.ungot == -1 || !IsSpace(c0))
    modifies input
    ensures Did(input, r, EatWhitespace(c0, old(input.Rest())))
    ensures r.Some? ==> Slack(input, r.value)
    decreases Left(c0, input.Rest())
  {
    hide LineComment;
    hide BlockComment;
    hide Put;
    hide input.Rest;
    var c := c0;
    while IsSpace(c)
      invariant Slack(input, c)
      invariant Left(c, input.Rest()) <= Left(c0, old(input.Rest()))
      invariant EatWhitespace(c, input.Rest()) == EatWhitespace(c0, old(input.Rest()))
      decreases Left(c, input.Rest())
    {
      c := input.Readchar();
    }
    if c == ';' as int {
      var end := ReadLineComment(input, c);
      if end.None? {
        return None;
      }
      r := EatSpace(input, end.value);
      return;
    }
    if c == '#' as int {
      var p := input.Peekchar();
      if StartsBlockComment(p) {
        c := input.Readchar();
        var d := input.Readchar();
        var end := ReadBlockComment(input, c, d);
        if end.None? {
          return None;
        }
        d := input.Readchar();
        r := EatSpace(input, d);
        return;
      }
    }
    r := Some(c);
  }

  lemma ValueAppend(s: Text, c: Byte, base: nat)
    ensures Value(s + [c], base) == Value(s, base) * base + DigitValue(c)
  {
    assert (s + [c])[..|s|] == s;
  }

  lemma RunAppend(a: Text, c: Byte, b: Text)
    ensures a + ([c] + b) == (a + [c]) + b
  {
  }

  /** Digits into the buffer, and their value. */
  method ReadDigits(input: Input, c0: int) returns (c: int, buffer: Text, n: int)
    requires input.Valid() && IsChar(c0) && (input.ungot == -1 || !EndsWord(c0))
    modifies input
    ensures Slack(input, c)
    ensures (buffer, c, input.Rest()) == DigitRun(c0, old(input.Rest()))
    ensures n == Long(Value(buffer, 10))
  {
    hide Value;
    hide Wrap;
    hide input.Rest;
    c, buffer, n := c0, [], 0;
    ghost var all := DigitRun(c0, input.Rest());
    assert [] + all.0 == all.0;
    NoDigits();
    while IsDigit(c)
      invariant Slack(input, c)
      invariant n == Long(Value(buffer, 10))
      invariant
        var (run, e, u) := DigitRun(c, input.Rest());
        all == (buffer + run, e, u)
      decreases Left(c, input.Rest())
    {
      ghost var run := DigitRun(c, input.Rest()).0;
      WrapStep(Value(buffer, 10), 10, DigitValue(c), WORDS);
      ValueAppend(buffer, c, 10);
      RunAppend(buffer, c, run[1..]);
      buffer := buffer + [c];
      n := Long(n * 10);
      n := Long(n + c - '0' as int);
      c := input.Readchar();
    }
    assert buffer + [] == buffer;
  }

  lemma NoDigits()
    ensures Long(Value([], 10)) == 0
  {
  }

  method ReadWord(input: Input, c0: int) returns (c: int, word: Text)
    requires input.Valid() && IsChar(c0) && (input.ungot == -1 || !EndsWord(c0))
    modifies input
    ensures Slack(input, c)
    ensures (word, c, input.Rest()) == WordRun(c0, old(input.Rest()))
  {
    hide input.Rest;
    c, word := c0, [];
    ghost var all := WordRun(c0, input.Rest());
    assert [] + all.0 == all.0;
    while !EndsWord(c)
      invariant Slack(input, c)
      invariant
        var (run, e, u) := WordRun(c, input.Rest());
        all == (word + run, e, u)
      decreases Left(c, input.Rest())
    {
      ghost var run := WordRun(c, input.Rest()).0;
      RunAppend(word, c, run[1..]);
      word := word + [c];
      c := input.Readchar();
    }
    assert word + [] == word;
  }

  method ReadIdentifierOrNumber(input: Input, c0: int) returns (r: Option<Datum>)
    requires Slack(input, c0)
    modifies input
    ensures Did(input, r, IdentifierOrNumber(c0, old(input.Rest())))
  {
    hide Value;
    hide Wrap;
    hide input.Rest;
    hide DigitRun;
    hide WordRun;
    var c, negative := c0, false;
    if c == '+' as int {
      var p := input.Peekchar();
      if IsDigit(p) {
        c := input.Readchar();
      }
    }
    if c == '-' as int {
      var p := input.Peekchar();
      if IsDigit(p) {
        negative := true;
        c := input.Readchar();
      }
    }
    var digits, n;
    c, digits, n := ReadDigits(input, c);
    if EndsWord(c) {
      input.Unreadchar(c);
      if negative {
        WrapNegate(Value(digits, 10), WORDS);
        n := Long(0 - n);
      }
      return Some(Number(n));
    }
    var word;
    c, word := ReadWord(input, c);
    input.Unreadchar(c);
    var name := CString(digits + word);
    r := if |name| > MAX_STRING then None else Some(Symbol(name));
  }

  method ReadRadix(input: Input, base: nat) returns (r: int)
    requires input.Valid() && (base == 2 || base == 8 || base == 16)
    modifies input
    ensures input.Valid() && (r, input.Rest()) == Radix(old(input.Rest()), base)
  {
    hide Value;
    hide Wrap;
    hide input.Rest;
    hide IsNumber;
    hide DigitValue;
    r := 0;
    var c := input.Peekchar();
    var negative := c == '-' as int;
    if negative {
      var _ := input.Readchar();
      c := input.Peekchar();
    }
    ghost var digits: Text, s: Text := [], input.Rest();
    assert [] + RadixRun(s, base).0 == RadixRun(s, base).0;
    NoValueIn(base);
    while IsNumber(c, base)
      invariant input.Valid() && c == Peek(input.Rest())
      invariant r == Long(Value(digits, base))
      invariant
        var (run, rest) := RadixRun(input.Rest(), base);
        RadixRun(s, base) == (digits + run, rest)
      decreases |input.Rest()|
    {
      NotEof(c, base);
      ghost var run := RadixRun(input.Rest(), base).0;
      WrapStep(Value(digits, base), base, DigitValue(c), WORDS);
      ValueAppend(digits, c, base);
      RunAppend(digits, c, run[1..]);
      digits := digits + [c];
      r := Long(r * base);
      r := Long(r + DigitValue(c));
      var _ := input.Readchar();
      c := input.Peekchar();
    }
    NotEof(EOF, base);
    assert digits + [] == digits;
    if negative {
      WrapNegate(Value(digits, base), WORDS);
      r := Long(0 - r);
    }
  }

  lemma NoValueIn(base: nat)
    ensures Long(Value([], base)) == 0
  {
  }

  lemma NotEof(c: int, base: nat)
    ensures IsNumber(c, base) ==> c != EOF
  {
  }

  /** One character behind a backslash, or a number in hexadecimal. */
  method ReadEscape(input: Input) returns (c: int)
    requires input.Valid()
    modifies input
    ensures input.Valid() && IsChar(c)
    ensures
      var s := old(input.Rest());
      if s == [] then c == EOF && input.Rest() == []
      else if s[0] == 'x' as int then
        (c, input.Rest()) == (Radix(s[1..], 16).0 % 256, Radix(s[1..], 16).1)
      else (c, input.Rest()) == (Unescaped(s[0]) as int, s[1..])
  {
    c := input.Readchar();
    if c == '\\' as int || c == '"' as int {
    } else if c == '0' as int {
      c := 0;
    } else if c == 'a' as int {
      c := 7;
    } else if c == 'b' as int {
      c := 8;
    } else if c == 't' as int {
      c := 9;
    } else if c == 'n' as int {
      c := 10;
    } else if c == 'v' as int {
      c := 11;
    } else if c == 'f' as int {
      c := 12;
    } else if c == 'r' as int {
      c := 13;
    } else if c == 'e' as int {
      c := 27;
    } else if c == 'x' as int {
      var n := ReadRadix(input, 16);
      c := n % 256;
    }
  }

  /** At the end of the input the buffer fills up with the end-of-file mark. */
  method ReadString(input: Input) returns (r: Option<Datum>)
    requires input.Valid()
    modifies input
    ensures Did(input, r, StringRest([], old(input.Rest())))
  {
    hide Radix;
    hide Unescaped;
    hide input.Rest;
    var buffer: Text := [];
    while true
      invariant input.Valid() && |buffer| <= MAX_STRING + 1
      invariant StringRest(buffer, input.Rest()) == StringRest([], old(input.Rest()))
      decreases MAX_STRING + 1 - |buffer|
    {
      ghost var s := input.Rest();
      if |buffer| > MAX_STRING {
        return None;
      }
      var c := input.Readchar();
      if c == '"' as int {
        break;
      }
      if c == '\\' as int {
        assert |s| > 1 ==> s[1..][1..] == s[2..];
        c := ReadEscape(input);
      }
      buffer := buffer + [c % 256];
    }
    r := Some(String(buffer));
  }

  method ReadOctalCharacter(input: Input, c0: int) returns (c: int)
    requires input.Valid() && IsOctal(c0)
    modifies input
    ensures input.Valid()
    ensures (c, input.Rest()) ==
      var (digits, rest) := RadixRun([c0] + old(input.Rest()), 8);
      (Int32(Value(digits, 8)), rest)
  {
    hide Value;
    hide Wrap;
    hide input.Rest;
    c := c0 - '0' as int;
    ghost var digits: Text, s: Text := [c0], [c0] + input.Rest();
    assert s[1..] == input.Rest();
    OneDigit(c0);
    var p := input.Peekchar();
    while IsOctal(p)
      invariant input.Valid() && p == Peek(input.Rest())
      invariant c == Int32(Value(digits, 8))
      invariant
        var (run, rest) := RadixRun(input.Rest(), 8);
        RadixRun(s, 8) == (digits + run, rest)
      decreases |input.Rest()|
    {
      ghost var run := RadixRun(input.Rest(), 8).0;
      WrapStep(Value(digits, 8), 8, DigitValue(p), INTS);
      ValueAppend(digits, p, 8);
      RunAppend(digits, p, run[1..]);
      digits := digits + [p];
      c := Int32(c * 8);
      var d := input.Readchar();
      c := Int32(c + d - '0' as int);
      p := input.Peekchar();
    }
    assert digits + [] == digits;
  }

  lemma OneDigit(c: Byte)
    requires IsOctal(c)
    ensures Int32(Value([c], 8)) == c - '0' as int
  {
    ValueAppend([], c, 8);
    assert [] + [c] == [c];
  }

  method ReadName(input: Input, c0: int) returns (name: Text)
    requires input.Valid() && IsNameChar(c0)
    modifies input
    ensures input.Valid() && (name, input.Rest()) == NameRun([c0] + old(input.Rest()))
  {
    hide input.Rest;
    name := [c0];
    ghost var s: Text := [c0] + input.Rest();
    assert s[1..] == input.Rest();
    var p := input.Peekchar();
    while IsNameChar(p)
      invariant input.Valid() && p == Peek(input.Rest())
      invariant
        var (run, rest) := NameRun(input.Rest());
        NameRun(s) == (name + run, rest)
      decreases |input.Rest()|
    {
      ghost var run := NameRun(input.Rest()).0;
      RunAppend(name, p, run[1..]);
      var c := input.Readchar();
      name := name + [c];
      p := input.Peekchar();
    }
    assert name + [] == name;
  }

  method ReadChar(input: Input) returns (r: Option<Datum>)
    requires input.Valid()
    modifies input
    ensures Did(input, r, ReadCharacter(old(input.Rest())))
  {
    hide Value;
    hide Wrap;
    hide input.Rest;
    hide RadixRun;
    hide NameRun;
    hide Radix;
    hide CharacterNamed;
    ghost var s := input.Rest();
    var c := input.Readchar();
    var p := input.Peekchar();
    assert s != [] ==> [s[0]] + s[1..] == s;
    if IsOctal(c) && IsOctal(p) {
      c := ReadOctalCharacter(input, c);
    } else if c == 'x' as int && (IsDigit(p) || 'a' as int <= p <= 'f' as int || p == 'F' as int) {
      var n := ReadRadix(input, 16);
      c := Int32(n);
    } else if IsNameChar(c) && IsNameChar(p) {
      var name := ReadName(input, c);
      c := CharacterNamed(name);
      if c == -2 {
        return None;
      }
    }
    r := Some(Character(c));
  }

  /** A datum behind a prefix of one character. */
  method ReadQuoted(input: Input, name: Text) returns (r: Option<Datum>)
    requires input.Valid()
    modifies input
    ensures
      var (d, t) := Next(old(input.Rest()));
      Did(input, r, Quoted(name, ReadSexp(d, t)))
    decreases |input.Rest()|, 4
  {
    var c := input.Readchar();
    var x := Sexp(input, c);
    r := if x.None? then None else Some(List2(Symbol(name), x.value));
  }

  /** The same, or another name if an at sign follows. */
  method ReadUnquoted(input: Input, name: Text, splicing: Text) returns (r: Option<Datum>)
    requires input.Valid()
    modifies input
    ensures
      var s := old(input.Rest());
      var at := Peek(s) == '@' as int;
      var (d, t) := Next(if at then s[1..] else s);
      Did(input, r, Quoted(if at then splicing else name, ReadSexp(d, t)))
    decreases |input.Rest()|, 5
  {
    var p := input.Peekchar();
    if p == '@' as int {
      var _ := input.Readchar();
      r := ReadQuoted(input, splicing);
    } else {
      r := ReadQuoted(input, name);
    }
  }

  method Sexp(input: Input, c0: int) returns (r: Option<Datum>)
    requires Slack(input, c0)
    modifies input
    ensures Did(input, r, ReadSexp(c0, old(input.Rest())))
    decreases Left(c0, input.Rest()), 1
  {
    hide input.Rest;
    hide ReadHash;
    hide ReadList;
    hide IdentifierOrNumber;
    hide StringRest;
    var c := c0;
    while c == ';' as int || c == ' ' as int || c == 9 || c == 10 || c == 12
      invariant Slack(input, c)
      invariant Left(c, input.Rest()) <= Left(c0, old(input.Rest()))
      invariant ReadSexp(c, input.Rest()) == ReadSexp(c0, old(input.Rest()))
      decreases Left(c, input.Rest())
    {
      if c == ';' as int {
        var end := ReadLineComment(input, c);
        if end.None? {
          return None;
        }
        c := end.value;
      } else {
        c := input.Readchar();
      }
    }
    if c == EOF || c == ')' as int {
      r := Some(Null);
    } else if c == '(' as int {
      c := input.Readchar();
      r := List(input, c);
    } else if c == '#' as int {
      c := input.Readchar();
      r := Hash(input, c);
    } else if c == '`' as int {
      r := ReadQuoted(input, Codes("quasiquote"));
    } else if c == ',' as int {
      r := ReadUnquoted(input, Codes("unquote"), Codes("unquote-splicing"));
    } else if c == '\'' as int {
      r := ReadQuoted(input, Codes("quote"));
    } else if c == '"' as int {
      r := ReadString(input);
    } else {
      if c == '.' as int {
        var p := input.Peekchar();
        if !IsIdentifier(p) {
          return Some(Dot);
        }
      }
      r := ReadIdentifierOrNumber(input, c);
    }
  }

  method List(input: Input, c0: int) returns (r: Option<Datum>)
    requires input.Valid() && IsChar(c0) && input.ungot == -1
    modifies input
    ensures Did(input, r, ReadList(c0, old(input.Rest())))
    decreases Left(c0, input.Rest()), 2
  {
    hide input.Rest;
    hide ReadSexp;
    hide EatWhitespace;
    var first := EatSpace(input, c0);
    if first.None? {
      return None;
    }
    var c := first.value;
    if c == ')' as int {
      return Some(Null);
    }
    if c == EOF {
      return None;
    }
    var s := Sexp(input, c);
    if s.None? {
      return None;
    }
    c := input.Readchar();
    var tail := List(input, c);
    if tail.None? {
      return None;
    }
    if s.value == Dot {
      r := if tail.value.Pair? then Some(tail.value.car) else None;
    } else {
      r := Some(Pair(s.value, tail.value));
    }
  }

  method Hash(input: Input, c: int) returns (r: Option<Datum>)
    requires input.Valid() && IsChar(c) && input.ungot == -1
    modifies input
    ensures Did(input, r, ReadHash(c, old(input.Rest())))
    decreases Left(c, input.Rest()), 3
  {
    hide input.Rest;
    hide ReadSexp;
    hide ReadList;
    hide Radix;
    hide IdentifierOrNumber;
    hide BlockComment;
    if StartsBlockComment(c) {
      var d := input.Readchar();
      var end := ReadBlockComment(input, c, d);
      if end.None? {
        return None;
      }
      d := input.Readchar();
      r := Sexp(input, d);
    } else if c == 'f' as int {
      r := Some(Bool(false));
    } else if c == 't' as int {
      r := Some(Bool(true));
    } else if c == ',' as int {
      r := ReadUnquoted(input, Codes("unsyntax"), Codes("unsyntax-splicing"));
    } else if c == '\'' as int {
      r := ReadQuoted(input, Codes("syntax"));
    } else if c == '`' as int {
      r := ReadQuoted(input, Codes("quasisyntax"));
    } else {
      r := HashOther(input, c);
    }
  }

  method HashOther(input: Input, c: int) returns (r: Option<Datum>)
    requires input.Valid() && IsChar(c) && input.ungot == -1
    requires !StartsBlockComment(c) && c != 'f' as int && c != 't' as int
    requires c != ',' as int && c != '\'' as int && c != '`' as int
    modifies input
    ensures Did(input, r, ReadHash(c, old(input.Rest())))
    decreases Left(c, input.Rest()), 2
  {
    hide input.Rest;
    hide ReadSexp;
    hide ReadList;
    hide Radix;
    hide IdentifierOrNumber;
    if c == ':' as int {
      var d := input.Readchar();
      var x := ReadIdentifierOrNumber(input, d);
      r := if x.Some? && x.value.Symbol? then Some(Keyword(x.value.name)) else None;
    } else if c == 'b' as int || c == 'o' as int || c == 'x' as int {
      var n := ReadRadix(input, if c == 'b' as int then 2 else if c == 'o' as int then 8 else 16);
      r := Some(Number(n));
    } else if c == '\\' as int {
      r := ReadChar(input);
    } else if c == '(' as int {
      var d := input.Readchar();
      var list := List(input, d);
      if list.None? {
        return None;
      }
      r := ToVector(list.value);
    } else if c == ';' as int {
      var d := input.Readchar();
      var skipped := Sexp(input, d);
      if skipped.None? {
        return None;
      }
      d := input.Readchar();
      r := Sexp(input, d);
    } else {
      var d := input.Readchar();
      r := Sexp(input, d);
    }
  }

  method ToVector(list: Datum) returns (r: Option<Datum>)
    ensures r == if Items(list).Ok? then Some(Vector(Items(list).value)) else None
  {
    var items: seq<Datum>, x := [], list;
    assert Items(x).Ok? ==> [] + Items(x).value == Items(x).value;
    while x.Pair?
      invariant Items(list).Ok? <==> Items(x).Ok?
      invariant Items(list).Ok? ==> Items(list).value == items + Items(x).value
      decreases x
    {
      ghost var rest := Items(x.cdr);
      assert rest.Ok? ==> items + ([x.car] + rest.value) == (items + [x.car]) + rest.value;
      items := items + [x.car];
      x := x.cdr;
    }
    assert items + [] == items;
    r := if x.Null? then Some(Vector(items)) else None;
  }

  /** Reads one datum: the one that the specification reads, whatever the state
      of the pushback slot, which no call above ever finds in use. */
  method ReadEnv(input: Input) returns (r: Option<Datum>)
    requires input.Valid()
    modifies input
    ensures Did(input, r, Read(old(input.Rest())))
  {
    var c := input.Readchar();
    r := Sexp(input, c);
  }
}
