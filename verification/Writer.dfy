/** The writer, with the counter that keeps it from going too deep. */
module Writer {
  import opened Bytes
  import Division
  import Numerals
  import opened Syntax

  /** A byte of a string or name, as it is written. */
  function Escaped(b: Byte): Text {
    if b == 0 then Codes("\\0")
    else if b == 7 then Codes("\\a")
    else if b == 8 then Codes("\\b")
    else if b == 9 then Codes("\\t")
    else if b == 11 then Codes("\\v")
    else if b == 10 then Codes("\\n")
    else if b == 12 then Codes("\\f")
    else if b == 13 then Codes("\\r")
    else if b == 27 then Codes("\\e")
    else if b == '\\' as int then Codes("\\\\")
    else if b == '"' as int then Codes("\\\"")
    else [b]
  }

  function EscapedAll(s: Text): Text {
    if s == [] then [] else Escaped(s[0]) + EscapedAll(s[1..])
  }

  /** A byte that is written as it is. */
  predicate Raw(b: Byte) {
    !(b == 0 || 7 <= b <= 13 || b == 27 || b == '\\' as int || b == '"' as int)
  }

  lemma {:induction false} Unescapable(s: Text)
    requires forall i :: 0 <= i < |s| ==> Raw(s[i])
    ensures EscapedAll(s) == s
  {
    if s != [] {
      assert Escaped(s[0]) == [s[0]];
      Unescapable(s[1..]);
    }
  }

  lemma NothingEscaped(s: Text)
    ensures EscapedAll(s[|s|..]) == []
  {
  }

  lemma EscapedStep(s: Text, i: nat)
    requires i < |s|
    ensures EscapedAll(s[i..]) == Escaped(s[i]) + EscapedAll(s[i + 1..])
  {
  }

  /** A character behind its number sign. */
  function CharacterText(b: Byte): Text {
    if b == 0 then Codes("\\nul")
    else if b == 7 then Codes("\\alarm")
    else if b == 8 then Codes("\\backspace")
    else if b == 9 then Codes("\\tab")
    else if b == 10 then Codes("\\newline")
    else if b == 11 then Codes("\\vtab")
    else if b == 12 then Codes("\\page")
    else if b == 13 then Codes("\\return")
    else if b == 32 then Codes("\\space")
    else if 32 <= b <= 127 then ['\\' as int, b]
    else [b]
  }

  /** The text of a datum. */
  function Write(x: Datum): Text
    decreases x, 1
  {
    match x
    case Null => Codes("()")
    case Bool(b) => if b then Codes("#t") else Codes("#f")
    case Number(n) => Numerals.Numeral(n, 10)
    case Character(c) => ['#' as int] + CharacterText(c % 256)
    case String(s) => ['"' as int] + EscapedAll(s) + ['"' as int]
    case Symbol(s) => EscapedAll(s)
    case Keyword(s) => Codes("#:") + EscapedAll(s)
    case Pair(_, _) => ['(' as int] + WriteItems(x) + [')' as int]
    case Vector(items) => Codes("#(") + Spaced(items) + [')' as int]
    case Dot => EscapedAll(Codes("."))
  }

  /** The elements of a list, without the parentheses. */
  function WriteItems(x: Datum): Text
    requires x.Pair?
    decreases x, 0
  {
    Write(x.car) +
    match x.cdr
    case Null => []
    case Pair(_, _) => [' ' as int] + WriteItems(x.cdr)
    case _ => Codes(" . ") + Write(x.cdr)
  }

  function Spaced(items: seq<Datum>): Text
    decreases items, 0
  {
    if items == [] then []
    else if |items| == 1 then Write(items[0])
    else Write(items[0]) + [' ' as int] + Spaced(items[1..])
  }

  /** No list that has the mark of a circular environment as an element, and
      only numbers that fit a word. */
  ghost predicate Plain(x: Datum) {
    match x
    case Number(n) => Division.IsLong(n)
    case Pair(a, d) => a != Symbol(Codes("*circular*")) && Plain(a) && Plain(d)
    case Vector(items) => forall i :: 0 <= i < |items| ==> Plain(items[i])
    case _ => true
  }

  class Output {
    var out: Text
    // How many more levels may be entered.
    var depth: int

    constructor ()
      ensures out == []
    {
      out := [];
      depth := 0;
    }

    method Fdputs(s: Text)
      modifies `out
      ensures out == old(out) + s
    {
      out := out + s;
    }

    /** The bytes of a C string in a buffer. */
    method FdputsBuffer(buffer: array<Byte>, p: nat, ghost s: Text)
      requires p + |s| < buffer.Length && buffer[p + |s|] == 0
      requires forall k :: p <= k < p + |s| ==> buffer[k] == s[k - p] != 0
      modifies `out
      ensures out == old(out) + s
    {
      var i := p;
      while buffer[i] != 0
        invariant p <= i <= p + |s| && out == old(out) + s[..i - p]
        decreases p + |s| - i
      {
        out := out + [buffer[i]];
        i := i + 1;
      }
      assert s[..|s|] == s;
    }

    method FdwriteString(s: Text)
      modifies `out
      ensures out == old(out) + EscapedAll(s)
    {
      hide EscapedAll;
      hide Escaped;
      var i := 0;
      assert s[0..] == s;
      while i < |s|
        invariant 0 <= i <= |s|
        invariant out + EscapedAll(s[i..]) == old(out) + EscapedAll(s)
      {
        EscapedStep(s, i);
        Associative(out, Escaped(s[i]), EscapedAll(s[i + 1..]));
        out := out + Escaped(s[i]);
        i := i + 1;
      }
      NothingEscaped(s);
      assert out + [] == out;
    }

    method WriteNumber(n: int)
      requires Division.IsLong(n)
      modifies `out
      ensures out == old(out) + Numerals.Numeral(n, 10)
    {
      var printer := new Numerals.Printer();
      var p := printer.Ntoab(n, 10, true);
      NumeralChars(n);
      ghost var s := Numerals.Numeral(n, 10);
      assert forall k :: p <= k < 23 ==> printer.buffer[k] == printer.buffer[p..23][k - p];
      FdputsBuffer(printer.buffer, p, s);
    }

    /** Displays one level.  A datum of any depth is entered with enough levels
        left, because displaying an element starts the count anew. */
    method DisplayHelper(x: Datum, cont: bool, sep: Text)
      requires Plain(x) && (cont ==> x.Pair?)
      requires depth == 5 || (depth == 4 && x.Pair?)
      modifies this
      ensures out == old(out) + sep + if cont then WriteItems(x) else Write(x)
      ensures depth == 4
      decreases x, 3
    {
      Fdputs(sep);
      if depth == 0 {
        return;
      }
      depth := depth - 1;
      match x {
        case Number(n) => WriteNumber(n);
        case Character(c) => WriteCharacter(c);
        case String(s) => WriteString(s);
        case Pair(a, d) => WritePair(x, cont);
        case Vector(items) => WriteVector(x);
        case Keyword(s) =>
          Fdputs(Codes("#:"));
          FdwriteString(s);
          Associative(old(out) + sep, Codes("#:"), EscapedAll(s));
        case Null => FdwriteSpecial("()");
        case Bool(b) => FdwriteSpecial(if b then "#t" else "#f");
        case Dot => FdwriteString(Codes("."));
        case Symbol(s) => FdwriteString(s);
      }
    }

    method WriteCharacter(c: int)
      modifies `out
      ensures out == old(out) + (['#' as int] + CharacterText(c % 256))
    {
      Fdputs(['#' as int]);
      Fdputs(CharacterText(c % 256));
      Associative(old(out), ['#' as int], CharacterText(c % 256));
    }

    method WriteString(s: Text)
      modifies `out
      ensures out == old(out) + (['"' as int] + EscapedAll(s) + ['"' as int])
    {
      Fdputs(['"' as int]);
      FdwriteString(s);
      Fdputs(['"' as int]);
      Associative(old(out), ['"' as int], EscapedAll(s));
      Associative(old(out), ['"' as int] + EscapedAll(s), ['"' as int]);
    }

    /** The name of a special value, no byte of which is escaped. */
    method FdwriteSpecial(name: string)
      requires name == "()" || name == "#t" || name == "#f"
      modifies `out
      ensures out == old(out) + Codes(name)
    {
      FdwriteString(Codes(name));
      Unescapable(Codes(name));
    }

    method WritePair(x: Datum, cont: bool)
      requires Plain(x) && x.Pair?
      modifies this
      ensures out == old(out) + if cont then WriteItems(x) else Write(x)
      ensures depth == 4
      decreases x, 2
    {
      hide Write;
      hide Codes;
      if !cont {
        Fdputs(['(' as int]);
      }
      ghost var start := out;
      WriteElements(x);
      if !cont {
        Fdputs([')' as int]);
        PairText(x);
        Associative(old(out), ['(' as int], WriteItems(x));
        Associative(old(out), ['(' as int] + WriteItems(x), [')' as int]);
      }
    }

    /** The first element, and then the rest or the last tail. */
    method WriteElements(x: Datum)
      requires Plain(x) && x.Pair?
      modifies this
      ensures out == old(out) + WriteItems(x) && depth == 4
      decreases x, 1
    {
      hide Write;
      hide Codes;
      Fdisplay(x.car);
      if x.cdr.Pair? {
        DisplayHelper(x.cdr, true, [' ' as int]);
        Associative(old(out), Write(x.car), [' ' as int]);
        Associative(old(out), Write(x.car) + [' ' as int], WriteItems(x.cdr));
        Associative(Write(x.car), [' ' as int], WriteItems(x.cdr));
      } else if !x.cdr.Null? {
        Fdputs(Codes(" . "));
        Fdisplay(x.cdr);
        Associative(old(out), Write(x.car), Codes(" . "));
        Associative(old(out), Write(x.car) + Codes(" . "), Write(x.cdr));
        Associative(Write(x.car), Codes(" . "), Write(x.cdr));
      } else {
        assert Write(x.car) + [] == Write(x.car);
      }
    }

    method WriteVector(x: Datum)
      requires Plain(x) && x.Vector? && depth == 4
      modifies this
      ensures out == old(out) + Write(x) && depth == 4
      decreases x, 2
    {
      hide Write;
      hide Codes;
      hide Spaced;
      var items := x.items;
      Fdputs(Codes("#("));
      ghost var start := out;
      var i := 0;
      while i < |items|
        invariant 0 <= i <= |items| && depth == 4
        invariant out + Remaining(items, i) == start + Spaced(items)
      {
        RemainingStep(items, i);
        ghost var before, rest := out, Remaining(items, i + 1);
        WriteItem(items, i);
        ghost var piece := Item(items, i);
        Associative(before, piece, rest);
        i := i + 1;
      }
      NoneRemaining(items, out, start);
      Fdputs([')' as int]);
      VectorText(x);
      Associative(old(out), Codes("#("), Spaced(items));
      Associative(old(out), Codes("#(") + Spaced(items), [')' as int]);
    }

    method WriteItem(items: seq<Datum>, i: nat)
      requires i < |items| && Plain(items[i]) && depth == 4
      modifies this
      ensures out == old(out) + Item(items, i) && depth == 4
      decreases items, 0
    {
      hide Write;
      if i != 0 {
        Fdputs([' ' as int]);
      }
      Fdisplay(items[i]);
      if i != 0 {
        Associative(old(out), [' ' as int], Write(items[i]));
      } else {
        assert [] + Write(items[i]) == Write(items[i]);
      }
    }

    /** Displays a datum: all of it. */
    method Fdisplay(x: Datum)
      requires Plain(x)
      modifies this
      ensures out == old(out) + Write(x) && depth == 4
      decreases x, 4
    {
      depth := 5;
      DisplayHelper(x, false, []);
    }
  }

  function Remaining(items: seq<Datum>, i: nat): Text
    requires i <= |items|
  {
    if i == 0 then Spaced(items) else if i < |items| then [' ' as int] + Spaced(items[i..]) else []
  }

  function Item(items: seq<Datum>, i: nat): Text
    requires i < |items|
  {
    (if i == 0 then [] else [' ' as int]) + Write(items[i])
  }

  lemma RemainingStep(items: seq<Datum>, i: nat)
    requires i < |items|
    ensures Remaining(items, i) == Item(items, i) + Remaining(items, i + 1)
  {
    assert items[0..] == items;
    assert i + 1 < |items| ==> items[i..][1..] == items[i + 1..];
  }

  lemma NoneRemaining(items: seq<Datum>, out: Text, start: Text)
    requires out + Remaining(items, |items|) == start + Spaced(items)
    ensures out == start + Spaced(items)
  {
    assert out + [] == out;
  }

  lemma PairText(x: Datum)
    requires x.Pair?
    ensures Write(x) == ['(' as int] + WriteItems(x) + [')' as int]
  {
  }

  lemma VectorText(x: Datum)
    requires x.Vector?
    ensures Write(x) == Codes("#(") + Spaced(x.items) + [')' as int]
  {
  }

  lemma NumeralChars(n: int)
    ensures forall i :: 0 <= i < |Numerals.Numeral(n, 10)| ==> Numerals.Numeral(n, 10)[i] != 0
  {
    Numerals.SignedNumeral(n, 10);
    var u := if n < 0 then -n else n;
    var digits := Numerals.Digits(u, 10);
    forall i | 0 <= i < |digits| ensures digits[i] != 0 {
      Numerals.DigitsAreNumbers(u, 10, i);
    }
  }
}
