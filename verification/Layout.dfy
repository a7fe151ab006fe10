/** What written data look like: escapes, names of characters, and single spaces
    between the elements of lists and vectors. */
module Layout {
  import opened Bytes
  import opened Numerals
  import opened Syntax
  import opened Writer
  import opened RoundTrip

  /** The letter behind the backslash of each byte that is not written raw. */
  const LETTERS: map<int, char> :=
    map[0 := '0', 7 := 'a', 8 := 'b', 9 := 't', 10 := 'n', 11 := 'v', 12 := 'f', 13 := 'r', 27 := 'e',
        92 := '\\', 34 := '"']

  lemma EscapesExactly(b: Byte)
    ensures Escaped(b) == if b in LETTERS then ['\\' as int, LETTERS[b] as int] else [b]
  {
  }

  /** A byte that moves the cursor, rings the bell, or ends a C string. */
  predicate Control(b: int) {
    b == 0 || 7 <= b <= 13 || b == 27
  }

  predicate Clean(s: Text) {
    forall i :: 0 <= i < |s| ==> !Control(s[i])
  }

  /** Strings and names of any bytes are written without control characters. */
  lemma {:induction false} EscapedClean(s: Text)
    ensures Clean(EscapedAll(s))
  {
    if s != [] {
      EscapesExactly(s[0]);
      EscapedClean(s[1..]);
    }
  }

  /** The names of characters, as they are written. */
  const NAMES: map<int, string> :=
    map[0 := "nul", 7 := "alarm", 8 := "backspace", 9 := "tab", 10 := "newline", 11 := "vtab", 12 := "page",
        13 := "return", 32 := "space"]

  lemma CharactersExactly(b: Byte)
    ensures CharacterText(b) ==
      if b in NAMES then ['\\' as int] + Codes(NAMES[b])
      else if 32 < b <= 127 then ['\\' as int, b] else [b]
  {
    if b in NAMES {
      assert WrittenName(b, NAMES[b]);
      WrittenNameCodes(b, NAMES[b]);
    }
  }

  /** No character of code 27, the one control character that is written raw. */
  predicate NoEscape(x: Datum) {
    match x
    case Character(c) => c % 256 != 27
    case Pair(a, d) => NoEscape(a) && NoEscape(d)
    case Vector(items) => forall i :: 0 <= i < |items| ==> NoEscape(items[i])
    case _ => true
  }

  /** Texts with single spaces between them. */
  function Join(parts: seq<Text>): Text {
    if parts == [] then []
    else if |parts| == 1 then parts[0]
    else Join(parts[..|parts| - 1]) + [' ' as int] + parts[|parts| - 1]
  }

  function Texts(items: seq<Datum>): (ts: seq<Text>)
    ensures |ts| == |items| && forall i :: 0 <= i < |ts| ==> ts[i] == Write(items[i])
  {
    seq(|items|, i requires 0 <= i < |items| => Write(items[i]))
  }

  lemma {:induction false} JoinFirst(parts: seq<Text>)
    requires |parts| > 1
    ensures Join(parts) == parts[0] + [' ' as int] + Join(parts[1..])
  {
    var last := |parts| - 1;
    if |parts| > 2 {
      JoinFirst(parts[..last]);
      assert parts[..last][1..] == parts[1..][..last - 1];
    }
  }

  lemma {:induction false} SpacedJoins(items: seq<Datum>)
    ensures Spaced(items) == Join(Texts(items))
  {
    hide Write;
    if |items| > 1 {
      SpacedJoins(items[1..]);
      JoinFirst(Texts(items));
      assert Texts(items)[1..] == Texts(items[1..]);
    }
  }

  /** A vector: a number sign, and its elements in parentheses. */
  lemma VectorLayout(items: seq<Datum>)
    ensures Write(Vector(items)) == ['#' as int, '(' as int] + Join(Texts(items)) + [')' as int]
  {
    VectorText(Vector(items));
    SpacedJoins(items);
    assert Codes("#(") == ['#' as int, '(' as int];
  }

  /** A list that ends in a tail. */
  function Ending(items: seq<Datum>, tail: Datum): Datum {
    if items == [] then tail else Pair(items[0], Ending(items[1..], tail))
  }

  /** What is written of the tail of a list. */
  function TailText(tail: Datum): Text {
    if tail.Null? then [] else [' ' as int, '.' as int, ' ' as int] + Write(tail)
  }

  lemma Regroup(a: Text, b: Text, c: Text, d: Text)
    ensures a + (b + (c + d)) == a + b + c + d
  {
  }

  lemma {:induction false} ItemsJoin(items: seq<Datum>, tail: Datum)
    requires items != [] && !tail.Pair?
    ensures Ending(items, tail).Pair? && WriteItems(Ending(items, tail)) == Join(Texts(items)) + TailText(tail)
  {
    hide Write;
    assert Codes(" . ") == [' ' as int, '.' as int, ' ' as int];
    hide Codes;
    var rest := items[1..];
    if rest == [] {
      assert Texts(items)[0] + [] == Texts(items)[0];
    } else {
      ItemsJoin(rest, tail);
      assert WriteItems(Ending(items, tail)) == Write(items[0]) + ([' ' as int] + WriteItems(Ending(rest, tail)));
      JoinFirst(Texts(items));
      assert Texts(items)[1..] == Texts(rest);
      hide WriteItems, TailText, Join;
      Regroup(Write(items[0]), [' ' as int], Join(Texts(rest)), TailText(tail));
    }
  }

  /** A list: its elements in parentheses, and a dot in front of a last tail that
      is not the empty list. */
  lemma ListLayout(items: seq<Datum>, tail: Datum)
    requires !tail.Pair? && (items == [] ==> tail.Null?)
    ensures Write(Ending(items, tail)) == ['(' as int] + Join(Texts(items)) + TailText(tail) + [')' as int]
  {
    if items == [] {
      assert Codes("()") == ['(' as int, ')' as int];
    } else {
      hide Write, Ending;
      ItemsJoin(items, tail);
      PairText(Ending(items, tail));
    }
  }

  lemma NumeralClean(n: int)
    ensures Clean(Numeral(n, 10))
  {
    SignedNumeral(n, 10);
    var u := if n < 0 then -n else n;
    var digits := Digits(u, 10);
    forall i | 0 <= i < |digits| ensures !Control(digits[i]) {
      DigitsAreNumbers(u, 10, i);
    }
  }

  /** So is every datum that has no such character. */
  lemma {:induction false} WrittenClean(x: Datum)
    requires NoEscape(x)
    ensures Clean(Write(x))
    decreases x, 1
  {
    match x
    case Null => assert Codes("()") == [40, 41];
    case Bool(_) => assert Codes("#t") == [35, 116] && Codes("#f") == [35, 102];
    case Number(n) => NumeralClean(n);
    case Character(c) => CharacterClean(c % 256);
    case String(s) => EscapedClean(s);
    case Symbol(s) => EscapedClean(s);
    case Keyword(s) =>
      EscapedClean(s);
      assert Codes("#:") == [35, 58];
    case Pair(_, _) =>
      PairText(x);
      ItemsClean(x);
    case Vector(items) =>
      VectorText(x);
      SpacedClean(items);
      assert Codes("#(") == [35, 40];
    case Dot => EscapedClean(Codes("."));
  }

  lemma CharacterClean(b: Byte)
    requires b != 27
    ensures Clean(CharacterText(b))
  {
    CharactersExactly(b);
    if b in NAMES {
      WrittenNameCodes(b, NAMES[b]);
    }
  }

  lemma {:induction false} ItemsClean(x: Datum)
    requires x.Pair? && NoEscape(x)
    ensures Clean(WriteItems(x))
    decreases x, 0
  {
    WrittenClean(x.car);
    assert Codes(" . ") == [32, 46, 32];
    if x.cdr.Pair? {
      ItemsClean(x.cdr);
    } else if !x.cdr.Null? {
      WrittenClean(x.cdr);
    }
  }

  lemma {:induction false} SpacedClean(items: seq<Datum>)
    requires forall i :: 0 <= i < |items| ==> NoEscape(items[i])
    ensures Clean(Spaced(items))
    decreases items, 0
  {
    if items != [] {
      WrittenClean(items[0]);
      SpacedClean(items[1..]);
    }
  }
}
