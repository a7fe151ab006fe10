/** Which data can be written and read back: exactly the readable ones.

    What is written is a row of tokens.  Reading from any such row goes from token
    to token, whatever the names, numbers and characters in it are, and never
    yields some data; others come out of their own text as something else. */
module Exactly {
  import opened Bytes
  import opened Division
  import opened Numerals
  import opened Syntax
  import opened Writer
  import opened RoundTrip
  import opened Names

  datatype Token = Space | Open | Close | OpenVector | Atom(x: Datum)

  function TokenText(t: Token): Text {
    match t
    case Space => [' ' as int]
    case Open => ['(' as int]
    case Close => [')' as int]
    case OpenVector => Codes("#(")
    case Atom(x) => Write(x)
  }

  function TextOf(ts: seq<Token>): Text {
    if ts == [] then [] else TokenText(ts[0]) + TextOf(ts[1..])
  }

  /** A datum without parts, whose name, if it has one, has been read. */
  ghost predicate IsAtom(x: Datum) {
    !x.Pair? && !x.Vector? && NamesRead(x)
  }

  /** A dot that the reader takes for a lone one, because of what follows. */
  predicate LoneDotted(name: Text) {
    name != [] && name[0] == '.' as int && (|name| == 1 || !IsIdentifier(name[1]))
  }

  /** What may follow an atom. */
  predicate Follows(ts: seq<Token>) {
    ts == [] || ts[0].Space? || ts[0].Close?
  }

  ghost predicate Aligned(ts: seq<Token>) {
    ts == [] || (Aligned(ts[1..]) && (ts[0].Atom? ==> IsAtom(ts[0].x) && Follows(ts[1..])))
  }

  lemma {:induction false} TextAppend(a: seq<Token>, b: seq<Token>)
    ensures TextOf(a + b) == TextOf(a) + TextOf(b)
  {
    if a == [] {
      assert a + b == b;
    } else {
      assert (a + b)[1..] == a[1..] + b;
      TextAppend(a[1..], b);
      Associative(TokenText(a[0]), TextOf(a[1..]), TextOf(b));
    }
  }

  /** Nothing joins with what comes behind. */
  ghost predicate Separate(a: seq<Token>, b: seq<Token>) {
    a == [] || !a[|a| - 1].Atom? || b == [] || b[0].Space? || b[0].Close?
  }

  lemma {:induction false} AlignedAppend(a: seq<Token>, b: seq<Token>)
    requires Aligned(a) && Aligned(b) && Separate(a, b)
    ensures Aligned(a + b)
  {
    if a == [] {
      assert a + b == b;
    } else {
      assert (a + b)[1..] == a[1..] + b;
      AlignedAppend(a[1..], b);
    }
  }

  /** The tokens of what is written for a datum. */
  function Tokens(x: Datum): (ts: seq<Token>)
    ensures ts != []
    decreases x, 1
  {
    match x
    case Pair(_, _) => [Open] + ItemTokens(x) + [Close]
    case Vector(items) => [OpenVector] + SpacedTokens(items) + [Close]
    case _ => [Atom(x)]
  }

  function ItemTokens(x: Datum): (ts: seq<Token>)
    requires x.Pair?
    ensures ts != []
    decreases x, 0
  {
    Tokens(x.car) +
    match x.cdr
    case Null => []
    case Pair(_, _) => [Space] + ItemTokens(x.cdr)
    case _ => [Space, Atom(Dot), Space] + Tokens(x.cdr)
  }

  function SpacedTokens(items: seq<Datum>): seq<Token>
    decreases items, 0
  {
    if items == [] then []
    else if |items| == 1 then Tokens(items[0])
    else Tokens(items[0]) + [Space] + SpacedTokens(items[1..])
  }

  lemma OneToken(t: Token)
    ensures TextOf([t]) == TokenText(t)
  {
    assert [t][1..] == [];
    assert TokenText(t) + [] == TokenText(t);
  }

  lemma {:induction false} TokensWritten(x: Datum)
    requires NamesRead(x)
    ensures TextOf(Tokens(x)) == Write(x) && Aligned(Tokens(x))
    decreases x, 1
  {
    hide Write, TokenText, Aligned, WriteItems, Spaced;
    match x
    case Pair(_, _) =>
      ItemsWritten(x);
      PairText(x);
      Enclosed(Open, ItemTokens(x));
    case Vector(items) =>
      SpacedWritten(items);
      VectorText(x);
      Enclosed(OpenVector, SpacedTokens(items));
    case _ =>
      OneToken(Atom(x));
      AtomAligned(x);
  }

  lemma AtomAligned(x: Datum)
    requires IsAtom(x)
    ensures Aligned([Atom(x)]) && TokenText(Atom(x)) == Write(x)
  {
    var ts := [Atom(x)];
    assert ts[1..] == [] && Follows(ts[1..]) && Aligned(ts[1..]);
  }

  lemma Enclosed(t: Token, ts: seq<Token>)
    requires !t.Atom? && Aligned(ts)
    ensures Aligned([t] + ts + [Close])
    ensures TextOf([t] + ts + [Close]) == TokenText(t) + TextOf(ts) + [')' as int]
    ensures TokenText(Open) == ['(' as int] && TokenText(OpenVector) == Codes("#(")
  {
    AlignedOne(t);
    AlignedOne(Close);
    AlignedAppend([t], ts);
    AlignedAppend([t] + ts, [Close]);
    TextAppend([t], ts);
    TextAppend([t] + ts, [Close]);
    OneToken(t);
    OneToken(Close);
  }

  lemma AlignedOne(t: Token)
    requires !t.Atom?
    ensures Aligned([t])
  {
    assert [t][1..] == [];
  }

  lemma {:induction false} ItemsWritten(x: Datum)
    requires x.Pair? && NamesRead(x)
    ensures TextOf(ItemTokens(x)) == WriteItems(x) && Aligned(ItemTokens(x))
    decreases x, 0
  {
    hide Write, TokenText, Aligned;
    TokensWritten(x.car);
    var a := Tokens(x.car);
    if x.cdr.Null? {
      assert a + [] == a && Write(x.car) + [] == Write(x.car);
    } else if x.cdr.Pair? {
      ItemsWritten(x.cdr);
      Spread(a, ItemTokens(x.cdr));
    } else {
      TokensWritten(x.cdr);
      DotSpread(a, Tokens(x.cdr));
      assert !x.cdr.Null?;
    }
  }

  lemma Spread(a: seq<Token>, b: seq<Token>)
    requires Aligned(a) && Aligned(b)
    ensures Aligned(a + ([Space] + b)) && TextOf(a + ([Space] + b)) == TextOf(a) + ([' ' as int] + TextOf(b))
  {
    hide Aligned;
    AlignedOne(Space);
    AlignedAppend([Space], b);
    AlignedAppend(a, [Space] + b);
    TextAppend([Space], b);
    TextAppend(a, [Space] + b);
    OneToken(Space);
  }

  lemma DotSpread(a: seq<Token>, b: seq<Token>)
    requires Aligned(a) && Aligned(b)
    ensures Aligned(a + ([Space, Atom(Dot), Space] + b))
    ensures TextOf(a + ([Space, Atom(Dot), Space] + b)) == TextOf(a) + (Codes(" . ") + TextOf(b))
  {
    hide Aligned, Write, TextOf;
    AtomAligned(Dot);
    Spread([Atom(Dot)], b);
    Spread(a, [Atom(Dot)] + ([Space] + b));
    assert [Space] + ([Atom(Dot)] + ([Space] + b)) == [Space, Atom(Dot), Space] + b;
    OneToken(Atom(Dot));
    DotText(TextOf(b));
  }

  lemma DotText(s: Text)
    ensures Write(Dot) == ['.' as int]
    ensures [' ' as int] + (['.' as int] + ([' ' as int] + s)) == Codes(" . ") + s
  {
    assert Codes(".") == ['.' as int];
    assert Escaped('.' as int) == ['.' as int];
    assert EscapedAll(['.' as int]) == ['.' as int];
    assert Codes(" . ") == [' ' as int] + (['.' as int] + [' ' as int]);
  }

  lemma {:induction false} SpacedWritten(items: seq<Datum>)
    requires forall i :: 0 <= i < |items| ==> NamesRead(items[i])
    ensures TextOf(SpacedTokens(items)) == Spaced(items) && Aligned(SpacedTokens(items))
    decreases items, 0
  {
    hide Write, TokenText, NamesRead;
    if items != [] {
      TokensWritten(items[0]);
      if |items| > 1 {
        SpacedWritten(items[1..]);
        var a, b := Tokens(items[0]), SpacedTokens(items[1..]);
        Spread(a, b);
        assert a + [Space] + b == a + ([Space] + b);
        Associative(Write(items[0]), [' ' as int], Spaced(items[1..]));
      }
    }
  }

  /** A word as the reader sees it: a sign in front of a digit belongs to a
      number, and is gone if there was none after all. */
  function Unsigned(w: Text): (v: Text)
    requires w != []
    ensures v != [] && (v == w || (|v| < |w| && IsDigit(v[0])))
    ensures v == w || w[0] == '+' as int || w[0] == '-' as int
    ensures forall i :: 0 <= i < |v| ==> v[i] in w
  {
    if (w[0] == '+' as int || w[0] == '-' as int) && |w| > 1 && IsDigit(w[1]) then w[1..] else w
  }

  /** What a word is read as: a number or a name, all of it, or too long. */
  predicate WordValue(w: Text, r: Parse<Datum>, rest: Text)
    requires w != []
  {
    var v := Unsigned(w);
    r.Fail? ||
    (r.rest == rest &&
     if AllDigits(v) then r.value.Number? else r.value == Symbol(v) && |v| <= MAX_STRING)
  }

  lemma DigitGoesOn(c: int)
    requires IsDigit(c)
    ensures !EndsWord(c) && c != '-' as int
  {
  }

  /** What is in hand when the sign is gone. */
  lemma SignGone(w: Text, rest: Text)
    requires w != [] && EndsWord(Peek(rest))
    ensures
      var s := w[1..] + rest;
      var (c1, s1) := if w[0] == '+' as int && IsDigit(Peek(s)) then Next(s) else (w[0] as int, s);
      var negative := c1 == '-' as int && IsDigit(Peek(s1));
      var v := Unsigned(w);
      (if negative then Next(s1) else (c1, s1)) == (v[0] as int, v[1..] + rest)
  {
    hide EndsWord;
    SecondChar(w, rest);
    if |w| > 1 {
      NextAppend(w[1..], rest);
      assert w[1..][1..] == w[2..];
      if IsDigit(w[1]) {
        DigitGoesOn(w[1]);
      }
    }
  }

  lemma WordReads(w: Text, rest: Text)
    requires Solid(w) && EndsWord(Peek(rest))
    ensures WordValue(w, IdentifierOrNumber(w[0], w[1..] + rest), rest)
  {
    hide DigitRun, WordRun, Value, Wrap, Unsigned, DigitsEnd, CString, EndsWord, IsDigit;
    var v := Unsigned(w);
    SolidUnsigned(w);
    SignGone(w, rest);
    SolidRuns(v, rest);
    CStringWhole(v);
    PutNext(rest);
    var k := DigitsEnd(v);
    assert v[..k] + v[k..] == v;
  }

  lemma SolidUnsigned(w: Text)
    requires Solid(w)
    ensures Solid(Unsigned(w)) && forall i :: 0 <= i < |Unsigned(w)| ==> Unsigned(w)[i] != 0
  {
  }

  /** An atom that the reader passes over: what comes behind is read instead. */
  predicate Skipped(x: Datum) {
    x == Symbol([]) || (x.Character? && !NamedCharacter(x.code % 256))
  }

  /** What can come out of reading a row of tokens. */
  ghost predicate Fine(v: Datum) {
    match v
    case Character(c) => NamedCharacter(c)
    case Symbol(name) => name != [] && !LoneDotted(name)
    case Dot => false
    case Pair(a, d) => Fine(a) && Fine(d)
    case Vector(items) => forall i :: 0 <= i < |items| ==> Fine(items[i])
    case _ => true
  }

  /** An atom is read as something, and nothing else is touched; and as itself
      only if it is readable. */
  ghost predicate AtomValue(x: Datum, r: Parse<Datum>, rest: Text) {
    r.Fail? ||
    (&& r.rest == rest
     && (r.value == Dot <==> x == Dot) && (x != Dot ==> Fine(r.value))
     && (r.value == x && x != Dot ==> Readable(x)))
  }

  /** Escapes begin with a backslash, and make a name longer. */
  lemma {:induction false} EscapedWord(name: Text)
    requires OneWord(name)
    ensures name != [] ==> Solid(EscapedAll(name))
    ensures |EscapedAll(name)| >= |name|
    ensures EscapedAll(name) == name ==> forall i :: 0 <= i < |name| ==> Raw(name[i])
    ensures name != [] ==> EscapedAll(name)[0] == if Raw(name[0]) then name[0] else '\\' as int
  {
    EscapedFacts(name);
    if name != [] {
      EscapedWord(name[1..]);
      EscapedByte(name[0]);
    }
  }

  lemma EscapedByte(b: Byte)
    requires !EndsWord(b)
    ensures forall i :: 0 <= i < |Escaped(b)| ==> !EndsWord(Escaped(b)[i])
  {
    EscapeCodes(b);
  }

  /** If a word is read as the name that it was written for, then nothing was
      escaped, and no sign was lost. */
  lemma SameName(name: Text)
    requires name != [] && OneWord(name) && Unsigned(EscapedAll(name)) == name
    requires !AllDigits(name) && |name| <= MAX_STRING
    ensures WordName(name)
  {
    hide EscapedAll, Raw, IsDigit, EndsWord;
    EscapedWord(name);
    var w := EscapedAll(name);
    if Raw(name[0]) {
      assert w[0] == name[0];
    }
    NoSign(w, name);
    assert Unsigned(w) == w;
  }

  lemma NoSign(w: Text, name: Text)
    requires w != [] && name != [] && Unsigned(w) == name && (w[0] == name[0] || w[0] == '\\' as int)
    ensures w == name
    ensures w[0] == '+' as int || w[0] == '-' as int ==> |w| == 1 || !IsDigit(w[1])
  {
  }

  /** A name whose first character opens nothing else is read as a word. */
  lemma WordAsDatum(w: Text, rest: Text)
    requires Solid(w) && !Opens(w[0]) && EndsWord(Peek(rest)) && !LoneDotted(w)
    ensures Reads(w + rest) == IdentifierOrNumber(w[0], w[1..] + rest)
  {
    NextAppend(w, rest);
    SecondChar(w, rest);
    assert !EndsWord(w[0]);
    hide IdentifierOrNumber, ReadList, ReadHash, StringRest;
  }

  lemma SymbolAtom(name: Text, rest: Text)
    requires WordLike(name) && name != [] && !LoneDotted(EscapedAll(name)) && EndsWord(Peek(rest))
    ensures AtomValue(Symbol(name), Reads(Write(Symbol(name)) + rest), rest)
  {
    hide EscapedAll, IdentifierOrNumber, EndsWord, Reads, IsDigit, Unsigned, Raw;
    var w := EscapedAll(name);
    EscapedWord(name);
    BackslashOpensNothing();
    WordAsDatum(w, rest);
    WordReads(w, rest);
    var v := Unsigned(w);
    UnsignedDots(w);
    if v == name && !AllDigits(v) && |v| <= MAX_STRING {
      SameName(name);
    }
  }

  lemma BackslashOpensNothing()
    ensures !Opens('\\' as int) && IsIdentifier('\\' as int)
  {
  }

  lemma UnsignedDots(w: Text)
    requires w != [] && !LoneDotted(w)
    ensures !LoneDotted(Unsigned(w))
  {
  }

  lemma KeywordAtom(name: Text, rest: Text)
    requires OneWord(name) && EndsWord(Peek(rest))
    ensures AtomValue(Keyword(name), Reads(Write(Keyword(name)) + rest), rest)
  {
    hide EscapedAll, IdentifierOrNumber, EndsWord, Reads, IsDigit, Unsigned, Write;
    KeywordOpens(name, rest);
    var w := EscapedAll(name);
    if name == [] {
      NothingEscaped(name);
      assert name[|name|..] == name && w + rest == rest;
      NoWordThere(rest);
    } else {
      EscapedWord(name);
      NextAppend(w, rest);
      WordReads(w, rest);
      if Unsigned(w) == name && !AllDigits(name) && |name| <= MAX_STRING {
        SameName(name);
      }
    }
  }

  lemma NoWordThere(rest: Text)
    requires EndsWord(Peek(rest))
    ensures
      var (c, s) := Next(rest);
      var r := IdentifierOrNumber(c, s);
      r.Ok? && r.value.Number?
  {
    var (c, s) := Next(rest);
    assert DigitRun(c, s) == ([], c, s);
  }

  /** A lone dot at the start of a name is read as such, and the rest of the name
      is left. */
  lemma DotSplits(name: Text, rest: Text)
    requires WordLike(name) && LoneDotted(EscapedAll(name)) && EndsWord(Peek(rest))
    ensures Reads(Write(Symbol(name)) + rest) == Ok(Dot, EscapedAll(name[1..]) + rest)
    ensures WordLike(name[1..])
  {
    hide ReadList, ReadHash, StringRest, IdentifierOrNumber;
    DotFirst(name);
    var w := EscapedAll(name[1..]);
    assert Write(Symbol(name)) + rest == ['.' as int] + (w + rest);
    assert (['.' as int] + (w + rest))[1..] == w + rest;
    assert !IsIdentifier(Peek(w + rest));
  }

  lemma DotFirst(name: Text)
    requires WordLike(name) && LoneDotted(EscapedAll(name))
    ensures name != [] && EscapedAll(name) == ['.' as int] + EscapedAll(name[1..]) && WordLike(name[1..])
    ensures EscapedAll(name[1..]) != [] ==> !IsIdentifier(EscapedAll(name[1..])[0])
    ensures name[0] == '.' as int
  {
    var w := EscapedAll(name);
    EscapedWord(name);
    assert name == [] ==> w == [];
    assert Escaped('.' as int) == ['.' as int];
    assert w[1..] == EscapedAll(name[1..]);
    if |name| > 1 {
      EscapedWord(name[1..]);
      NotIdentifier(name[1]);
    }
  }

  lemma NotIdentifier(b: Byte)
    requires !IsIdentifier(b)
    ensures !Opens(b)
  {
  }

  lemma {:induction false} TooLongFails(done: Text, s: Text, rest: Text)
    requires |done| + |s| > MAX_STRING
    ensures StringRest(done, EscapedAll(s) + ['"' as int] + rest).Fail?
    decreases |s|
  {
    hide EscapedAll, Escaped;
    if |done| <= MAX_STRING {
      var quote: Text := ['"' as int];
      var next := EscapedAll(s[1..]) + quote + rest;
      EscapedStep(s, 0);
      assert s[0..] == s;
      assert EscapedAll(s) + quote + rest == Escaped(s[0]) + next;
      TooLongFails(done + [s[0]], s[1..], rest);
      EscapeReads(done, s[0], next);
    }
  }

  lemma StringAtom(s: Text, rest: Text)
    ensures AtomValue(String(s), Reads(Write(String(s)) + rest), rest)
  {
    hide EscapedAll, Reads, StringRest;
    if |s| <= MAX_STRING {
      StringAsDatum(s, rest);
    } else {
      var quote: Text := ['"' as int];
      var inside := EscapedAll(s) + quote + rest;
      assert quote + EscapedAll(s) + quote + rest == quote + inside;
      TooLongFails([], s, rest);
      StringOpens(inside);
    }
  }

  lemma CharacterAtom(c: int, rest: Text)
    requires EndsWord(Peek(rest)) && NamedCharacter(c % 256)
    ensures AtomValue(Character(c), Reads(Write(Character(c)) + rest), rest)
  {
    hide CharacterText, Reads;
    CharacterAsDatum(c % 256, rest);
  }

  /** A character without a name is written behind a number sign alone, and the
      reader passes over it. */
  lemma UnnamedSkipped(c: int, rest: Text)
    requires !NamedCharacter(c % 256)
    ensures Reads(Write(Character(c)) + rest) == Reads(rest)
    ensures StartsDatum(Write(Character(c)))
  {
    var b := c % 256;
    assert CharacterText(b) == [b];
    assert Write(Character(c)) + rest == ['#' as int] + ([b] + rest);
    HashOpens(b, rest);
    hide ReadSexp;
  }

  lemma PlainAtom(x: Datum, rest: Text)
    requires x.Null? || x.Bool? || x.Number? || x.Dot?
    requires EndsWord(Peek(rest))
    ensures AtomValue(x, Reads(Write(x) + rest), rest)
  {
    hide Reads, Numeral, Codes, EndsWord;
    match x
    case Null => NullAsDatum(rest);
    case Bool(b) => BoolAsDatum(b, rest);
    case Number(n) =>
      NumberAsDatum(n, rest);
      LongIsLong(n);
    case Dot => LoneDotReads(rest);
  }

  lemma LongIsLong(n: int)
    ensures IsLong(Long(n))
  {
  }

  lemma LoneDotReads(rest: Text)
    requires EndsWord(Peek(rest))
    ensures Reads(Write(Dot) + rest) == Ok(Dot, rest)
  {
    DotText([]);
    var text: Text := ['.' as int] + rest;
    assert text[1..] == rest;
    hide ReadList, ReadHash, IdentifierOrNumber;
  }

  lemma AtomReads(x: Datum, rest: Text)
    requires IsAtom(x) && !Skipped(x) && EndsWord(Peek(rest))
    requires x.Symbol? ==> !LoneDotted(EscapedAll(x.name))
    ensures AtomValue(x, Reads(Write(x) + rest), rest)
  {
    hide AtomValue, Reads, Write, EndsWord, EscapedAll;
    match x
    case String(s) => StringAtom(s, rest);
    case Character(c) => CharacterAtom(c, rest);
    case Symbol(name) => SymbolAtom(name, rest);
    case Keyword(name) => KeywordAtom(name, rest);
    case _ => PlainAtom(x, rest);
  }

  lemma AtomStarts(x: Datum)
    requires IsAtom(x) && x != Symbol([])
    ensures StartsDatum(Write(x))
  {
    hide Write, Numeral, CharacterText, EscapedAll, StartsDatum;
    match x
    case Number(n) => AnyNumberStarts(n);
    case Character(c) =>
      if NamedCharacter(c % 256) {
        AnyCharacterStarts(c);
      } else {
        UnnamedSkipped(c, []);
      }
    case Symbol(name) => AnyNameStarts(name);
    case Keyword(name) => KeywordStarts(name);
    case Dot => DotStarts();
    case _ => BracketStarts(x);
  }

  lemma AnyNumberStarts(n: int)
    ensures StartsDatum(Write(Number(n)))
  {
    hide Numeral;
    NumberReads(n, []);
  }

  lemma AnyCharacterStarts(c: int)
    requires NamedCharacter(c % 256)
    ensures StartsDatum(Write(Character(c)))
  {
    CharacterStarts(c % 256);
  }

  lemma AnyNameStarts(name: Text)
    requires WordLike(name) && name != []
    ensures StartsDatum(Write(Symbol(name)))
  {
    EscapedWord(name);
    BackslashOpensNothing();
    assert !EndsWord(name[0]);
    hide EscapedAll;
  }

  lemma DotStarts()
    ensures StartsDatum(Write(Dot))
  {
    DotText([]);
  }

  /** What may come out of reading a row of tokens, and the tokens left. */
  ghost predicate Leaves(r: Parse<Datum>, after: seq<Token>, dot: bool) {
    r.Ok? ==> ((dot && r.value == Dot) || Fine(r.value)) && Aligned(after) && TextOf(after) == r.rest
  }

  lemma FirstToken(ts: seq<Token>)
    requires ts != [] && Aligned(ts)
    ensures TextOf(ts) == TokenText(ts[0]) + TextOf(ts[1..]) && Aligned(ts[1..])
    ensures |TextOf(ts[1..])| <= |TextOf(ts)|
    ensures ts[0].Atom? ==> Follows(ts[1..]) && IsAtom(ts[0].x) && EndsWord(Peek(TextOf(ts[1..])))
    ensures !ts[0].Atom? ==> |TextOf(ts[1..])| < |TextOf(ts)|
  {
    hide Write, NamesRead, Codes, EndsWord;
    if ts[0].Atom? {
      Ended(ts[1..]);
    } else {
      TokenNotEmpty(ts[0]);
    }
  }

  lemma TokenNotEmpty(t: Token)
    requires !t.Atom?
    ensures TokenText(t) != []
  {
    assert Codes("#(") == [35, 40];
  }

  /** Tokens that end a datum. */
  lemma Ended(ts: seq<Token>)
    requires Follows(ts)
    ensures EndsWord(Peek(TextOf(ts)))
  {
    hide Write;
    if ts != [] {
      assert TextOf(ts)[0] == TokenText(ts[0])[0];
    }
  }

  lemma SpaceReads(s: Text)
    ensures Reads([' ' as int] + s) == Reads(s)
    ensures Reads([')' as int] + s) == Ok(Null, s) && Reads([]) == Ok(Null, [])
  {
    assert ([' ' as int] + s)[1..] == s && ([')' as int] + s)[1..] == s;
    hide ReadList, ReadHash, IdentifierOrNumber, StringRest;
  }

  lemma VectorOpens(s: Text)
    ensures Codes("#(") + s == ['#' as int] + (['(' as int] + s)
    ensures Reads(Codes("#(") + s) ==
      var list := ReadsList(s);
      if list.Fail? then list
      else
        var items := Items(list.value);
        if items.Fail? then Fail(items.problem) else Ok(Vector(items.value), list.rest)
  {
    assert Codes("#(") == [35, 40];
    assert Codes("#(") + s == ['#' as int] + (['(' as int] + s);
    HashOpens('(' as int, s);
    hide ReadList, ReadSexp;
  }

  lemma {:induction false} FineItems(v: Datum)
    requires Fine(v) && Items(v).Ok?
    ensures Fine(Vector(Items(v).value))
  {
    if v.Pair? {
      FineItems(v.cdr);
    }
  }

  /** An atom, and what follows. */
  lemma {:induction false} AtomLeaves(ts: seq<Token>) returns (after: seq<Token>)
    requires Aligned(ts) && ts != [] && ts[0].Atom?
    ensures Leaves(Reads(TextOf(ts)), after, true)
    decreases |TextOf(ts)|, |ts|, 0
  {
    hide Reads, Write, Aligned, TextOf, EndsWord, TokenText, EscapedAll;
    FirstToken(ts);
    var x, rest := ts[0].x, ts[1..];
    AtomText(x);
    if Skipped(x) {
      SkippedReads(x, TextOf(rest));
      after := ReadsFine(rest);
    } else if x.Symbol? && LoneDotted(EscapedAll(x.name)) {
      DotSplits(x.name, TextOf(rest));
      after := NameFirst(x.name[1..], rest);
    } else {
      AtomReads(x, TextOf(rest));
      after := rest;
    }
  }

  lemma AtomText(x: Datum)
    ensures TokenText(Atom(x)) == Write(x)
  {
  }

  lemma SkippedReads(x: Datum, rest: Text)
    requires Skipped(x)
    ensures Reads(Write(x) + rest) == Reads(rest)
  {
    if x.Symbol? {
      assert Write(x) + rest == rest;
    } else {
      UnnamedSkipped(x.code, rest);
    }
  }

  /** The rest of a name, as a token. */
  lemma NameFirst(name: Text, ts: seq<Token>) returns (after: seq<Token>)
    requires WordLike(name) && Aligned(ts) && Follows(ts)
    ensures Aligned(after) && TextOf(after) == EscapedAll(name) + TextOf(ts)
  {
    after := [Atom(Symbol(name))] + ts;
    assert after[1..] == ts;
  }

  /** Reading a row of tokens, a datum or the rest of a list, comes to tokens
      again, and never yields a character without a name, an empty symbol or a
      lone dot inside of something. */
  lemma {:induction false} ReadsFine(ts: seq<Token>) returns (after: seq<Token>)
    requires Aligned(ts)
    ensures Leaves(Reads(TextOf(ts)), after, true)
    ensures ts != [] && (ts[0].Open? || ts[0].OpenVector?) ==> Leaves(Reads(TextOf(ts)), after, false)
    decreases |TextOf(ts)|, |ts|, 1
  {
    hide Reads, ReadsList, Aligned, Write;
    after := [];
    SpaceReads([]);
    if ts != [] {
      FirstToken(ts);
      var rest := ts[1..];
      match ts[0]
      case Space =>
        SpaceReads(TextOf(rest));
        after := ReadsFine(rest);
      case Close =>
        SpaceReads(TextOf(rest));
        after := rest;
      case Open =>
        ListOpens(TextOf(rest));
        after := ListFine(rest);
      case OpenVector =>
        VectorOpens(TextOf(rest));
        after := ListFine(rest);
        var list := ReadsList(TextOf(rest));
        if list.Ok? && Items(list.value).Ok? {
          FineItems(list.value);
        }
      case Atom(_) => after := AtomLeaves(ts);
    } else {
      assert Aligned(after);
    }
  }

  lemma {:induction false} ListFine(ts: seq<Token>) returns (after: seq<Token>)
    requires Aligned(ts)
    ensures Leaves(ReadsList(TextOf(ts)), after, false)
    decreases |TextOf(ts)|, |ts|, 2
  {
    hide Reads, ReadsList, Aligned, Write, StartsDatum;
    after := [];
    ListEnd();
    if ts != [] {
      FirstToken(ts);
      var s, rest := TokenText(ts[0]), ts[1..];
      if ts[0].Space? {
        SkipSpace(TextOf(rest));
        after := ListFine(rest);
      } else if ts[0].Close? {
        EndOfList(TextOf(rest));
        after := rest;
      } else if ts[0] == Atom(Symbol([])) {
        assert TextOf(ts) == TextOf(rest) by { SkippedText(TextOf(rest)); }
        after := ListFine(rest);
      } else {
        TokenStarts(ts[0]);
        var next := ReadsFine(ts);
        var r := Reads(TextOf(ts));
        FirstItem(s, TextOf(rest));
        if r.Ok? {
          after := ListFine(next);
        }
      }
    }
  }

  lemma SkippedText(s: Text)
    ensures Write(Symbol([])) + s == s
  {
  }

  lemma ListEnd()
    ensures ReadsList([]).Fail?
  {
  }

  lemma TokenStarts(t: Token)
    requires t.Atom? ==> IsAtom(t.x) && t.x != Symbol([])
    requires !t.Space? && !t.Close?
    ensures StartsDatum(TokenText(t))
  {
    hide Write;
    if t.Atom? {
      AtomStarts(t.x);
    }
    assert Codes("#(") == [35, 40];
  }

  /** A list whose first datum is this one. */
  lemma FirstItem(s: Text, rest: Text)
    requires StartsDatum(s)
    ensures
      var r, list := Reads(s + rest), ReadsList(s + rest);
      && (r.Fail? ==> list.Fail?)
      && (r.Ok? ==> |r.rest| < |s + rest|)
      && (r.Ok? ==>
            var tail := ReadsList(r.rest);
            list == if tail.Fail? then tail
                    else if r.value != Dot then Ok(Pair(r.value, tail.value), tail.rest)
                    else if tail.value.Pair? then Ok(tail.value.car, tail.rest)
                    else Fail(Improper))
  {
    NotSpaceThere(s, rest);
    NextAppend(s, rest);
    hide EatWhitespace, ReadSexp;
  }

  /** A datum in front of other tokens. */
  lemma DatumFirst(x: Datum, ts: seq<Token>) returns (all: seq<Token>)
    requires NamesRead(x) && Aligned(ts) && Follows(ts)
    ensures Aligned(all) && TextOf(all) == Write(x) + TextOf(ts) && all != []
    ensures x.Pair? ==> all[0].Open?
    ensures x.Vector? ==> all[0].OpenVector?
  {
    hide Write, Aligned, TextOf;
    TokensWritten(x);
    all := Tokens(x) + ts;
    AlignedAppend(Tokens(x), ts);
    TextAppend(Tokens(x), ts);
  }

  /** A datum that can come out of a row of tokens is not read as a lone dot. */
  lemma NoDot(x: Datum, ts: seq<Token>)
    requires NamesRead(x) && Fine(x) && Aligned(ts) && Follows(ts)
    ensures
      var r := Reads(Write(x) + TextOf(ts));
      r.Ok? ==> r.value != Dot
    ensures StartsDatum(Write(x))
  {
    hide Write, Reads, Aligned, TextOf, EndsWord, StartsDatum;
    if x.Pair? || x.Vector? {
      BracketStarts(x);
      var all := DatumFirst(x, ts);
      var after := ReadsFine(all);
    } else {
      AtomStarts(x);
      Ended(ts);
      FineAtom(x);
      AtomReads(x, TextOf(ts));
    }
  }

  lemma FineAtom(x: Datum)
    requires Fine(x) && IsAtom(x)
    ensures x != Dot && !Skipped(x) && (x.Symbol? ==> !LoneDotted(EscapedAll(x.name)))
  {
    if x.Symbol? {
      EscapedDots(x.name);
    }
  }

  /** Escaping makes no dot a lone one. */
  lemma EscapedDots(name: Text)
    requires OneWord(name) && name != [] && !LoneDotted(name)
    ensures !LoneDotted(EscapedAll(name))
  {
    EscapedWord(name);
    if name[0] == '.' as int {
      EscapedWord(name[1..]);
      BackslashOpensNothing();
      assert Escaped('.' as int) == ['.' as int];
      assert EscapedAll(name)[1..] == EscapedAll(name[1..]);
    }
    hide EscapedAll;
  }

  /** Whatever is read back, in front of any tokens, is readable. */
  lemma {:induction false} ReadBack(x: Datum, ts: seq<Token>)
    requires NamesRead(x) && Fine(x) && Aligned(ts) && Follows(ts)
    requires Reads(Write(x) + TextOf(ts)).Ok? && Reads(Write(x) + TextOf(ts)).value == x
    ensures Readable(x)
    decreases x, 2
  {
    hide Write, Reads, Aligned, TextOf, EndsWord, WriteItems, Spaced;
    if x.Pair? {
      PairText(x);
      var end := CloseFirst(ts);
      var s := WriteItems(x) + TextOf(end);
      assert Write(x) + TextOf(ts) == ['(' as int] + s;
      ListOpens(s);
      ItemsBack(x, end);
    } else if x.Vector? {
      VectorText(x);
      var end := CloseFirst(ts);
      var s := Spaced(x.items) + TextOf(end);
      assert Write(x) + TextOf(ts) == Codes("#(") + s;
      VectorOpens(s);
      SpacedBack(x.items, end);
    } else {
      Ended(ts);
      FineAtom(x);
      AtomReads(x, TextOf(ts));
    }
  }

  lemma CloseFirst(ts: seq<Token>) returns (end: seq<Token>)
    requires Aligned(ts)
    ensures Aligned(end) && Follows(end) && TextOf(end) == [')' as int] + TextOf(ts)
  {
    end := [Close] + ts;
    assert end[1..] == ts;
  }

  lemma SpaceFirst(ts: seq<Token>) returns (more: seq<Token>)
    requires Aligned(ts)
    ensures Aligned(more) && Follows(more) && TextOf(more) == [' ' as int] + TextOf(ts)
  {
    more := [Space] + ts;
    assert more[1..] == ts;
  }

  /** The first datum of a list is readable if the list is read back, and the
      rest is read behind it. */
  lemma {:induction false} FirstBack(a: Datum, ts: seq<Token>, v: Datum, rest: Text)
    requires NamesRead(a) && Fine(a) && Aligned(ts) && Follows(ts)
    requires v.Pair? && v.car == a && ReadsList(Write(a) + TextOf(ts)) == Ok(v, rest)
    ensures Readable(a) && ReadsList(TextOf(ts)) == Ok(v.cdr, rest)
    decreases a, 3
  {
    hide Write, Reads, ReadsList, Aligned, TextOf, EndsWord;
    NoDot(a, ts);
    FirstItem(Write(a), TextOf(ts));
    ReadBack(a, ts);
    Ended(ts);
    WriteRead(a, TextOf(ts));
  }

  lemma {:induction false} ItemsBack(x: Datum, end: seq<Token>)
    requires x.Pair? && NamesRead(x) && Fine(x) && Aligned(end) && Follows(end)
    requires ReadsList(WriteItems(x) + TextOf(end)).Ok? && ReadsList(WriteItems(x) + TextOf(end)).value == x
    ensures Readable(x)
    decreases x, 1
  {
    hide Write, Reads, ReadsList, Aligned, TextOf, NamesRead;
    var a, d := x.car, x.cdr;
    PartsRead(x);
    var rest := ReadsList(WriteItems(x) + TextOf(end)).rest;
    if d.Null? {
      assert WriteItems(x) + TextOf(end) == Write(a) + TextOf(end);
      FirstBack(a, end, x, rest);
    } else if d.Pair? {
      var row := ItemsFirst(d, end);
      var more := SpaceFirst(row);
      assert WriteItems(x) + TextOf(end) == Write(a) + TextOf(more);
      FirstBack(a, more, x, rest);
      SkipSpace(TextOf(row));
      ItemsBack(d, end);
    } else {
      DottedBack(a, d, end, rest);
    }
  }

  lemma PartsRead(x: Datum)
    requires x.Pair? && NamesRead(x) && Fine(x)
    ensures NamesRead(x.car) && NamesRead(x.cdr) && Fine(x.car) && Fine(x.cdr)
  {
  }

  lemma ItemsFirst(x: Datum, end: seq<Token>) returns (row: seq<Token>)
    requires x.Pair? && NamesRead(x) && Aligned(end) && Follows(end)
    ensures Aligned(row) && TextOf(row) == WriteItems(x) + TextOf(end)
  {
    hide Aligned, TextOf, WriteItems;
    ItemsWritten(x);
    row := ItemTokens(x) + end;
    AlignedAppend(ItemTokens(x), end);
    TextAppend(ItemTokens(x), end);
  }

  /** A list with a last tail. */
  lemma {:induction false} DottedBack(a: Datum, d: Datum, end: seq<Token>, rest: Text)
    requires NamesRead(a) && Fine(a) && NamesRead(d) && Fine(d) && !d.Null? && !d.Pair?
    requires Aligned(end) && Follows(end)
    requires ReadsList(WriteItems(Pair(a, d)) + TextOf(end)) == Ok(Pair(a, d), rest)
    ensures Readable(a) && Readable(d)
    decreases Pair(a, d), 0
  {
    hide Write, Reads, ReadsList, Aligned, TextOf, NamesRead, WriteItems;
    var last := DatumFirst(d, end);
    var row := DotFirstTokens(last);
    var more := SpaceFirst(row);
    TailRead(a, d, TextOf(end));
    assert TextOf(more) == Dotted(d, TextOf(end));
    FirstBack(a, more, Pair(a, d), rest);
    DotSkipped(TextOf(last));
    NoDot(d, end);
    FirstItem(Write(d), TextOf(end));
    ReadBack(d, end);
  }

  lemma DotFirstTokens(ts: seq<Token>) returns (row: seq<Token>)
    requires Aligned(ts)
    ensures Aligned(row) && TextOf(row) == ['.' as int] + ([' ' as int] + TextOf(ts))
  {
    hide Write;
    DotText([]);
    var more := SpaceFirst(ts);
    row := [Atom(Dot)] + more;
    assert row[1..] == more;
  }

  /** Behind a lone dot, the list is its first datum. */
  lemma DotSkipped(s: Text)
    ensures
      var list := ReadsList([' ' as int] + (['.' as int] + ([' ' as int] + s)));
      var tail := ReadsList(s);
      list == if tail.Fail? then tail
              else if tail.value.Pair? then Ok(tail.value.car, tail.rest)
              else Fail(Improper)
  {
    hide Reads, ReadsList;
    var dot: Text := ['.' as int];
    SkipSpace(dot + ([' ' as int] + s));
    LoneDot(s);
    FirstItem(dot, [' ' as int] + s) by { DotIsDatum(); }
    SkipSpace(s);
  }

  lemma DotIsDatum()
    ensures StartsDatum(['.' as int])
  {
  }

  lemma {:induction false} SpacedBack(items: seq<Datum>, end: seq<Token>)
    requires forall i :: 0 <= i < |items| ==> NamesRead(items[i]) && Fine(items[i])
    requires Aligned(end) && Follows(end)
    requires ReadsList(Spaced(items) + TextOf(end)).Ok?
    requires Items(ReadsList(Spaced(items) + TextOf(end)).value) == Ok(items, [])
    ensures forall i :: 0 <= i < |items| ==> Readable(items[i])
    decreases items, 1
  {
    hide Write, Reads, ReadsList, Aligned, TextOf, NamesRead, Fine, Readable;
    if items != [] {
      var list := ReadsList(Spaced(items) + TextOf(end));
      var v := list.value;
      ItemsSplit(v, items);
      if |items| == 1 {
        FirstBack(items[0], end, v, list.rest);
      } else {
        var row := SpacedFirst(items[1..], end);
        var more := SpaceFirst(row);
        assert Spaced(items) + TextOf(end) == Write(items[0]) + TextOf(more);
        FirstBack(items[0], more, v, list.rest);
        SkipSpace(TextOf(row));
        SpacedBack(items[1..], end);
        assert forall i :: 0 < i < |items| ==> items[i] == items[1..][i - 1];
      }
    }
  }

  lemma ItemsSplit(v: Datum, items: seq<Datum>)
    requires Items(v) == Ok(items, []) && items != []
    ensures v.Pair? && v.car == items[0] && Items(v.cdr) == Ok(items[1..], [])
  {
  }

  lemma SpacedFirst(items: seq<Datum>, end: seq<Token>) returns (row: seq<Token>)
    requires forall i :: 0 <= i < |items| ==> NamesRead(items[i])
    requires Aligned(end) && Follows(end)
    ensures Aligned(row) && TextOf(row) == Spaced(items) + TextOf(end)
  {
    hide Aligned, TextOf, Spaced, NamesRead;
    SpacedWritten(items);
    row := SpacedTokens(items) + end;
    AlignedAppend(SpacedTokens(items), end);
    TextAppend(SpacedTokens(items), end);
  }

  /** A datum is read back from what is written for it if and only if it is
      readable, or the lone dot itself. */
  lemma DataExactly(x: Datum)
    ensures Reads(Write(x)) == Ok(x, []) <==> Readable(x) || x == Dot
  {
    hide Write, ReadSexp;
    assert Write(x) + [] == Write(x);
    if Readable(x) {
      WriteRead(x, []);
    }
    LoneDotReads([]);
    if Reads(Write(x)) == Ok(x, []) && x != Dot {
      SexpNames(Next(Write(x)).0, Next(Write(x)).1);
      TokensWritten(x);
      var after := ReadsFine(Tokens(x));
      assert Aligned([]) && TextOf([]) == [];
      ReadBack(x, []);
    }
  }
}
