/** What is written is read back. */
module RoundTrip {
  import opened Bytes
  import opened Division
  import opened Numerals
  import opened Syntax
  import opened Writer
  import opened Wrappers
  import Reader

  /** A name that needs no escapes, is one word, and does not look like a
      number: the reader has no escapes for names. */
  ghost predicate WordName(name: Text) {
    && 0 < |name| <= MAX_STRING
    && (forall i :: 0 <= i < |name| ==> Raw(name[i]) && !EndsWord(name[i]))
    && (exists i :: 0 <= i < |name| && !IsDigit(name[i]))
    && (name[0] == '+' as int || name[0] == '-' as int ==> |name| == 1 || !IsDigit(name[1]))
  }

  /** Nor does the name of a symbol look like the start of anything else. */
  ghost predicate Ordinary(name: Text) {
    && WordName(name)
    && name[0] != '#' as int && name[0] != '`' as int && name[0] != ',' as int && name[0] != '\'' as int
    && (name[0] == '.' as int ==> |name| > 1 && IsIdentifier(name[1]))
  }

  /** The characters that the writer names, or writes behind a backslash. */
  predicate NamedCharacter(c: int) {
    c == 0 || 7 <= c <= 13 || 32 <= c <= 127
  }

  /** Data that the reader can get back: no port or procedure, and no control
      character without a name. */
  ghost predicate Readable(x: Datum) {
    match x
    case Null => true
    case Bool(_) => true
    case Number(n) => IsLong(n)
    case Character(c) => NamedCharacter(c)
    case String(s) => |s| <= MAX_STRING
    case Symbol(name) => Ordinary(name)
    case Pair(a, d) => Readable(a) && Readable(d)
    case Vector(items) => forall i :: 0 <= i < |items| ==> Readable(items[i])
    case Keyword(name) => WordName(name)
    case Dot => false
  }

  /** Reading on from the start of a text. */
  function Reads(s: Text): Parse<Datum> {
    ReadSexp(Next(s).0, Next(s).1)
  }

  function ReadsList(s: Text): Parse<Datum> {
    ReadList(Next(s).0, Next(s).1)
  }

  lemma PutNext(s: Text)
    ensures Put(Next(s).0, Next(s).1) == s
  {
  }

  lemma NextAppend(a: Text, b: Text)
    requires a != []
    ensures Next(a + b) == (a[0] as int, a[1..] + b)
  {
    assert (a + b)[1..] == a[1..] + b;
  }

  /** A run of digits in front of something else. */
  lemma {:induction false} DigitRunOf(digits: Text, rest: Text)
    requires forall i :: 0 <= i < |digits| ==> IsDigit(digits[i])
    requires !IsDigit(Peek(rest))
    ensures DigitRun(Next(digits + rest).0, Next(digits + rest).1) == (digits, Next(rest).0, Next(rest).1)
  {
    if digits == [] {
      assert digits + rest == rest;
    } else {
      NextAppend(digits, rest);
      DigitRunOf(digits[1..], rest);
      assert [digits[0]] + digits[1..] == digits;
    }
  }

  lemma {:induction false} WordRunOf(word: Text, rest: Text)
    requires forall i :: 0 <= i < |word| ==> !EndsWord(word[i])
    requires EndsWord(Peek(rest))
    ensures WordRun(Next(word + rest).0, Next(word + rest).1) == (word, Next(rest).0, Next(rest).1)
  {
    if word == [] {
      assert word + rest == rest;
    } else {
      NextAppend(word, rest);
      WordRunOf(word[1..], rest);
      assert [word[0]] + word[1..] == word;
    }
  }

  lemma {:induction false} CStringWhole(s: Text)
    requires forall i :: 0 <= i < |s| ==> s[i] != 0
    ensures CString(s) == s
  {
    if s != [] {
      CStringWhole(s[1..]);
    }
  }

  /** Where the digits at the start of a name end. */
  function DigitsEnd(s: Text): (k: nat)
    ensures k <= |s| && (forall i :: 0 <= i < k ==> IsDigit(s[i])) && (k < |s| ==> !IsDigit(s[k]))
  {
    if s != [] && IsDigit(s[0]) then 1 + DigitsEnd(s[1..]) else 0
  }

  predicate AllDigits(v: Text) {
    forall i :: 0 <= i < |v| ==> IsDigit(v[i])
  }

  /** A row of characters none of which ends a word. */
  predicate Solid(w: Text) {
    w != [] && forall i :: 0 <= i < |w| ==> !EndsWord(w[i]) && w[i] != 0
  }

  lemma DigitsAll(v: Text)
    ensures AllDigits(v) <==> DigitsEnd(v) == |v|
  {
    hide IsDigit;
    var k := DigitsEnd(v);
    if k < |v| {
      assert !IsDigit(v[k]);
    }
  }

  lemma Parts(v: Text, k: nat, rest: Text)
    requires v != [] && k <= |v|
    ensures v[0] == (v + rest)[0] && (v + rest)[1..] == v[1..] + rest
    ensures v + rest == v[..k] + (v[k..] + rest)
  {
    assert v == v[..k] + v[k..];
  }

  /** The runs of digits and of others that a word consists of. */
  lemma SolidRuns(v: Text, rest: Text)
    requires Solid(v) && EndsWord(Peek(rest))
    ensures
      var k := DigitsEnd(v);
      var (digits, c, s) := DigitRun(v[0], v[1..] + rest);
      && digits == v[..k] && (AllDigits(v) <==> k == |v|)
      && if k == |v| then (c, s) == Next(rest)
         else c == v[k] && WordRun(c, s) == (v[k..], Next(rest).0, Next(rest).1)
  {
    hide DigitRun, WordRun, EndsWord, DigitsEnd, IsDigit;
    var k := DigitsEnd(v);
    DigitsAll(v);
    EndsHere(rest);
    Parts(v, k, rest);
    var word := v[k..];
    if k == |v| {
      assert word + rest == rest;
      DigitRunOf(v[..k], rest);
    } else {
      FirstOf(word, rest);
      DigitRunOf(v[..k], word + rest);
      WordPart(v, k, rest);
    }
  }

  lemma FirstOf(w: Text, rest: Text)
    requires w != []
    ensures Peek(w + rest) == w[0] && Next(w + rest) == (w[0] as int, w[1..] + rest)
  {
    NextAppend(w, rest);
  }

  lemma WordPart(v: Text, k: nat, rest: Text)
    requires Solid(v) && EndsWord(Peek(rest)) && k < |v|
    ensures WordRun(v[k], v[k..][1..] + rest) == (v[k..], Next(rest).0, Next(rest).1)
  {
    hide EndsWord, WordRun;
    var word := v[k..];
    assert forall i :: 0 <= i < |word| ==> word[i] == v[k + i];
    FirstOf(word, rest);
    WordRunOf(word, rest);
  }

  lemma EndsHere(rest: Text)
    requires EndsWord(Peek(rest))
    ensures !IsDigit(Peek(rest))
  {
  }

  lemma NameReads(name: Text, rest: Text)
    requires WordName(name) && EndsWord(Peek(rest))
    ensures IdentifierOrNumber(name[0], name[1..] + rest) == Ok(Symbol(name), rest)
  {
    hide DigitRun, WordRun, CString, Value, EndsWord, DigitsEnd, IsDigit, Raw;
    NameSolid(name);
    SolidRuns(name, rest);
    CStringWhole(name);
    PutNext(rest);
    SecondChar(name, rest);
    var k := DigitsEnd(name);
    assert name[..k] + name[k..] == name;
  }

  lemma NameSolid(name: Text)
    requires WordName(name)
    ensures Solid(name) && !AllDigits(name)
  {
  }

  lemma SecondChar(name: Text, rest: Text)
    requires name != [] && EndsWord(Peek(rest))
    ensures Peek(name[1..] + rest) == if |name| > 1 then name[1] as int else Peek(rest)
    ensures !IsDigit(Peek(rest)) && !IsNameChar(Peek(rest))
  {
  }

  /** A number is cut to a word when it is read. */
  lemma NumberReads(n: int, rest: Text)
    requires EndsWord(Peek(rest))
    ensures IsLong(n) ==> Long(n) == n
    ensures
      var s := Numeral(n, 10);
      && s != [] && (IsDigit(s[0]) || s[0] == '-' as int)
      && IdentifierOrNumber(s[0], s[1..] + rest) == Ok(Number(Long(n)), rest)
  {
    var u := if n < 0 then -n else n;
    var digits := Digits(u, 10);
    SignedNumeral(n, 10);
    forall i | 0 <= i < |digits| ensures IsDigit(digits[i]) {
      DigitsAreNumbers(u, 10, i);
    }
    DigitsValue(u, 10);
    hide Numeral;
    hide Digits;
    DigitRunOf(digits, rest);
    NextAppend(digits, rest);
    NextAppend(Numeral(n, 10), rest);
    PutNext(rest);
    hide DigitRun;
    hide WordRun;
    hide Value;
    if n < 0 {
      assert Numeral(n, 10)[1..] == digits;
      assert Peek(digits + rest) == digits[0];
    }
  }

  /** Strings may hold any bytes. */
  lemma {:induction false} StringReads(done: Text, s: Text, rest: Text)
    requires |done| + |s| <= MAX_STRING
    ensures StringRest(done, EscapedAll(s) + ['"' as int] + rest) == Ok(String(done + s), rest)
    decreases |s|
  {
    hide *;
    var quote: Text := ['"' as int];
    if s == [] {
      StringEnds(done, rest);
      NothingEscaped(s);
      assert s[|s|..] == s && [] + quote + rest == quote + rest;
      assert done + s == done;
    } else {
      var next := EscapedAll(s[1..]) + quote + rest;
      EscapedStep(s, 0);
      assert s[0..] == s;
      assert EscapedAll(s) + quote + rest == Escaped(s[0]) + next;
      StringReads(done + [s[0]], s[1..], rest);
      assert done + [s[0]] + s[1..] == done + s;
      EscapeReads(done, s[0], next);
    }
  }

  lemma StringEnds(done: Text, rest: Text)
    requires |done| <= MAX_STRING
    ensures StringRest(done, ['"' as int] + rest) == Ok(String(done), rest)
  {
    var text: Text := ['"' as int] + rest;
    assert text[1..] == rest;
  }

  lemma EscapeReads(done: Text, b: Byte, next: Text)
    requires |done| <= MAX_STRING
    ensures StringRest(done, Escaped(b) + next) == StringRest(done + [b], next)
  {
    var e := Escaped(b);
    var text := e + next;
    EscapeCodes(b);
    if Raw(b) {
      assert text[1..] == next;
    } else {
      assert text[2..] == next;
    }
  }

  lemma EscapeCodes(b: Byte)
    ensures Raw(b) ==> Escaped(b) == [b]
    ensures !Raw(b) ==>
      |Escaped(b)| == 2 && Escaped(b)[0] == '\\' as int && Escaped(b)[1] != 'x' as int && Unescaped(Escaped(b)[1]) == b
  {
  }

  lemma {:induction false} NameRunOf(name: Text, rest: Text)
    requires forall i :: 0 <= i < |name| ==> IsNameChar(name[i])
    requires !IsNameChar(Peek(rest))
    ensures NameRun(name + rest) == (name, rest)
  {
    if name == [] {
      assert name + rest == rest;
    } else {
      assert (name + rest)[1..] == name[1..] + rest;
      NameRunOf(name[1..], rest);
      assert [name[0]] + name[1..] == name;
    }
  }

  lemma NamedCharacterReads(name: string, rest: Text)
    requires |name| > 1 && Codes(name)[0] != 'x' as int && EndsWord(Peek(rest))
    requires forall i :: 0 <= i < |name| ==> IsNameChar(Codes(name)[i])
    requires CharacterNamed(Codes(name)) != -2
    ensures ReadCharacter(Codes(name) + rest) == Ok(Character(CharacterNamed(Codes(name))), rest)
  {
    hide NameRun;
    hide CharacterNamed;
    hide RadixRun;
    hide Radix;
    hide Value;
    hide Int32;
    var s := Codes(name);
    NameRunOf(s, rest);
    assert (s + rest)[1..] == s[1..] + rest;
    assert Peek(s[1..] + rest) == s[1];
    hide Codes;
  }

  /** Names of characters as the writer writes them. */
  predicate WrittenName(c: int, name: string) {
    || (c == 0 && name == "nul") || (c == 7 && name == "alarm") || (c == 8 && name == "backspace")
    || (c == 9 && name == "tab") || (c == 10 && name == "newline") || (c == 11 && name == "vtab")
    || (c == 12 && name == "page") || (c == 13 && name == "return") || (c == 32 && name == "space")
  }

  lemma NameOf(c: int) returns (name: string)
    requires c == 0 || 7 <= c <= 13 || c == 32
    ensures WrittenName(c, name)
  {
    name := match c
      case 0 => "nul"
      case 7 => "alarm"
      case 8 => "backspace"
      case 9 => "tab"
      case 10 => "newline"
      case 11 => "vtab"
      case 12 => "page"
      case 13 => "return"
      case _ => "space";
  }

  lemma WrittenNameCodes(c: int, name: string)
    requires WrittenName(c, name)
    ensures |name| > 1 && Codes(name)[0] != 'x' as int && forall i :: 0 <= i < |name| ==> IsNameChar(Codes(name)[i])
    ensures CharacterText(c) == ['\\' as int] + Codes(name)
  {
    NameChars(c, name);
    Backslashed(name);
    hide Codes;
    assert "\\" + "nul" == "\\nul" && "\\" + "alarm" == "\\alarm" && "\\" + "backspace" == "\\backspace";
    assert "\\" + "tab" == "\\tab" && "\\" + "newline" == "\\newline" && "\\" + "vtab" == "\\vtab";
    assert "\\" + "page" == "\\page" && "\\" + "return" == "\\return" && "\\" + "space" == "\\space";
  }

  lemma NameChars(c: int, name: string)
    requires WrittenName(c, name)
    ensures Codes(name)[0] != 'x' as int && forall i :: 0 <= i < |name| ==> IsNameChar(Codes(name)[i])
  {
    assert forall i :: 0 <= i < |name| ==> 'a' <= name[i] <= 'z';
  }

  lemma Backslashed(name: string)
    ensures Codes("\\" + name) == ['\\' as int] + Codes(name)
  {
  }

  /** The names that are as long as others begin differently. */
  lemma WrittenNameReads(c: int, name: string)
    requires WrittenName(c, name)
    ensures CharacterNamed(Codes(name)) == c
  {
    assert Codes("*eof*")[0] == 42 && Codes("alarm")[0] == 97 && Codes("space")[0] == 115;
    assert Codes("nul")[0] == 110 && Codes("tab")[0] == 116;
    assert Codes("vtab")[0] == 118 && Codes("page")[0] == 112;
  }

  lemma CharacterReads(c: int, rest: Text)
    requires NamedCharacter(c)
    requires EndsWord(Peek(rest))
    ensures CharacterText(c) != [] && CharacterText(c)[0] == '\\' as int
    ensures ReadCharacter(CharacterText(c)[1..] + rest) == Ok(Character(c), rest)
  {
    hide ReadCharacter;
    hide Codes;
    hide CharacterNamed;
    hide EndsWord;
    if c == 0 || 7 <= c <= 13 || c == 32 {
      var name := NameOf(c);
      WrittenNameCodes(c, name);
      WrittenNameReads(c, name);
      NamedCharacterReads(name, rest);
      assert CharacterText(c)[1..] == Codes(name);
    } else {
      assert CharacterText(c) == ['\\' as int, c];
      assert CharacterText(c)[1..] == [c];
      PlainCharacterReads(c, rest);
    }
  }

  lemma PlainCharacterReads(c: Byte, rest: Text)
    requires EndsWord(Peek(rest))
    ensures ReadCharacter([c] + rest) == Ok(Character(c), rest)
  {
    hide RadixRun;
    hide Radix;
    hide NameRun;
    hide CharacterNamed;
    hide Value;
    hide Int32;
    var s := [c] + rest;
    assert s[0] == c && s[1..] == rest;
  }

  /** A first character that the list reader hands on to the datum reader. */
  predicate StartsDatum(s: Text) {
    && s != [] && !IsSpace(s[0]) && s[0] != ';' as int && s[0] != ')' as int
    && (s[0] == '#' as int ==> |s| > 1 && !StartsBlockComment(s[1]))
  }

  lemma FirstChar(x: Datum)
    requires Readable(x)
    ensures StartsDatum(Write(x))
  {
    hide Write;
    hide StartsDatum;
    hide Ordinary;
    match x
    case Number(n) => NumberStarts(n);
    case Character(c) => CharacterStarts(c);
    case Symbol(name) => NameStarts(name);
    case Keyword(name) => KeywordStarts(name);
    case _ => BracketStarts(x);
  }

  lemma NumberStarts(n: int)
    requires IsLong(n)
    ensures StartsDatum(Write(Number(n)))
  {
    hide Numeral;
    NumberReads(n, []);
  }

  lemma CharacterStarts(c: int)
    requires NamedCharacter(c)
    ensures StartsDatum(Write(Character(c)))
  {
    hide CharacterText;
    CharacterReads(c, []);
  }

  lemma BracketStarts(x: Datum)
    requires x.Null? || x.Bool? || x.String? || x.Pair? || x.Vector?
    ensures StartsDatum(Write(x))
  {
    hide Codes;
    hide WriteItems;
    hide Spaced;
    hide EscapedAll;
    TwoCodes();
  }

  lemma KeywordStarts(name: Text)
    ensures StartsDatum(Write(Keyword(name)))
  {
    assert Codes("#:") == [35, 58];
    hide EscapedAll, Codes;
  }

  lemma NameStarts(name: Text)
    requires Ordinary(name)
    ensures StartsDatum(Write(Symbol(name)))
  {
    Unescapable(name);
    assert !EndsWord(name[0]);
    hide EscapedAll;
  }

  lemma TwoCodes()
    ensures Codes("()") == [40, 41] && Codes("#t") == [35, 116] && Codes("#f") == [35, 102] && Codes("#(") == [35, 40]
  {
  }

  lemma NotSpaceThere(s: Text, rest: Text)
    requires StartsDatum(s)
    ensures EatWhitespace(Next(s + rest).0, Next(s + rest).1) == Ok(Next(s + rest).0, Next(s + rest).1)
    ensures Next(s + rest).0 != ')' as int && Next(s + rest).0 != EOF
  {
    NextAppend(s, rest);
    assert |s| > 1 ==> Peek(s[1..] + rest) == s[1];
  }

  /** A datum in a list, and then the rest of the list. */
  lemma OneItem(s: Text, rest: Text, x: Datum, more: Text)
    requires StartsDatum(s) && Reads(s + rest) == Ok(x, more)
    ensures ReadsList(s + rest) ==
      var tail := ReadsList(more);
      if tail.Fail? then tail
      else if x != Dot then Ok(Pair(x, tail.value), tail.rest)
      else if tail.value.Pair? then Ok(tail.value.car, tail.rest)
      else Fail(Improper)
  {
    NotSpaceThere(s, rest);
    hide EatWhitespace;
    hide ReadSexp;
  }

  lemma SkipSpace(s: Text)
    ensures ReadsList([' ' as int] + s) == ReadsList(s)
  {
    var text: Text := [' ' as int] + s;
    assert text[1..] == s;
    SpaceEaten(s);
    hide EatWhitespace;
    hide ReadSexp;
  }

  lemma SpaceEaten(s: Text)
    ensures EatWhitespace(' ' as int, s) == EatWhitespace(Next(s).0, Next(s).1)
  {
  }

  lemma EndOfList(rest: Text)
    ensures ReadsList([')' as int] + rest) == Ok(Null, rest)
  {
    var text: Text := [')' as int] + rest;
    assert text[1..] == rest;
    assert EatWhitespace(')' as int, rest) == Ok(')' as int, rest);
    hide EatWhitespace;
    hide ReadSexp;
  }

  /** A lone dot in front of a space. */
  lemma LoneDot(rest: Text)
    ensures Reads(['.' as int] + ([' ' as int] + rest)) == Ok(Dot, [' ' as int] + rest)
  {
    var text: Text := ['.' as int] + ([' ' as int] + rest);
    assert text[1..] == [' ' as int] + rest;
  }

  lemma ListOpens(s: Text)
    ensures Reads(['(' as int] + s) == ReadsList(s)
  {
    var text: Text := ['(' as int] + s;
    assert text[1..] == s;
    hide ReadList;
  }

  lemma HashOpens(c: Byte, s: Text)
    ensures Reads(['#' as int] + ([c] + s)) == ReadHash(c, s)
  {
    var text: Text := ['#' as int] + ([c] + s);
    assert text[1..] == [c] + s && ([c] + s)[1..] == s;
    hide ReadHash;
  }

  lemma NameAsDatum(name: Text, rest: Text)
    requires Ordinary(name) && EndsWord(Peek(rest))
    ensures Reads(name + rest) == Ok(Symbol(name), rest)
  {
    NameReads(name, rest);
    NextAppend(name, rest);
    assert |name| > 1 ==> Peek(name[1..] + rest) == name[1];
    assert !EndsWord(name[0]);
    hide IdentifierOrNumber;
    hide ReadList;
    hide ReadHash;
    hide StringRest;
  }

  lemma NumberAsDatum(n: int, rest: Text)
    requires EndsWord(Peek(rest))
    ensures Reads(Numeral(n, 10) + rest) == Ok(Number(Long(n)), rest)
    ensures IsLong(n) ==> Long(n) == n
  {
    NumberReads(n, rest);
    hide Numeral;
    NextAppend(Numeral(n, 10), rest);
    hide IdentifierOrNumber;
    hide ReadList;
    hide ReadHash;
    hide StringRest;
  }

  lemma KeywordAsDatum(name: Text, rest: Text)
    requires WordName(name) && EndsWord(Peek(rest))
    ensures Reads(Write(Keyword(name)) + rest) == Ok(Keyword(name), rest)
  {
    Unescapable(name);
    KeywordOpens(name, rest);
    NameReads(name, rest);
    NextAppend(name, rest);
    hide IdentifierOrNumber;
  }

  /** What is behind `#:` is read as a name. */
  lemma KeywordOpens(name: Text, rest: Text)
    ensures Reads(Write(Keyword(name)) + rest) ==
      var (d, t) := Next(EscapedAll(name) + rest);
      var x := IdentifierOrNumber(d, t);
      if x.Fail? then x
      else if x.value.Symbol? then Ok(Keyword(x.value.name), x.rest)
      else Fail(KeywordExpected)
  {
    hide EscapedAll;
    var s := EscapedAll(name) + rest;
    assert Codes("#:") == [35, 58];
    assert Write(Keyword(name)) + rest == ['#' as int] + ([':' as int] + s);
    HashOpens(':' as int, s);
    hide IdentifierOrNumber;
  }

  lemma StringAsDatum(s: Text, rest: Text)
    requires |s| <= MAX_STRING
    ensures Reads(['"' as int] + EscapedAll(s) + ['"' as int] + rest) == Ok(String(s), rest)
  {
    hide *;
    var quote: Text := ['"' as int];
    var inside := EscapedAll(s) + quote + rest;
    assert quote + EscapedAll(s) + quote + rest == quote + inside;
    StringReads([], s, rest);
    assert [] + s == s;
    StringOpens(inside);
  }

  lemma StringOpens(s: Text)
    ensures Reads(['"' as int] + s) == StringRest([], s)
  {
    var text: Text := ['"' as int] + s;
    assert text[1..] == s;
    hide StringRest;
    hide ReadList;
    hide ReadHash;
  }

  lemma BackslashHash(s: Text)
    ensures ReadHash('\\' as int, s) == ReadCharacter(s)
  {
    hide ReadCharacter;
  }

  lemma CharacterAsDatum(c: int, rest: Text)
    requires NamedCharacter(c)
    requires EndsWord(Peek(rest))
    ensures Reads(['#' as int] + CharacterText(c) + rest) == Ok(Character(c), rest)
  {
    hide CharacterText;
    hide ReadCharacter;
    hide Reads;
    CharacterReads(c, rest);
    var t := CharacterText(c);
    assert ['#' as int] + t + rest == ['#' as int] + ([t[0]] + (t[1..] + rest));
    HashOpens(t[0], t[1..] + rest);
    BackslashHash(t[1..] + rest);
  }

  /** A list of data. */
  function ListOf(items: seq<Datum>): Datum {
    if items == [] then Null else Pair(items[0], ListOf(items[1..]))
  }

  lemma {:induction false} ItemsOfList(items: seq<Datum>)
    ensures Items(ListOf(items)) == Ok(items, [])
  {
    if items != [] {
      ItemsOfList(items[1..]);
      assert [items[0]] + items[1..] == items;
    }
  }

  /** Whatever is written is read back, and nothing behind it is touched, if
      what follows ends a word. */
  lemma {:induction false} WriteRead(x: Datum, rest: Text)
    requires Readable(x) && EndsWord(Peek(rest))
    ensures Reads(Write(x) + rest) == Ok(x, rest)
    decreases x, 2
  {
    match x
    case Null => NullAsDatum(rest);
    case Bool(b) => BoolAsDatum(b, rest);
    case Number(n) => NumberAsDatum(n, rest);
    case Character(c) => CharacterAsDatum(c, rest);
    case String(s) => StringAsDatum(s, rest);
    case Symbol(name) =>
      Unescapable(name);
      NameAsDatum(name, rest);
    case Keyword(name) => KeywordAsDatum(name, rest);
    case Pair(_, _) => PairRead(x, rest);
    case Vector(items) => VectorRead(items, rest);
  }

  lemma NullAsDatum(rest: Text)
    ensures Reads(Codes("()") + rest) == Ok(Null, rest)
  {
    assert Codes("()") == ['(' as int] + [')' as int];
    assert Codes("()") + rest == ['(' as int] + ([')' as int] + rest);
    ListOpens([')' as int] + rest);
    EndOfList(rest);
  }

  lemma BoolAsDatum(b: bool, rest: Text)
    ensures Reads(Codes(if b then "#t" else "#f") + rest) == Ok(Bool(b), rest)
  {
    assert Codes("#t") == [35, 116] && Codes("#f") == [35, 102];
    var c := if b then 't' as int else 'f' as int;
    assert Codes(if b then "#t" else "#f") + rest == ['#' as int] + ([c] + rest);
    HashOpens(c, rest);
  }

  lemma {:induction false} PairRead(x: Datum, rest: Text)
    requires x.Pair? && Readable(x)
    ensures Reads(Write(x) + rest) == Ok(x, rest)
    decreases x, 1
  {
    var end: Text := [')' as int] + rest;
    PairText(x);
    assert Write(x) + rest == ['(' as int] + (WriteItems(x) + end);
    ListOpens(WriteItems(x) + end);
    ItemsRead(x, rest);
  }

  /** The elements of a list and its closing parenthesis. */
  lemma {:induction false} ItemsRead(x: Datum, rest: Text)
    requires x.Pair? && Readable(x)
    ensures ReadsList(WriteItems(x) + ([')' as int] + rest)) == Ok(x, rest)
    decreases x, 0
  {
    var end: Text := [')' as int] + rest;
    var a, d := x.car, x.cdr;
    FirstChar(a);
    if d.Null? {
      assert WriteItems(x) + end == Write(a) + end;
      WriteRead(a, end);
      OneItem(Write(a), end, a, end);
      EndOfList(rest);
    } else if d.Pair? {
      var more := [' ' as int] + (WriteItems(d) + end);
      assert WriteItems(x) + end == Write(a) + more;
      WriteRead(a, more);
      OneItem(Write(a), more, a, more);
      SkipSpace(WriteItems(d) + end);
      ItemsRead(d, rest);
    } else {
      TailRead(a, d, end);
      WriteRead(a, Dotted(d, end));
      WriteRead(d, end);
      DottedRead(d, rest);
      OneItem(Write(a), Dotted(d, end), a, Dotted(d, end));
    }
  }

  /** A dot between spaces, and the last tail. */
  function Dotted(d: Datum, end: Text): Text {
    [' ' as int] + (['.' as int] + ([' ' as int] + (Write(d) + end)))
  }

  lemma TailRead(a: Datum, d: Datum, end: Text)
    requires !d.Null? && !d.Pair?
    ensures WriteItems(Pair(a, d)) + end == Write(a) + Dotted(d, end)
  {
    assert Codes(" . ") == [32, 46, 32];
  }

  lemma DottedRead(d: Datum, rest: Text)
    requires Readable(d)
    requires Reads(Write(d) + ([')' as int] + rest)) == Ok(d, [')' as int] + rest)
    ensures ReadsList(Dotted(d, [')' as int] + rest)) == Ok(d, rest)
  {
    FirstChar(d);
    hide Write;
    hide Reads;
    hide ReadsList;
    var end: Text := [')' as int] + rest;
    var dot: Text := ['.' as int];
    var last := Write(d) + end;
    SkipSpace(dot + ([' ' as int] + last));
    LoneDot(last);
    OneItem(dot, [' ' as int] + last, Dot, [' ' as int] + last);
    SkipSpace(last);
    OneItem(Write(d), end, d, end);
    EndOfList(rest);
  }

  lemma {:induction false} SpacedRead(items: seq<Datum>, rest: Text)
    requires forall i :: 0 <= i < |items| ==> Readable(items[i])
    ensures ReadsList(Spaced(items) + ([')' as int] + rest)) == Ok(ListOf(items), rest)
    decreases items, 0
  {
    hide Write;
    var end: Text := [')' as int] + rest;
    if items == [] {
      assert [] + end == end;
      EndOfList(rest);
    } else {
      var a := items[0];
      FirstChar(a);
      if |items| == 1 {
        WriteRead(a, end);
        OneItem(Write(a), end, a, end);
        EndOfList(rest);
      } else {
        var more := [' ' as int] + (Spaced(items[1..]) + end);
        assert Spaced(items) + end == Write(a) + more;
        WriteRead(a, more);
        OneItem(Write(a), more, a, more);
        SkipSpace(Spaced(items[1..]) + end);
        SpacedRead(items[1..], rest);
      }
    }
  }

  lemma {:induction false} VectorRead(items: seq<Datum>, rest: Text)
    requires forall i :: 0 <= i < |items| ==> Readable(items[i])
    ensures Reads(Write(Vector(items)) + rest) == Ok(Vector(items), rest)
    decreases items, 1
  {
    var end: Text := [')' as int] + rest;
    assert Codes("#(") == [35, 40];
    VectorText(Vector(items));
    assert Write(Vector(items)) + rest == ['#' as int] + (['(' as int] + (Spaced(items) + end));
    HashOpens('(' as int, Spaced(items) + end);
    SpacedRead(items, rest);
    ItemsOfList(items);
  }

  /** The writer and the reader themselves: one writes a datum, the other reads
      what was written, all of it, and has the datum. */
  method WriteThenRead(x: Datum) returns (r: Option<Datum>)
    requires Readable(x) && Plain(x)
    ensures r == Some(x)
  {
    var output := new Output();
    output.Fdisplay(x);
    var input := new Reader.Input(output.out);
    WriteRead(x, []);
    assert [] + Write(x) == Write(x) && Write(x) + [] == Write(x);
    r := Reader.ReadEnv(input);
  }
}
