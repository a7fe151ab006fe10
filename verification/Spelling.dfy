/** Spellings that the reader takes and the writer never makes: other signs,
    bases and escapes, the names and codes of characters, and what may stand
    between the elements of a list. */
module Spelling {
  import opened Bytes
  import opened Numerals
  import opened Syntax
  import opened Writer
  import opened RoundTrip
  import opened Notation
  import opened Division

  /** What a backslash and a letter stand for in a string; any other letter but
      `x` stands for itself. */
  const ESCAPES: map<char, Byte> :=
    map['0' := 0, 'a' := 7, 'b' := 8, 't' := 9, 'n' := 10, 'v' := 11, 'f' := 12, 'r' := 13, 'e' := 27]

  /** Each escape is one byte of the string. */
  lemma EscapesRead(done: Text, letter: char, rest: Text)
    requires |done| <= MAX_STRING && letter as int < 256 && letter != 'x'
    ensures StringRest(done, ['\\' as int, letter as int] + rest)
      == StringRest(done + [if letter in ESCAPES then ESCAPES[letter] else letter as int], rest)
  {
    var text: Text := ['\\' as int, letter as int] + rest;
    assert text[2..] == rest;
  }

  /** `\x` and hexadecimal digits, as many as there are, are one byte too. */
  lemma HexEscapeReads(done: Text, n: nat, rest: Text)
    requires |done| <= MAX_STRING && IsLong(n) && !IsNumber(Peek(rest), 16)
    ensures StringRest(done, ['\\' as int, 'x' as int] + (Numeral(n, 16) + rest)) == StringRest(done + [n % 256], rest)
  {
    RadixReads(n, 16, rest);
    hide Numeral, Radix, Reads;
    var digits := Numeral(n, 16) + rest;
    var text: Text := ['\\' as int, 'x' as int] + digits;
    assert text[2..] == digits;
  }

  /** The digits of a number in base 2. */
  function Binary(n: nat): Text {
    if n < 2 then ['0' as int + n] else Binary(n / 2) + ['0' as int + n % 2]
  }

  lemma {:induction false} BinaryRun(n: nat, rest: Text)
    requires !IsNumber(Peek(rest), 2)
    ensures RadixRun(Binary(n) + rest, 2) == (Binary(n), rest)
  {
    BinaryDigits(n);
    RadixRunOf(Binary(n), rest, 2);
  }

  lemma {:induction false} BinaryDigits(n: nat)
    ensures Binary(n) != [] && Value(Binary(n), 2) == n
    ensures forall i :: 0 <= i < |Binary(n)| ==> IsNumber(Binary(n)[i], 2)
  {
    var s := Binary(n);
    if n < 2 {
      assert s[..0] == [];
    } else {
      BinaryDigits(n / 2);
      assert s[..|s| - 1] == Binary(n / 2);
    }
  }

  /** Behind `#b`, binary digits are the number. */
  lemma BinaryReads(n: nat, rest: Text)
    requires IsLong(n) && !IsNumber(Peek(rest), 2)
    ensures Reads(['#' as int] + (['b' as int] + (Binary(n) + rest))) == Ok(Number(n), rest)
    ensures Reads(['#' as int] + (['b' as int] + (['-' as int] + (Binary(n) + rest)))) == Ok(Number(-(n as int)), rest)
  {
    hide Reads, ReadHash, RadixRun, Value;
    BinaryDigits(n);
    BinaryRun(n, rest);
    var s := Binary(n) + rest;
    assert s[0] == Binary(n)[0];
    BinaryHash(s);
    BinaryHash(['-' as int] + s);
    HashOpens('b' as int, s);
    HashOpens('b' as int, ['-' as int] + s);
    assert (['-' as int] + s)[1..] == s;
  }

  lemma BinaryHash(s: Text)
    ensures ReadHash('b' as int, s) == Ok(Number(Radix(s, 2).0), Radix(s, 2).1)
  {
    hide Radix;
  }

  /** The names of characters, and their codes. */
  const CHARACTERS: seq<(string, int)> :=
    [("nul", 0), ("alarm", 7), ("bel", 7), ("backspace", 8), ("bs", 8), ("tab", 9), ("ht", 9),
     ("linefeed", 10), ("newline", 10), ("nl", 10), ("vtab", 11), ("vt", 11), ("page", 12), ("np", 12),
     ("return", 13), ("cr", 13), ("esc", 27), ("fs", 28), ("space", 32), ("*eof*", -1)]

  /** Each name is read as its code. */
  lemma CharacterNamesRead(i: nat, rest: Text)
    requires i < |CHARACTERS| && EndsWord(Peek(rest))
    ensures Reads(['#' as int] + (['\\' as int] + (Codes(CHARACTERS[i].0) + rest)))
      == Ok(Character(CHARACTERS[i].1), rest)
  {
    hide Reads, ReadHash, ReadCharacter, CharacterNamed, Codes, EndsWord;
    var name := CHARACTERS[i].0;
    NameSpelled(i);
    NameMeans(i);
    NamedCharacterReads(name, rest);
    HashOpens('\\' as int, Codes(name) + rest);
    BackslashHash(Codes(name) + rest);
  }

  predicate Spelled(name: string) {
    && |name| > 1 && Codes(name)[0] != 'x' as int
    && forall j :: 0 <= j < |name| ==> IsNameChar(Codes(name)[j])
  }

  predicate Letters(name: string) {
    forall j :: 0 <= j < |name| ==> 'a' <= name[j] <= 'z' || name[j] == '*'
  }

  lemma NameSpelled(i: nat)
    requires i < |CHARACTERS|
    ensures Spelled(CHARACTERS[i].0)
  {
    hide Codes, CHARACTERS;
    AllLetters(i);
    LettersSpelled(CHARACTERS[i].0);
  }

  lemma LettersSpelled(name: string)
    requires Letters(name) && |name| > 1 && name[0] != 'x'
    ensures Spelled(name)
  {
  }

  lemma AllLetters(i: nat)
    requires i < |CHARACTERS|
    ensures Letters(CHARACTERS[i].0) && |CHARACTERS[i].0| > 1 && CHARACTERS[i].0[0] != 'x'
  {
  }

  /** Two names of the same length differ in the first letter or the second. */
  lemma NameMeans(i: nat)
    requires i < |CHARACTERS|
    ensures CharacterNamed(Codes(CHARACTERS[i].0)) == CHARACTERS[i].1
  {
    hide CharacterNamed, Codes;
    if i < 10 {
      FirstNames(i);
    } else if i < 15 {
      MiddleNames(i);
    } else {
      LastNames(i);
    }
  }

  lemma FirstNames(i: nat)
    requires i < 10
    ensures CharacterNamed(Codes(CHARACTERS[i].0)) == CHARACTERS[i].1
  {
    assert Codes("bs")[0] == 98 && Codes("ht")[0] == 104 && Codes("nl")[0] == 110;
    assert Codes("nul")[0] == 110 && Codes("tab")[0] == 116 && Codes("bel")[0] == 98 && Codes("esc")[0] == 101;
    assert Codes("*eof*")[0] == 42 && Codes("alarm")[0] == 97;
  }

  lemma MiddleNames(i: nat)
    requires 10 <= i < 15
    ensures CharacterNamed(Codes(CHARACTERS[i].0)) == CHARACTERS[i].1
  {
    assert Codes("bs")[0] == 98 && Codes("ht")[0] == 104 && Codes("nl")[0] == 110;
    assert Codes("vt")[0] == 118 && Codes("np")[0] == 110 && Codes("np")[1] == 112;
    assert Codes("vtab")[0] == 118 && Codes("page")[0] == 112;
  }

  lemma LastNames(i: nat)
    requires 15 <= i < |CHARACTERS|
    ensures CharacterNamed(Codes(CHARACTERS[i].0)) == CHARACTERS[i].1
  {
    assert Codes("bs")[0] == 98 && Codes("ht")[0] == 104 && Codes("nl")[0] == 110 && Codes("vt")[0] == 118;
    assert Codes("np")[0] == 110 && Codes("cr")[0] == 99 && Codes("fs")[0] == 102;
    assert Codes("nul")[0] == 110 && Codes("tab")[0] == 116 && Codes("esc")[0] == 101;
    assert Codes("*eof*")[0] == 42 && Codes("alarm")[0] == 97 && Codes("space")[0] == 115;
  }

  /** A character by its code in base 8, with a zero in front, or in base 16. */
  lemma CharacterCodes(n: nat, rest: Text)
    requires IsLong(n)
    ensures !IsNumber(Peek(rest), 8) ==>
      Reads(['#' as int] + (['\\' as int] + (['0' as int] + (Numeral(n, 8) + rest)))) == Ok(Character(Int32(n)), rest)
    ensures !IsNumber(Peek(rest), 16) ==>
      Reads(['#' as int] + (['\\' as int] + (['x' as int] + (Numeral(n, 16) + rest)))) == Ok(Character(Int32(n)), rest)
  {
    hide Reads, ReadHash, ReadCharacter, Numeral;
    var octal, hex := ['0' as int] + (Numeral(n, 8) + rest), ['x' as int] + (Numeral(n, 16) + rest);
    HashOpens('\\' as int, octal);
    HashOpens('\\' as int, hex);
    BackslashHash(octal);
    BackslashHash(hex);
    if !IsNumber(Peek(rest), 8) {
      OctalCharacter(n, rest);
    }
    if !IsNumber(Peek(rest), 16) {
      HexCharacter(n, rest);
    }
  }

  lemma OctalCharacter(n: nat, rest: Text)
    requires IsLong(n) && !IsNumber(Peek(rest), 8)
    ensures ReadCharacter(['0' as int] + (Numeral(n, 8) + rest)) == Ok(Character(Int32(n)), rest)
  {
    hide NameRun, CharacterNamed, Radix, Int32, Wrap;
    var digits := Digits(n, 8);
    SignedNumeral(n, 8);
    OnlyDigits(n, 8);
    DigitsValue(n, 8);
    hide Numeral, Digits, RadixRun, Value;
    var zero: Text := ['0' as int];
    var s := zero + (digits + rest);
    assert s[1..] == digits + rest && (digits + rest)[0] == digits[0];
    assert s == (zero + digits) + rest;
    ZeroFirst(digits, 8);
    RadixRunOf(zero + digits, rest, 8);
  }

  /** A zero in front changes nothing. */
  lemma {:induction false} ZeroFirst(digits: Text, base: nat)
    ensures Value(['0' as int] + digits, base) == Value(digits, base)
    decreases |digits|
  {
    var s := ['0' as int] + digits;
    if digits == [] {
      assert s[..0] == [];
    } else {
      assert s[..|s| - 1] == ['0' as int] + digits[..|digits| - 1];
      ZeroFirst(digits[..|digits| - 1], base);
    }
  }

  lemma HexCharacter(n: nat, rest: Text)
    requires IsLong(n) && !IsNumber(Peek(rest), 16)
    ensures ReadCharacter(['x' as int] + (Numeral(n, 16) + rest)) == Ok(Character(Int32(n)), rest)
  {
    hide NameRun, CharacterNamed, Int32, Wrap;
    RadixReads(n, 16, rest);
    SignedNumeral(n, 16);
    LowerCase(n, 16, 0);
    hide Numeral, Digits, RadixRun, Value, Radix, Reads;
    var s := ['x' as int] + (Numeral(n, 16) + rest);
    assert s[1..] == Numeral(n, 16) + rest;
  }

  const LOWER := "0123456789abcdef"
  const UPPER := "0123456789ABCDEF"

  /** The digits of a base, the letters among them in either case, and what they
      stand for. */
  lemma DigitsExactly(c: int, base: nat)
    requires base == 2 || base == 8 || base == 10 || base == 16
    ensures IsNumber(c, base) <==>
      exists i :: 0 <= i < base && (c == LOWER[i] as int || c == UPPER[i] as int)
    ensures forall i :: 0 <= i < 16 ==> DigitValue(LOWER[i] as int) == i && DigitValue(UPPER[i] as int) == i
  {
    if IsNumber(c, base) {
      var i := DigitValue(c);
      assert 0 <= i < base && (c == LOWER[i] as int || c == UPPER[i] as int);
    }
  }

  /** A name of printing characters that are not used for anything else. */
  predicate Letter(c: Byte) {
    '!' as int <= c <= '~' as int
    && c !in {'"' as int, '#' as int, '\'' as int, '(' as int, ')' as int, ',' as int, ';' as int, '`' as int,
              '\\' as int, '.' as int, '+' as int, '-' as int}
  }

  /** Such a name, with something in it that is no digit, is a symbol; it ends at
      white space, a quotation mark, a parenthesis or a comment, and nowhere
      else. */
  lemma NameEnds(name: Text, c: Byte, rest: Text)
    requires 0 < |name| < MAX_STRING && forall i :: 0 <= i < |name| ==> Letter(name[i])
    requires exists i :: 0 <= i < |name| && !IsDigit(name[i])
    ensures c in {9, 10, 11, 12, 13, 32, '"' as int, '(' as int, ')' as int, ';' as int} ==>
      Reads(name + ([c] + rest)) == Ok(Symbol(name), [c] + rest)
    ensures Letter(c) && EndsWord(Peek(rest)) ==> Reads(name + ([c] + rest)) == Ok(Symbol(name + [c]), rest)
    ensures Reads(name) == Ok(Symbol(name), [])
  {
    hide Reads;
    LettersOrdinary(name);
    NameAsDatum(name, []);
    assert name + [] == name;
    if c in {9, 10, 11, 12, 13, 32, '"' as int, '(' as int, ')' as int, ';' as int} {
      NameAsDatum(name, [c] + rest);
    }
    if Letter(c) && EndsWord(Peek(rest)) {
      var i :| 0 <= i < |name| && !IsDigit(name[i]);
      assert (name + [c])[i] == name[i];
      LettersOrdinary(name + [c]);
      NameAsDatum(name + [c], rest);
      assert name + [c] + rest == name + ([c] + rest);
    }
  }

  lemma LettersOrdinary(name: Text)
    requires 0 < |name| <= MAX_STRING && forall i :: 0 <= i < |name| ==> Letter(name[i])
    requires exists i :: 0 <= i < |name| && !IsDigit(name[i])
    ensures Ordinary(name)
  {
    assert Letter(name[0]);
  }

  /** Digits are printed in lower case. */
  lemma {:induction false} LowerCase(u: nat, base: nat, k: nat)
    requires Printable(base) && k < |Digits(u, base)|
    ensures IsDigit(Digits(u, base)[k]) || 'a' as int <= Digits(u, base)[k] <= 'f' as int
    decreases u
  {
    var q, r := Split(u, base);
    hide Digits;
    if k < |Digits(u, base)| - 1 {
      LowerCase(q, base, k);
    }
  }

  lemma PlusDropped(s: Text)
    requires s != [] && IsDigit(s[0])
    ensures Reads(['+' as int] + s) == IdentifierOrNumber(s[0], s[1..])
  {
    var text: Text := ['+' as int] + s;
    assert text[1..] == s;
    hide ReadList, ReadHash, StringRest, DigitRun, WordRun, Value, SymbolNamed;
  }

  /** A number may have a plus sign. */
  lemma PlusReads(n: nat, rest: Text)
    requires IsLong(n) && EndsWord(Peek(rest))
    ensures Reads(['+' as int] + (Numeral(n, 10) + rest)) == Ok(Number(n), rest)
  {
    NumberReads(n, rest);
    SignedNumeral(n, 10);
    DigitsAreNumbers(n, 10, 0);
    hide Numeral, Digits, EndsWord, IdentifierOrNumber, Reads;
    NextAppend(Numeral(n, 10), rest);
    PlusDropped(Numeral(n, 10) + rest);
  }

  /** What may stand between the elements of a list besides them: spaces, line
      comments, block comments. */
  lemma SpaceInList(space: Byte, rest: Text)
    requires space in {9, 10, 11, 12, 13, 32}
    ensures ReadsList([space] + rest) == ReadsList(rest)
  {
    var text: Text := [space] + rest;
    assert text[1..] == rest;
    assert EatWhitespace(space, rest) == EatWhitespace(Next(rest).0, Next(rest).1);
    hide EatWhitespace, ReadSexp;
  }

  lemma LineCommentInList(comment: Text, rest: Text)
    requires forall i :: 0 <= i < |comment| ==> comment[i] != 10
    ensures ReadsList([';' as int] + (comment + [10] + rest)) == ReadsList(rest)
  {
    var s := comment + [10] + rest;
    var text: Text := [';' as int] + s;
    assert text[1..] == s;
    CommentEnds(';' as int, comment, rest);
    hide LineComment;
    assert EatWhitespace(10, rest) == EatWhitespace(Next(rest).0, Next(rest).1);
    assert EatWhitespace(';' as int, s) == EatWhitespace(10, rest);
    hide EatWhitespace, ReadSexp;
  }

  /** The first closing mark is the one that counts. */
  lemma {:induction false} BlockCloses(mark: Byte, comment: Text, rest: Text)
    requires forall i :: 0 <= i < |comment| ==> !ClosesAt(mark, comment + [mark], i)
    requires mark != '#' as int
    ensures BlockComment(mark, Next(comment + [mark, '#' as int] + rest).0, Next(comment + [mark, '#' as int] + rest).1)
      == Ok(mark, rest)
    decreases |comment|
  {
    var s := comment + [mark, '#' as int] + rest;
    if comment == [] {
      assert s[1..] == ['#' as int] + rest && s[1..][1..] == rest;
    } else {
      var t := comment[1..];
      assert s[1..] == t + [mark, '#' as int] + rest;
      forall i | 0 <= i < |t| ensures !ClosesAt(mark, t + [mark], i) {
        assert !ClosesAt(mark, comment + [mark], i + 1);
        assert (comment + [mark])[1..] == t + [mark];
      }
      BlockCloses(mark, t, rest);
      assert !ClosesAt(mark, comment + [mark], 0);
    }
  }

  /** A block comment of either kind, in a list or in front of a datum. */
  lemma BlockCommentSkipped(mark: Byte, comment: Text, rest: Text)
    requires mark == '!' as int || mark == '|' as int
    requires forall i :: 0 <= i < |comment| ==> !ClosesAt(mark, comment + [mark], i)
    ensures var text := ['#' as int] + ([mark] + (comment + [mark, '#' as int] + rest));
      ReadsList(text) == ReadsList(rest) && Reads(text) == Reads(rest)
  {
    var s := comment + [mark, '#' as int] + rest;
    var text: Text := ['#' as int] + ([mark] + s);
    assert text[1..] == [mark] + s && ([mark] + s)[1..] == s;
    BlockCloses(mark, comment, rest);
    hide BlockComment;
    assert EatWhitespace('#' as int, [mark] + s) == EatWhitespace(Next(rest).0, Next(rest).1);
    hide EatWhitespace;
    HashOpens(mark, s);
    hide ReadSexp;
    assert ReadHash(mark, s) == Reads(rest);
  }

  /** The characters that mean something behind a number sign. */
  const AFTER_HASH := "!|ft,'`:box\\(;"

  /** A number sign in front of anything else is dropped with it. */
  lemma HashDropped(c: Byte, rest: Text)
    requires forall i :: 0 <= i < |AFTER_HASH| ==> c != AFTER_HASH[i] as int
    ensures Reads(['#' as int] + ([c] + rest)) == Reads(rest)
  {
    HashOpens(c, rest);
    hide ReadSexp;
    assert c != AFTER_HASH[0] as int && c != AFTER_HASH[1] as int && c != AFTER_HASH[2] as int;
    assert c != AFTER_HASH[3] as int && c != AFTER_HASH[4] as int && c != AFTER_HASH[5] as int;
    assert c != AFTER_HASH[6] as int && c != AFTER_HASH[7] as int && c != AFTER_HASH[8] as int;
    assert c != AFTER_HASH[9] as int && c != AFTER_HASH[10] as int && c != AFTER_HASH[11] as int;
    assert c != AFTER_HASH[12] as int && c != AFTER_HASH[13] as int;
    assert ReadHash(c, rest) == Reads(rest);
  }

  /** Nothing, and a parenthesis that closes nothing, read as the empty list; a
      list that is not closed is an error. */
  lemma NothingToRead(rest: Text)
    ensures Reads([]) == Ok(Null, []) && Reads([')' as int] + rest) == Ok(Null, rest)
    ensures ReadsList([]) == Fail(EndInList) && Reads(['(' as int]) == Fail(EndInList)
  {
    var text: Text := [')' as int] + rest;
    assert text[1..] == rest;
    assert ['(' as int] + [] == ['(' as int];
    ListOpens([]);
  }

  /** What comes behind the tail of a dotted list is read and dropped. */
  lemma BehindTail(a: Datum, d: Datum, more: seq<Datum>, rest: Text)
    requires Readable(a) && Readable(d) && forall i :: 0 <= i < |more| ==> Readable(more[i])
    ensures
      var last := Spaced([d] + more) + ([')' as int] + rest);
      ReadsList(Write(a) + ([' ' as int] + (['.' as int] + ([' ' as int] + last)))) == Ok(Pair(a, d), rest)
  {
    hide Write, Reads, ReadsList, Spaced;
    var last := Spaced([d] + more) + ([')' as int] + rest);
    var dot := ['.' as int] + ([' ' as int] + last);
    SpacedRead([d] + more, rest);
    SkipSpace(last);
    LoneDot(last);
    OneItem(['.' as int], [' ' as int] + last, Dot, [' ' as int] + last);
    SkipSpace(dot);
    FirstChar(a);
    WriteRead(a, [' ' as int] + dot);
    OneItem(Write(a), [' ' as int] + dot, a, [' ' as int] + dot);
  }

  /** White space in front of a datum. */
  lemma SpaceBefore(space: Byte, rest: Text)
    requires space in {9, 10, 12, 32}
    ensures Reads([space] + rest) == Reads(rest)
  {
    var text: Text := [space] + rest;
    assert text[1..] == rest;
    hide ReadList, ReadHash, StringRest, IdentifierOrNumber;
  }
}
