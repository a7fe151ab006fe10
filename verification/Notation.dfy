/** The notations that only the reader knows: prefixes, comments, and numbers in
    other bases. */
module Notation {
  import opened Bytes
  import opened Division
  import opened Numerals
  import opened Syntax
  import opened Writer
  import opened RoundTrip
  import opened Wrappers

  /** The prefixes, and what they abbreviate. */
  datatype Prefix = Prefix(mark: Text, name: Text)

  function Prefixes(): seq<Prefix> {
    [Prefix(['\'' as int], Codes("quote")), Prefix(['`' as int], Codes("quasiquote")),
     Prefix([',' as int], Codes("unquote")), Prefix([',' as int, '@' as int], Codes("unquote-splicing")),
     Prefix(['#' as int, '\'' as int], Codes("syntax")), Prefix(['#' as int, '`' as int], Codes("quasisyntax")),
     Prefix(['#' as int, ',' as int], Codes("unsyntax")),
     Prefix(['#' as int, ',' as int, '@' as int], Codes("unsyntax-splicing"))]
  }

  /** A comma in front of a datum whose text begins with an at sign is another
      prefix. */
  predicate Joins(mark: Text, s: Text) {
    mark != [] && mark[|mark| - 1] == ',' as int && Peek(s) == '@' as int
  }

  /** A prefix in front of a datum that was written is the list of the prefix's
      name and the datum. */
  lemma PrefixReads(p: Prefix, x: Datum, rest: Text)
    requires p in Prefixes() && Readable(x) && EndsWord(Peek(rest)) && !Joins(p.mark, Write(x) + rest)
    ensures Reads(p.mark + (Write(x) + rest)) == Ok(List2(Symbol(p.name), x), rest)
  {
    var s := Write(x) + rest;
    WriteRead(x, rest);
    hide Write;
    hide Reads;
    hide Codes;
    assert p == Prefixes()[0] || p == Prefixes()[1] || p == Prefixes()[2] || p == Prefixes()[3]
      || p == Prefixes()[4] || p == Prefixes()[5] || p == Prefixes()[6] || p == Prefixes()[7];
    OneMark(s);
    if Peek(s) != '@' as int {
      Comma(s);
      HashComma(s);
    }
    CommaAt(s);
    HashMark(s);
    HashCommaAt(s);
    hide Prefixes;
  }

  lemma OneMark(s: Text)
    ensures Reads(['\'' as int] + s) == Quoted(Codes("quote"), Reads(s))
    ensures Reads(['`' as int] + s) == Quoted(Codes("quasiquote"), Reads(s))
  {
    hide Codes;
    var quote: Text := ['\'' as int];
    var back: Text := ['`' as int];
    assert (quote + s)[1..] == s && (back + s)[1..] == s;
  }

  lemma Comma(s: Text)
    requires Peek(s) != '@' as int
    ensures Reads([',' as int] + s) == Quoted(Codes("unquote"), Reads(s))
  {
    hide Codes;
    var mark: Text := [',' as int];
    assert (mark + s)[1..] == s;
  }

  lemma HashComma(s: Text)
    requires Peek(s) != '@' as int
    ensures Reads(['#' as int, ',' as int] + s) == Quoted(Codes("unsyntax"), Reads(s))
  {
    hide Codes;
    hide ReadSexp;
    HashOpens(',' as int, s);
    assert ['#' as int, ',' as int] + s == ['#' as int] + ([',' as int] + s);
  }

  lemma CommaAt(s: Text)
    ensures Reads([',' as int, '@' as int] + s) == Quoted(Codes("unquote-splicing"), Reads(s))
  {
    hide Codes;
    var mark: Text := [',' as int, '@' as int];
    assert (mark + s)[1..] == ['@' as int] + s && (['@' as int] + s)[1..] == s;
  }

  lemma HashMark(s: Text)
    ensures Reads(['#' as int, '\'' as int] + s) == Quoted(Codes("syntax"), Reads(s))
    ensures Reads(['#' as int, '`' as int] + s) == Quoted(Codes("quasisyntax"), Reads(s))
  {
    hide Codes;
    hide ReadSexp;
    hide Reads;
    HashOpens('\'' as int, s);
    HashOpens('`' as int, s);
    assert ['#' as int, '\'' as int] + s == ['#' as int] + (['\'' as int] + s);
    assert ['#' as int, '`' as int] + s == ['#' as int] + (['`' as int] + s);
    HashQuotes(s);
  }

  lemma HashQuotes(s: Text)
    ensures ReadHash('\'' as int, s) == Quoted(Codes("syntax"), Reads(s))
    ensures ReadHash('`' as int, s) == Quoted(Codes("quasisyntax"), Reads(s))
    ensures ReadHash(',' as int, ['@' as int] + s) == Quoted(Codes("unsyntax-splicing"), Reads(s))
  {
    hide Codes;
    hide ReadSexp;
    assert (['@' as int] + s)[1..] == s;
  }

  lemma HashCommaAt(s: Text)
    ensures Reads(['#' as int, ',' as int, '@' as int] + s) == Quoted(Codes("unsyntax-splicing"), Reads(s))
  {
    hide *;
    var at: Text := ['@' as int] + s;
    HashOpens(',' as int, at);
    assert ['#' as int, ',' as int, '@' as int] + s == ['#' as int] + ([',' as int] + at);
    HashQuotes(s);
  }

  /** A line comment reads as nothing. */
  lemma {:induction false} CommentEnds(c: int, comment: Text, rest: Text)
    requires IsChar(c) && c != EOF && c != 10
    requires forall i :: 0 <= i < |comment| ==> comment[i] != 10
    ensures LineComment(c, comment + [10] + rest) == Ok(10, rest)
    decreases |comment|
  {
    var s := comment + [10] + rest;
    if comment == [] {
      assert s[1..] == rest;
    } else {
      assert s[1..] == comment[1..] + [10] + rest;
      CommentEnds(comment[0], comment[1..], rest);
    }
  }

  lemma LineCommentSkipped(comment: Text, rest: Text)
    requires forall i :: 0 <= i < |comment| ==> comment[i] != 10
    ensures Reads([';' as int] + (comment + [10] + rest)) == Reads(rest)
  {
    var s := comment + [10] + rest;
    var text: Text := [';' as int] + s;
    assert text[1..] == s;
    CommentEnds(';' as int, comment, rest);
    hide LineComment;
    hide ReadList;
    hide ReadHash;
    hide IdentifierOrNumber;
    hide StringRest;
    assert ReadSexp(10, rest) == Reads(rest);
  }

  /** A datum that is commented out reads as nothing. */
  lemma DatumCommentSkipped(x: Datum, rest: Text)
    requires Readable(x) && EndsWord(Peek(rest))
    ensures Reads(['#' as int] + ([';' as int] + (Write(x) + rest))) == Reads(rest)
  {
    hide *;
    var s := Write(x) + rest;
    WriteRead(x, rest);
    HashSemicolon(s);
    HashOpens(';' as int, s);
  }

  lemma HashSemicolon(s: Text)
    ensures ReadHash(';' as int, s) == if Reads(s).Fail? then Reads(s) else Reads(Reads(s).rest)
  {
    hide ReadSexp;
  }

  lemma {:induction false} RadixRunOf(digits: Text, rest: Text, base: nat)
    requires forall i :: 0 <= i < |digits| ==> IsNumber(digits[i], base)
    requires !IsNumber(Peek(rest), base)
    ensures RadixRun(digits + rest, base) == (digits, rest)
  {
    if digits == [] {
      assert digits + rest == rest;
    } else {
      assert (digits + rest)[1..] == digits[1..] + rest;
      RadixRunOf(digits[1..], rest, base);
      assert [digits[0]] + digits[1..] == digits;
    }
  }

  /** A number in base 8 or 16, as the C library prints it, is read back for
      every word. */
  lemma RadixReads(n: int, base: nat, rest: Text)
    requires IsLong(n) && (base == 8 || base == 16) && !IsNumber(Peek(rest), base)
    ensures Radix(Numeral(n, base) + rest, base) == (n, rest)
    ensures
      var c := if base == 8 then 'o' as int else 'x' as int;
      Reads(['#' as int] + ([c] + (Numeral(n, base) + rest))) == Ok(Number(n), rest)
  {
    hide Reads;
    hide ReadHash;
    hide Radix;
    hide RadixRun;
    hide Numeral;
    hide Digits;
    hide Value;
    hide IsNumber;
    var u := if n < 0 then -n else n;
    var digits := Digits(u, base);
    SignedNumeral(n, base);
    OnlyDigits(u, base);
    DigitsValue(u, base);
    RadixRunOf(digits, rest, base);
    SignedRun(n, base, digits, rest);
    var text := Numeral(n, base) + rest;
    var c := if base == 8 then 'o' as int else 'x' as int;
    HashOpens(c, text);
    HashRadix(base, text);
  }

  lemma OnlyDigits(u: nat, base: nat)
    requires Printable(base)
    ensures forall i :: 0 <= i < |Digits(u, base)| ==> IsNumber(Digits(u, base)[i], base)
  {
    var digits := Digits(u, base);
    forall i | 0 <= i < |digits| ensures IsNumber(digits[i], base) {
      DigitsAreNumbers(u, base, i);
    }
  }

  lemma SignedRun(n: int, base: nat, digits: Text, rest: Text)
    requires IsLong(n) && Printable(base) && digits != [] && IsNumber(digits[0], base)
    requires Value(digits, base) == if n < 0 then -n else n
    requires Numeral(n, base) == if n < 0 then ['-' as int] + digits else digits
    requires RadixRun(digits + rest, base) == (digits, rest)
    ensures Radix(Numeral(n, base) + rest, base) == (n, rest)
  {
    hide Numeral;
    hide IsNumber;
    hide Value;
    hide RadixRun;
    hide Wrap;
    NotSpecial(digits[0], base);
    assert (digits + rest)[0] == digits[0];
    var text := Numeral(n, base) + rest;
    if n < 0 {
      assert text[1..] == digits + rest;
    }
  }

  lemma HashRadix(base: nat, s: Text)
    requires base == 8 || base == 16
    ensures ReadHash(if base == 8 then 'o' as int else 'x' as int, s) ==
      Ok(Number(Radix(s, base).0), Radix(s, base).1)
  {
    hide Radix;
  }

  /** Somewhere in the text a block comment with this mark ends. */
  ghost predicate Closes(mark: Byte, s: Text) {
    exists i :: 0 <= i && ClosesAt(mark, s, i)
  }

  predicate ClosesAt(mark: Byte, s: Text, i: nat) {
    i + 1 < |s| && s[i] == mark && s[i + 1] == '#' as int
  }

  /** What is behind a block comment, if it ends within so many turns; at the
      end of the input, the next character is the end of the input again. */
  ghost function BlockTurns(mark: Byte, c: int, s: Text, turns: nat): Option<Text>
    decreases turns
  {
    if c == mark && Peek(s) == '#' as int then Some(s[1..])
    else if turns == 0 then None
    else BlockTurns(mark, Next(s).0, Next(s).1, turns - 1)
  }

  lemma {:induction false} BlockEnds(mark: Byte, s: Text) returns (turns: nat)
    requires Closes(mark, s)
    ensures
      var end := BlockComment(mark, Next(s).0, Next(s).1);
      end.Ok? && BlockTurns(mark, Next(s).0, Next(s).1, turns) == Some(end.rest)
  {
    turns := 0;
    var i :| 0 <= i && ClosesAt(mark, s, i);
    if !ClosesAt(mark, s, 0) {
      assert ClosesAt(mark, s[1..], i - 1);
      var rest := BlockEnds(mark, s[1..]);
      turns := rest + 1;
    }
  }

  lemma {:induction false} BlockGoesOn(mark: Byte, s: Text, turns: nat)
    requires !Closes(mark, s)
    ensures BlockComment(mark, Next(s).0, Next(s).1) == Fail(EndInBlockComment)
    ensures BlockTurns(mark, Next(s).0, Next(s).1, turns) == None
    decreases |s|, turns
  {
    assert !ClosesAt(mark, s, 0);
    if s != [] {
      forall i | 0 <= i ensures !ClosesAt(mark, s[1..], i) {
        assert !ClosesAt(mark, s, i + 1);
      }
      BlockGoesOn(mark, s[1..], if turns > 0 then turns - 1 else 0);
    } else if turns > 0 {
      BlockGoesOn(mark, s, turns - 1);
    }
  }

  /** A block comment ends, after some number of turns, if and only if the text
      behind its opening mark holds a closing one; where it fails here, reading
      does not end. */
  lemma BlockEndsExactly(mark: Byte, s: Text)
    ensures (exists turns :: BlockTurns(mark, Next(s).0, Next(s).1, turns).Some?) <==> Closes(mark, s)
    ensures BlockComment(mark, Next(s).0, Next(s).1).Ok? <==> Closes(mark, s)
    ensures !Closes(mark, s) ==> BlockComment(mark, Next(s).0, Next(s).1) == Fail(EndInBlockComment)
  {
    if Closes(mark, s) {
      var turns := BlockEnds(mark, s);
    } else {
      forall turns: nat ensures BlockTurns(mark, Next(s).0, Next(s).1, turns) == None {
        BlockGoesOn(mark, s, turns);
      }
      BlockGoesOn(mark, s, 0);
    }
  }
}
