/** Which symbols can be written and read back: exactly the ordinary ones. */
module Names {
  import opened Bytes
  import opened Numerals
  import opened Syntax
  import opened Writer
  import opened RoundTrip

  /** A character that the datum reader takes for the start of something else
      than a name. */
  predicate Opens(c: int) {
    c == '#' as int || c == '`' as int || c == ',' as int || c == '\'' as int
  }

  ghost predicate OneWord(name: Text) {
    forall i :: 0 <= i < |name| ==> !EndsWord(name[i])
  }

  /** What any name of a symbol that was read looks like. */
  ghost predicate WordLike(name: Text) {
    OneWord(name) && (name != [] ==> !Opens(name[0]))
  }

  /** All names in a datum were read. */
  ghost predicate NamesRead(x: Datum) {
    match x
    case Symbol(name) => WordLike(name)
    case Keyword(name) => OneWord(name)
    case Pair(a, d) => NamesRead(a) && NamesRead(d)
    case Vector(items) => forall i :: 0 <= i < |items| ==> NamesRead(items[i])
    case _ => true
  }

  ghost predicate ReadsNames(r: Parse<Datum>) {
    r.Ok? ==> NamesRead(r.value)
  }

  lemma {:induction false} WordsEnd(c: int, s: Text)
    requires IsChar(c)
    ensures forall i :: 0 <= i < |WordRun(c, s).0| ==> !EndsWord(WordRun(c, s).0[i])
    ensures !EndsWord(c) ==> WordRun(c, s).0 != [] && WordRun(c, s).0[0] == c
    decreases Left(c, s)
  {
    if !EndsWord(c) {
      WordsEnd(Next(s).0, Next(s).1);
    }
  }

  lemma {:induction false} DigitsOnly(c: int, s: Text)
    requires IsChar(c)
    ensures forall i :: 0 <= i < |DigitRun(c, s).0| ==> IsDigit(DigitRun(c, s).0[i])
    ensures if IsDigit(c) then DigitRun(c, s).0 != [] && DigitRun(c, s).0[0] == c
            else DigitRun(c, s) == ([], c, s)
    decreases Left(c, s)
  {
    if IsDigit(c) {
      DigitsOnly(Next(s).0, Next(s).1);
    }
  }

  lemma {:induction false} CStringPrefix(s: Text)
    ensures CString(s) <= s && (s != [] && CString(s) != [] ==> CString(s)[0] == s[0])
  {
    if s != [] && s[0] != 0 {
      CStringPrefix(s[1..]);
      assert [s[0]] + s[1..] == s;
    }
  }

  lemma Cut(digits: Text, word: Text, name: Text)
    requires name == CString(digits + word) && digits + word != []
    requires forall i :: 0 <= i < |digits| ==> IsDigit(digits[i])
    requires forall i :: 0 <= i < |word| ==> !EndsWord(word[i])
    ensures OneWord(name) && (!Opens((digits + word)[0]) ==> WordLike(name))
  {
    CStringPrefix(digits + word);
    hide CString;
    assert forall i :: 0 <= i < |name| ==> name[i] == (digits + word)[i];
  }

  lemma IdentifierNames(c: int, s: Text)
    requires IsChar(c)
    ensures
      var r := IdentifierOrNumber(c, s);
      r.Ok? ==> r.value.Number? || (r.value.Symbol? && OneWord(r.value.name) && (!Opens(c) ==> WordLike(r.value.name)))
  {
    hide DigitRun;
    hide WordRun;
    hide CString;
    hide Value;
    hide Wrap;
    hide WordLike, OneWord;
    var (c1, s1) := if c == '+' as int && IsDigit(Peek(s)) then Next(s) else (c, s);
    var negative := c1 == '-' as int && IsDigit(Peek(s1));
    var (c2, s2) := if negative then Next(s1) else (c1, s1);
    var (digits, c3, s3) := DigitRun(c2, s2);
    DigitsOnly(c2, s2);
    WordsEnd(c3, s3);
    var word := WordRun(c3, s3).0;
    if !EndsWord(c3) {
      assert (digits + word)[0] == c2;
      Cut(digits, word, CString(digits + word));
    }
  }

  lemma QuotedNames(name: string, r: Parse<Datum>)
    requires ReadsNames(r) && |name| > 0
    requires forall i :: 0 <= i < |name| ==> 'a' <= name[i] <= 'z' || name[i] == '-'
    ensures ReadsNames(Quoted(Codes(name), r))
  {
    assert WordLike(Codes(name));
  }

  lemma {:induction false} ItemNames(x: Datum)
    requires NamesRead(x) && Items(x).Ok?
    ensures NamesRead(Vector(Items(x).value))
  {
    if x.Pair? {
      ItemNames(x.cdr);
    }
  }

  lemma {:induction false} SexpNames(c: int, s: Text)
    requires IsChar(c)
    ensures ReadsNames(ReadSexp(c, s))
    decreases Left(c, s), 1
  {
    hide NamesRead;
    hide LineComment;
    hide IdentifierOrNumber;
    hide StringRest;
    hide Codes;
    hide ReadHash;
    hide ReadList;
    Plainly(ReadSexp(c, s));
    var (d, t) := Next(s);
    if c == ';' as int {
      var end := LineComment(c, s);
      if end.Ok? {
        SexpNames(end.value, end.rest);
      }
    } else if c == ' ' as int || c == 9 || c == 10 || c == 12 {
      SexpNames(d, t);
    } else if c == '(' as int {
      ListNames(d, t);
    } else if c == '#' as int {
      HashNames(d, t);
    } else if c == '`' as int {
      SexpNames(d, t);
      QuotedNames("quasiquote", ReadSexp(d, t));
    } else if c == '\'' as int {
      SexpNames(d, t);
      QuotedNames("quote", ReadSexp(d, t));
    } else if c == ',' as int {
      UnquoteNames(s);
    } else if c != '"' as int && c != EOF {
      IdentifierNames(c, s);
    }
  }

  lemma {:induction false} UnquoteNames(s: Text)
    ensures ReadsNames(ReadSexp(',' as int, s))
    decreases Left(',' as int, s), 0
  {
    hide NamesRead;
    hide Codes;
    var at := Peek(s) == '@' as int;
    var (d, t) := Next(if at then s[1..] else s);
    SexpNames(d, t);
    QuotedNames("unquote", ReadSexp(d, t));
    QuotedNames("unquote-splicing", ReadSexp(d, t));
  }

  /** Most data have no names in them. */
  lemma Plainly(r: Parse<Datum>)
    ensures r.Fail? ==> ReadsNames(r)
    ensures r.Ok? && !r.value.Symbol? && !r.value.Keyword? && !r.value.Pair? && !r.value.Vector? ==> ReadsNames(r)
    ensures r.Ok? && r.value.Symbol? && WordLike(r.value.name) ==> ReadsNames(r)
    ensures r.Ok? && r.value.Keyword? && OneWord(r.value.name) ==> ReadsNames(r)
  {
  }

  lemma {:induction false} ListNames(c0: int, s0: Text)
    requires IsChar(c0)
    ensures ReadsNames(ReadList(c0, s0))
    decreases Left(c0, s0), 2
  {
    hide EatWhitespace;
    hide ReadSexp;
    var first := EatWhitespace(c0, s0);
    if first.Ok? && first.value != ')' as int && first.value != EOF {
      SexpNames(first.value, first.rest);
      var item := ReadSexp(first.value, first.rest);
      if item.Ok? {
        ListNames(Next(item.rest).0, Next(item.rest).1);
      }
    }
  }

  lemma {:induction false} HashNames(c: int, s: Text)
    requires IsChar(c)
    ensures ReadsNames(ReadHash(c, s))
    decreases Left(c, s), 3
  {
    hide NamesRead;
    hide BlockComment;
    hide IdentifierOrNumber;
    hide Radix;
    hide Codes;
    hide ReadSexp;
    hide ReadList;
    hide ReadCharacter;
    Plainly(ReadHash(c, s));
    var (d, t) := Next(s);
    if StartsBlockComment(c) {
      var end := BlockComment(c, d, t);
      if end.Ok? {
        SexpNames(Next(end.rest).0, Next(end.rest).1);
      }
    } else if c == ',' as int || c == '\'' as int || c == '`' as int {
      SyntaxNames(c, s);
    } else if c == '(' as int {
      ListNames(d, t);
      var list := ReadList(d, t);
      if list.Ok? && Items(list.value).Ok? {
        ItemNames(list.value);
      }
    } else if c == ';' as int {
      var skipped := ReadSexp(d, t);
      if skipped.Ok? {
        SexpNames(Next(skipped.rest).0, Next(skipped.rest).1);
      }
    } else if c == ':' as int {
      IdentifierNames(d, t);
    } else {
      SexpNames(d, t);
    }
  }

  lemma {:induction false} SyntaxNames(c: int, s: Text)
    requires c == ',' as int || c == '\'' as int || c == '`' as int
    ensures ReadsNames(ReadHash(c, s))
    decreases Left(c, s), 2
  {
    hide NamesRead;
    hide Codes;
    hide ReadSexp;
    var at := c == ',' as int && Peek(s) == '@' as int;
    var (d, t) := Next(if at then s[1..] else s);
    SexpNames(d, t);
    QuotedNames("unsyntax", ReadSexp(d, t));
    QuotedNames("unsyntax-splicing", ReadSexp(d, t));
    QuotedNames("syntax", ReadSexp(d, t));
    QuotedNames("quasisyntax", ReadSexp(d, t));
  }

  /** Nothing that is written contains a zero; and it is as long as what is
      written only if no byte is escaped. */
  lemma {:induction false} EscapedFacts(s: Text)
    ensures forall i :: 0 <= i < |EscapedAll(s)| ==> EscapedAll(s)[i] != 0
    ensures EscapedAll(s) == s ==> forall i :: 0 <= i < |s| ==> Raw(s[i])
    ensures |EscapedAll(s)| >= |s|
    ensures s != [] ==> EscapedAll(s) != [] && EscapedAll(s)[0] == if Raw(s[0]) then s[0] else '\\' as int
  {
    if s != [] {
      EscapeCodes(s[0]);
      EscapeLetter(s[0]);
      EscapedFacts(s[1..]);
      if EscapedAll(s) == s {
        assert |EscapedAll(s)| == |Escaped(s[0])| + |EscapedAll(s[1..])|;
        assert EscapedAll(s)[1..] == EscapedAll(s[1..]);
        forall i | 0 <= i < |s| ensures Raw(s[i]) {
          assert i > 0 ==> s[i] == s[1..][i - 1];
        }
      }
    }
  }

  lemma EscapeLetter(b: Byte)
    ensures !Raw(b) ==> Escaped(b)[1] != 0
    ensures Raw(b) ==> b != 0
  {
  }

  /** Read up to the end, a word that is a name has all of the text. */
  lemma WholeName(s: Text, name: Text)
    requires s != [] && IdentifierOrNumber(s[0], s[1..]) == Ok(Symbol(name), [])
    requires forall i :: 0 <= i < |s| ==> s[i] != 0
    requires name != [] && (s[0] == '+' as int || s[0] == '-' as int ==> name[0] == s[0])
    ensures name == s && (exists i :: 0 <= i < |s| && !IsDigit(s[i]))
    ensures s[0] == '+' as int || s[0] == '-' as int ==> |s| == 1 || !IsDigit(s[1])
    ensures |s| <= MAX_STRING
  {
    hide DigitRun;
    hide WordRun;
    hide CString;
    hide Value;
    hide Wrap;
    var (c1, s1) := if s[0] == '+' as int && IsDigit(Peek(s[1..])) then Next(s[1..]) else (s[0] as int, s[1..]);
    var negative := c1 == '-' as int && IsDigit(Peek(s1));
    var (c2, s2) := if negative then Next(s1) else (c1, s1);
    var (digits, c3, s3) := DigitRun(c2, s2);
    DigitsOnly(c2, s2);
    WordsEnd(c3, s3);
    var (word, c4, s4) := WordRun(c3, s3);
    var all := digits + word;
    assert !EndsWord(c3);
    assert all[0] == c2;
    CStringPrefix(all);
    assert Put(c4, s4) == [];
    RunsJoin(c2, s2);
    assert c2 == s[0] && s2 == s[1..];
    assert [s[0]] + s[1..] == s && all + [] == all;
    assert all == s;
    CStringWhole(s);
    assert all[|digits|] == c3;
  }

  /** The runs, and what is left, are the text. */
  lemma RunsJoin(c: int, s: Text)
    requires IsChar(c) && c != EOF
    ensures
      var (digits, d, t) := DigitRun(c, s);
      var (word, e, u) := WordRun(d, t);
      [c] + s == digits + word + Put(e, u)
  {
    DigitsJoin(c, s);
    var (digits, d, t) := DigitRun(c, s);
    WordsJoin(d, t);
    var (word, e, u) := WordRun(d, t);
    assert digits + (word + Put(e, u)) == digits + word + Put(e, u);
  }

  lemma {:induction false} DigitsJoin(c: int, s: Text)
    requires IsChar(c)
    ensures Put(c, s) == DigitRun(c, s).0 + Put(DigitRun(c, s).1, DigitRun(c, s).2)
    decreases Left(c, s)
  {
    if IsDigit(c) {
      var (d, t) := Next(s);
      DigitsJoin(d, t);
      PutNext(s);
      var (run, e, u) := DigitRun(d, t);
      Associative([c], run, Put(e, u));
      hide Put;
    }
  }

  lemma {:induction false} WordsJoin(c: int, s: Text)
    requires IsChar(c)
    ensures Put(c, s) == WordRun(c, s).0 + Put(WordRun(c, s).1, WordRun(c, s).2)
    decreases Left(c, s)
  {
    if !EndsWord(c) {
      var (d, t) := Next(s);
      WordsJoin(d, t);
      PutNext(s);
      var (run, e, u) := WordRun(d, t);
      Associative([c], run, Put(e, u));
      hide Put;
    }
  }

  /** A symbol is read back from what is written for it exactly if its name is
      ordinary. */
  lemma SymbolsExactly(name: Text)
    requires |name| <= MAX_STRING
    ensures Reads(Write(Symbol(name))) == Ok(Symbol(name), []) <==> Ordinary(name)
  {
    var s := EscapedAll(name);
    if Ordinary(name) {
      WriteRead(Symbol(name), []);
      assert s + [] == s;
    }
    if Reads(s) == Ok(Symbol(name), []) {
      OnlyOrdinary(name);
    }
  }

  lemma OnlyOrdinary(name: Text)
    requires Reads(EscapedAll(name)) == Ok(Symbol(name), [])
    ensures Ordinary(name)
  {
    var s := EscapedAll(name);
    SexpNames(Next(s).0, Next(s).1);
    EscapedFacts(name);
    hide EscapedAll;
    hide Escaped;
    NotEmpty(name);
    RawOrNot(name[0]);
    hide Raw;
    AsIdentifier(name, s);
    WholeName(s, name);
  }

  lemma NotEmpty(name: Text)
    requires Reads(EscapedAll(name)) == Ok(Symbol(name), [])
    ensures name != []
  {
  }

  lemma RawOrNot(b: Byte)
    ensures b == '+' as int || b == '-' as int ==> Raw(b)
  {
  }

  lemma AsIdentifier(name: Text, s: Text)
    requires name != [] && s != [] && Reads(s) == Ok(Symbol(name), []) && WordLike(name)
    requires s[0] == name[0] || s[0] == '\\' as int
    ensures IdentifierOrNumber(s[0], s[1..]) == Ok(Symbol(name), [])
    ensures s[0] == '.' as int ==> |s| > 1 && IsIdentifier(s[1])
  {
    hide ReadHash;
    hide ReadList;
    hide StringRest;
    hide IdentifierOrNumber;
    hide LineComment;
    assert !EndsWord(name[0]);
  }
}
