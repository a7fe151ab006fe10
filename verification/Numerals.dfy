/** Numbers to text and back. */
module Numerals {
  import opened Bytes
  import opened Division

  const INT_MIN: int := -0x8000_0000
  const INTS: nat := 0x1_0000_0000

  predicate Printable(base: nat) {
    base == 8 || base == 10 || base == 16
  }

  function Digit(i: nat): Byte {
    (if i > 9 then 'a' as int + i - 10 else '0' as int + i) % 256
  }

  /** The digits of a number, the first not a zero but for zero itself. */
  function Digits(u: nat, base: nat): (s: Text)
    requires base >= 2
    ensures s != []
  {
    if u < base then [Digit(u)]
    else
      Shrinks(u, base);
      Digits(u / base, base) + [Digit(u % base)]
  }

  /** With the sign, which depends on the first digit not looking like a zero. */
  function Numeral(x: int, base: nat): Text
    requires base >= 2
  {
    if x >= 0 then Digits(x, base)
    else if Digits(-x, base)[0] == '0' as int then Digits(-x, base)
    else ['-' as int] + Digits(-x, base)
  }

  lemma Shrinks(u: int, base: int)
    requires 2 <= base && 0 < u
    ensures 0 <= u / base < u && 0 <= u % base < base && u == (u / base) * base + u % base
  {
    QuotientSmall(u, base);
    Scale(2, base, u / base);
  }

  lemma Carries(u: int, base: int)
    requires 2 <= base <= u
    ensures 0 < u / base < u
  {
    Shrinks(u, base);
    Positive(u / base, base);
  }

  lemma Positive(a: int, c: int)
    requires a * c > 0 && c > 0
    ensures a > 0
  {
  }

  /** A bound on the number of digits: a base of 8 or more needs one digit for
      every three bits. */
  lemma {:induction false} DigitsBound(u: nat, base: nat, n: nat)
    requires base >= 8 && n >= 1 && u < Pow2(3 * n)
    ensures |Digits(u, base)| <= n
    decreases u
  {
    assert Pow2(3) == 8;
    if n > 1 && u >= base {
      Shrinks(u, base);
      Carries(u, base);
      Scale(8, base, u / base);
      Pow2Add(3, 3 * (n - 1));
      DigitsBound(u / base, base, n - 1);
    }
  }

  lemma WordDigits(u: nat, base: nat)
    requires base >= 8 && u < WORDS
    ensures |Digits(u, base)| <= 22
  {
    Pow2Word();
    Pow2Monotone(64, 66);
    DigitsBound(u, base, 22);
  }

  lemma {:induction false} LeadingDigit(u: nat, base: nat)
    requires 2 <= base <= 36 && u > 0
    ensures Digits(u, base)[0] != '0' as int
  {
    if u >= base {
      Carries(u, base);
      LeadingDigit(u / base, base);
    }
  }

  class Printer {
    var buffer: array?<Byte>

    constructor ()
      ensures buffer == null
    {
      buffer := null;
    }

    ghost predicate Valid()
      reads this
    {
      buffer != null ==> buffer.Length == 24
    }

    /** The text up to the terminating zero. */
    ghost predicate Holds(p: int, s: Text)
      reads this, buffer
    {
      && buffer != null && buffer.Length == 24
      && 0 <= p && p + |s| == 23 && buffer[p..23] == s && buffer[23] == 0
    }

    /** Writes digits from the end of the buffer backwards; the buffer is large
        enough for every word and sign in any base from 8 on. */
    method Ntoab(x: int, base: nat, signed: bool) returns (p: int)
      requires Valid() && IsLong(x) && 8 <= base && IsWord(base)
      modifies this, buffer
      ensures Valid() && (if old(buffer) != null then buffer == old(buffer) else fresh(buffer))
      ensures Holds(p, Numeral(if signed || x >= 0 then x else x + WORDS, base))
    {
      hide Digits;
      hide Pow2;
      if buffer == null {
        buffer := new Byte[24](_ => 0);
      }
      var sign := false;
      var u;
      if signed && x < 0 {
        sign := true;
        u := -(x + 1);
        u := u + 1;
      } else {
        u := if x < 0 then x + WORDS else x;
      }
      WordDigits(u, base);
      p := Backwards(u, base);
      ghost var digits := Digits(u, base);
      FirstHeld(p, digits);
      if sign && buffer[p] != '0' as int {
        p := Prepend(p, '-' as int, digits);
      }
    }

    /** Digits from the last to the first. */
    method Backwards(whole: nat, base: nat) returns (p: int)
      requires buffer != null && buffer.Length == 24
      requires IsWord(whole) && 2 <= base && IsWord(base) && |Digits(whole, base)| <= 23
      modifies buffer
      ensures Holds(p, Digits(whole, base))
    {
      hide *;
      p := 23;
      var u := whole;
      ghost var done: Text := [];
      buffer[p] := 0;
      NothingYet(Digits(whole, base));
      var more := true;
      while more
        invariant IsWord(u) && Holds(p, done)
        invariant Digits(whole, base) == if more then Digits(u, base) + done else done
        decreases u, more
      {
        var i;
        ghost var before: Text;
        u, i, before := TakeDigit(u, base);
        Associative(before, [Digit(i)], done);
        p := Prepend(p, Digit(i), done);
        done := [Digit(i)] + done;
        more := u != 0;
      }
    }

    lemma NothingYet(s: Text)
      requires buffer != null && buffer.Length == 24 && buffer[23] == 0
      ensures Holds(23, []) && s + [] == s
    {
    }

    /** The last digit, and what is left of the number. */
    method TakeDigit(u: nat, base: nat) returns (q: nat, i: nat, ghost before: Text)
      requires IsWord(u) && 2 <= base && IsWord(base)
      ensures IsWord(q) && (u > 0 ==> q < u) && (u == 0 ==> q == 0)
      ensures before == (if q == 0 then [] else Digits(q, base)) && Digits(u, base) == before + [Digit(i)]
    {
      hide Digits;
      hide Digit;
      LastDigit(u, base);
      var trapped;
      q, i, trapped := Uldiv(u, base);
      before := if q == 0 then [] else Digits(q, base);
    }

    lemma FirstHeld(p: int, s: Text)
      requires Holds(p, s) && s != []
      ensures 0 <= p < 23 && buffer[p] == s[0]
    {
      assert buffer[p] == buffer[p..23][0];
    }

    method Prepend(p0: int, c: Byte, ghost done: Text) returns (p: int)
      requires Holds(p0, done) && |done| < 23
      modifies buffer
      ensures p == p0 - 1 && Holds(p, [c] + done)
    {
      ghost var rest := buffer[p0..23];
      p := p0 - 1;
      buffer[p] := c;
      assert buffer[p..23] == [buffer[p]] + rest;
    }
  }

  lemma LastDigit(u: nat, base: nat)
    requires base >= 2
    ensures u / base <= u && (u > 0 ==> u / base < u)
    ensures Digits(u, base) ==
      if u / base == 0 then [Digit(u % base)] else Digits(u / base, base) + [Digit(u % base)]
  {
    if u < base {
      QuotientUnique(u, base, 0, u);
    } else {
      Carries(u, base);
    }
  }

  /** In the bases in use every negative number has its sign. */
  lemma AlwaysSigned(x: int, base: nat)
    requires 2 <= base <= 36 && x < 0
    ensures Numeral(x, base) == ['-' as int] + Digits(-x, base)
  {
    LeadingDigit(-x, base);
  }

  /** Two's complement: the number that a register with `m` states holds. */
  function Wrap(x: int, m: nat): (i: int)
    requires m > 0
    ensures -(m / 2) <= i < m - m / 2
    ensures -(m / 2) <= x < m - m / 2 ==> i == x
  {
    Fits(x + m / 2, m);
    (x + m / 2) % m - m / 2
  }

  lemma Fits(x: int, m: nat)
    requires m > 0
    ensures 0 <= x % m < m && (0 <= x < m ==> x % m == x)
  {
    if 0 <= x < m {
      QuotientUnique(x, m, 0, x);
    }
  }

  function Int32(x: int): (i: int)
    ensures INT_MIN <= i < -INT_MIN && (INT_MIN <= x < -INT_MIN ==> i == x)
  {
    Wrap(x, INTS)
  }

  function Long(x: int): (i: int)
    ensures IsLong(i) && (IsLong(x) ==> i == x)
  {
    Wrap(x, WORDS)
  }

  predicate IsSpace(c: int) {
    c == 9 || c == 10 || c == 11 || c == 12 || c == 13 || c == 32
  }

  predicate IsDigit(c: int) {
    '0' as int <= c <= '9' as int
  }

  predicate IsNumber(c: int, base: nat) {
    if base == 2 then '0' as int <= c <= '1' as int
    else if base == 8 then '0' as int <= c <= '7' as int
    else if base == 10 then IsDigit(c)
    else IsDigit(c) || 'a' as int <= c <= 'f' as int || 'A' as int <= c <= 'F' as int
  }

  /** What a digit stands for. */
  function DigitValue(c: int): int {
    if c >= 'a' as int then c - 'a' as int + 10
    else if c >= 'A' as int then c - 'A' as int + 10
    else c - '0' as int
  }

  function Value(s: Text, base: nat): int {
    if s == [] then 0 else Value(s[..|s| - 1], base) * base + DigitValue(s[|s| - 1])
  }

  /** Where a text with a zero at its end has no more spaces. */
  function SpacesEnd(text: Text, i: nat): (j: nat)
    requires i < |text| && text[|text| - 1] == 0
    ensures i <= j < |text|
    decreases |text| - i
  {
    if IsSpace(text[i]) then SpacesEnd(text, i + 1) else i
  }

  function NumberEnd(text: Text, i: nat, base: nat): (j: nat)
    requires i < |text| && text[|text| - 1] == 0
    ensures i <= j < |text|
    decreases |text| - i
  {
    if IsNumber(text[i], base) then NumberEnd(text, i + 1, base) else i
  }

  function Skip(text: Text, i: nat, c: int): (j: nat)
    requires i < |text| && text[|text| - 1] == 0 && c != 0
    ensures i <= j < |text|
  {
    if text[i] == c then i + 1 else i
  }

  /** Spaces, a plus sign, a minus sign and the digits. */
  function ParseLong(text: Text, i: nat, base: nat): (r: (int, nat))
    requires i < |text| && text[|text| - 1] == 0
  {
    var plus := Skip(text, SpacesEnd(text, i), '+' as int);
    var minus := Skip(text, plus, '-' as int);
    var end := NumberEnd(text, minus, base);
    var v := Value(text[minus..end], base);
    (Int32(if minus > plus then -v else v), end)
  }

  lemma WrapShift(x: int, k: int, m: nat)
    requires m > 0
    ensures Wrap(x + k * m, m) == Wrap(x, m)
  {
    var y := x + m / 2;
    var q := y / m;
    assert y == q * m + y % m;
    assert (q + k) * m == q * m + k * m;
    QuotientUnique(y + k * m, m, q + k, y % m);
  }

  lemma Wrapped(x: int, m: nat) returns (k: int)
    requires m > 0
    ensures x == Wrap(x, m) + k * m
  {
    k := (x + m / 2) / m;
  }

  /** Arithmetic that wraps may as well wrap at the end. */
  lemma WrapStep(x: int, b: int, c: int, m: nat)
    requires m > 0
    ensures Wrap(Wrap(Wrap(x, m) * b, m) + c, m) == Wrap(x * b + c, m)
  {
    var k := Wrapped(x, m);
    var y := Wrap(x, m) * b;
    var n := Wrapped(y, m);
    Swapped(Wrap(x, m), k, m, b);
    Together(n, k * b, m);
    hide Wrap;
    WrapShift(Wrap(y, m) + c, n + k * b, m);
  }

  lemma Swapped(x: int, k: int, m: int, b: int)
    ensures (x + k * m) * b == x * b + (k * b) * m
  {
    Double(k, m, b);
    Double(k, b, m);
    Together(x, k * m, b);
  }

  lemma Together(a: int, b: int, c: int)
    ensures (a + b) * c == a * c + b * c
  {
  }

  lemma WrapNegate(x: int, m: nat)
    requires m > 0
    ensures Wrap(-Wrap(x, m), m) == Wrap(-x, m)
  {
    var k := Wrapped(x, m);
    assert -k * m == -(k * m);
    WrapShift(-Wrap(x, m), -k, m);
  }

  lemma ValueStep(text: Text, start: nat, s: nat, base: nat)
    requires start <= s < |text|
    ensures Value(text[start..s + 1], base) == Value(text[start..s], base) * base + DigitValue(text[s])
  {
    assert text[start..s + 1][..s - start] == text[start..s];
  }

  lemma NoValue(base: nat)
    ensures Value([], base) == 0 && Int32(0) == 0
  {
  }

  method ParseDigits(text: Text, start: nat, base: nat) returns (i: int, s: nat)
    requires start < |text| && text[|text| - 1] == 0
    ensures s == NumberEnd(text, start, base) && i == Int32(Value(text[start..s], base))
  {
    hide Value;
    hide Wrap;
    hide DigitValue;
    hide IsNumber;
    i, s := 0, start;
    NoValue(base);
    assert text[start..start] == [];
    while IsNumber(text[s], base)
      invariant start <= s < |text| && NumberEnd(text, s, base) == NumberEnd(text, start, base)
      invariant i == Int32(Value(text[start..s], base))
      decreases |text| - s
    {
      ghost var v := Value(text[start..s], base);
      WrapStep(v, base, DigitValue(text[s]), INTS);
      ValueStep(text, start, s, base);
      i := Int32(i * base);
      i := Int32(i + DigitValue(text[s]));
      s := s + 1;
    }
  }

  /** Reads a number; too large a number is cut to an int on the way. */
  method Abtol(text: Text, p: nat, base0: nat) returns (r: int, end: nat)
    requires p < |text| && text[|text| - 1] == 0
    requires base0 == 0 || base0 == 2 || Printable(base0)
    ensures (r, end) == ParseLong(text, p, if base0 == 0 then 10 else base0)
  {
    hide Value;
    hide Wrap;
    hide NumberEnd;
    hide IsSpace;
    var s, sign, base := p, false, base0;
    if base == 0 {
      base := 10;
    }
    while IsSpace(text[s])
      invariant p <= s < |text| && SpacesEnd(text, s) == SpacesEnd(text, p)
      decreases |text| - s
    {
      s := s + 1;
    }
    if text[s] != 0 && text[s] == '+' as int {
      s := s + 1;
    }
    if text[s] != 0 && text[s] == '-' as int {
      sign := true;
      s := s + 1;
    }
    var i;
    ghost var start := s;
    i, end := ParseDigits(text, s, base);
    WrapNegate(Value(text[start..end], base), INTS);
    r := if sign then Int32(-i) else i;
  }

  lemma DigitRead(i: int, base: nat)
    requires Printable(base) && 0 <= i < base
    ensures IsNumber(Digit(i), base) && DigitValue(Digit(i)) == i
  {
  }

  /** The number without its last digit, and the last digit. */
  lemma Split(u: nat, base: nat) returns (q: nat, r: nat)
    requires Printable(base)
    ensures r < base && u == q * base + r && (u > 0 ==> q < u)
    ensures Digits(u, base) == (if q == 0 then [] else Digits(q, base)) + [Digit(r)]
    ensures IsNumber(Digit(r), base) && DigitValue(Digit(r)) == r
  {
    Shrinks(u + 1, base);
    LastDigit(u, base);
    if u == 0 {
      QuotientUnique(0, base, 0, 0);
      q, r := 0, 0;
    } else {
      Shrinks(u, base);
      q, r := u / base, u % base;
    }
    DigitRead(r, base);
  }

  lemma {:induction false} DigitsAreNumbers(u: nat, base: nat, k: nat)
    requires Printable(base) && k < |Digits(u, base)|
    ensures IsNumber(Digits(u, base)[k], base)
    decreases u
  {
    var q, r := Split(u, base);
    hide Digits;
    hide IsNumber;
    if k < |Digits(u, base)| - 1 {
      DigitsAreNumbers(q, base, k);
    }
  }

  lemma {:induction false} DigitsValue(u: nat, base: nat)
    requires Printable(base)
    ensures Value(Digits(u, base), base) == u
    decreases u
  {
    var q, r := Split(u, base);
    hide Digits;
    hide DigitValue;
    hide Printable;
    var s := Digits(u, base);
    assert Value([], base) == 0;
    if q > 0 {
      assert s[..|s| - 1] == Digits(q, base);
      DigitsValue(q, base);
    } else {
      assert s[..|s| - 1] == [];
    }
  }

  lemma {:induction false} NumberRun(text: Text, i: nat, j: nat, base: nat)
    requires i <= j < |text| && text[|text| - 1] == 0
    requires forall k :: i <= k < j ==> IsNumber(text[k], base)
    requires !IsNumber(text[j], base)
    ensures NumberEnd(text, i, base) == j
    decreases j - i
  {
    if i < j {
      NumberRun(text, i + 1, j, base);
    }
  }

  /** Where the digits of a printed number are. */
  lemma PrintedDigits(x: int, base: nat, text: Text, p: nat, start: nat)
    requires Printable(base) && p < |text| && text[|text| - 1] == 0
    requires Numeral(x, base) <= text[p..] && p + |Numeral(x, base)| < |text|
    requires !IsNumber(text[p + |Numeral(x, base)|], base)
    requires start == if x < 0 then p + 1 else p
    ensures start <= p + |Numeral(x, base)|
    ensures NumberEnd(text, start, base) == p + |Numeral(x, base)|
    ensures Value(text[start..p + |Numeral(x, base)|], base) == if x < 0 then -x else x
    ensures IsNumber(text[start], base) && (x < 0 ==> text[p] == '-' as int)
  {
    hide Digits;
    hide Value;
    hide IsNumber;
    hide DigitValue;
    hide NumberEnd;
    var n, u := Numeral(x, base), if x < 0 then -x else x;
    var digits := Digits(u, base);
    SignedNumeral(x, base);
    hide Numeral;
    var end := p + |n|;
    assert digits == n[start - p..];
    SliceOf(text, p, n, start - p);
    assert x < 0 ==> text[p..][0] == n[0];
    forall k | start <= k < end ensures IsNumber(text[k], base) {
      DigitsAreNumbers(u, base, k - start);
      assert text[start..end][k - start] == text[k];
    }
    NumberRun(text, start, end, base);
    DigitsValue(u, base);
  }

  lemma SliceOf(text: Text, p: nat, n: Text, k: nat)
    requires p <= |text| && n <= text[p..] && k <= |n|
    ensures p + |n| <= |text| && text[p + k..p + |n|] == n[k..]
  {
    assert text[p..][..|n|] == n;
  }

  /** A number that was printed and is followed by something else reads as
      itself cut to an int: the round trip is exact for the numbers that are
      ints, and for no other. */
  lemma PrintParse(x: int, base: nat, text: Text, p: nat)
    requires Printable(base) && p < |text| && text[|text| - 1] == 0
    requires Numeral(x, base) <= text[p..] && p + |Numeral(x, base)| < |text|
    requires !IsNumber(text[p + |Numeral(x, base)|], base)
    ensures ParseLong(text, p, base) == (Int32(x), p + |Numeral(x, base)|)
    ensures ParseLong(text, p, base).0 == x <==> INT_MIN <= x < -INT_MIN
  {
    hide Digits;
    hide Value;
    hide IsNumber;
    hide Numeral;
    var start := if x < 0 then p + 1 else p;
    PrintedDigits(x, base, text, p, start);
    NotSpecial(text[start], base);
    NotSpace(text, p);
  }

  lemma NotSpace(text: Text, p: nat)
    requires p < |text| && text[|text| - 1] == 0 && !IsSpace(text[p])
    ensures SpacesEnd(text, p) == p
  {
  }

  lemma SignedNumeral(x: int, base: nat)
    requires Printable(base)
    ensures Numeral(x, base) == if x < 0 then ['-' as int] + Digits(-x, base) else Digits(x, base)
  {
    if x < 0 {
      AlwaysSigned(x, base);
    }
  }

  lemma NotSpecial(c: int, base: nat)
    requires Printable(base) && IsNumber(c, base)
    ensures c != '+' as int && c != '-' as int && !IsSpace(c)
  {
  }

  lemma {:induction false} SpacesSkipped(text: Text, p: nat, q: nat)
    requires p <= q < |text| && text[|text| - 1] == 0
    requires forall i :: p <= i < q ==> text[i] in {9, 10, 11, 12, 13, 32}
    ensures SpacesEnd(text, p) == SpacesEnd(text, q)
    decreases q - p
  {
    if p < q {
      SpacesSkipped(text, p + 1, q);
    }
  }

  /** Spaces and a plus sign in front of a number change nothing. */
  lemma PaddedParse(x: int, base: nat, text: Text, p: nat, q: nat, plus: bool)
    requires Printable(base) && p + (if plus then 1 else 0) <= q < |text| && text[|text| - 1] == 0
    requires forall i :: p <= i < (if plus then q - 1 else q) ==> text[i] in {9, 10, 11, 12, 13, 32}
    requires plus ==> text[q - 1] == '+' as int
    requires Numeral(x, base) <= text[q..] && q + |Numeral(x, base)| < |text|
    requires !IsNumber(text[q + |Numeral(x, base)|], base)
    ensures ParseLong(text, p, base) == (Int32(x), q + |Numeral(x, base)|)
  {
    PrintParse(x, base, text, q);
    NumeralStarts(x, base, text, q);
    SpacesSkipped(text, p, if plus then q - 1 else q);
    hide Numeral, IsNumber, NumberEnd, Value, Int32;
  }

  /** A printed number begins with a digit or a minus sign. */
  lemma NumeralStarts(x: int, base: nat, text: Text, q: nat)
    requires Printable(base) && q < |text| && Numeral(x, base) <= text[q..]
    ensures text[q] != '+' as int && !IsSpace(text[q])
  {
    SignedNumeral(x, base);
    DigitsAreNumbers(if x < 0 then -x else x, base, 0);
    assert text[q..][0] == text[q];
  }

  /** What the buffer holds after a number is printed parses as that number. */
  lemma BufferParses(printer: Printer, p: nat, x: int, base: nat)
    requires Printable(base) && printer.Holds(p, Numeral(x, base))
    ensures p < 24
    ensures ParseLong(printer.buffer[..], p, base) == (Int32(x), 23)
  {
    var text := printer.buffer[..];
    assert text[p..][..23 - p] == printer.buffer[p..23];
    PrintParse(x, base, text, p);
  }
}
