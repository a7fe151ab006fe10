/** Division without a divide instruction, on words of 64 bits. */
module Division {
  const WORD_BITS: nat := 64
  const WORDS: nat := 0x1_0000_0000_0000_0000
  const LONG_MIN: int := -0x8000_0000_0000_0000

  predicate IsWord(x: int) {
    0 <= x < WORDS
  }

  predicate IsLong(x: int) {
    LONG_MIN <= x < -LONG_MIN
  }

  function Pow2(n: nat): (p: nat)
    ensures p > 0
  {
    if n == 0 then 1 else 2 * Pow2(n - 1)
  }

  /** Bits that are shifted out of a word are lost. */
  function ShiftLeft(x: nat, n: nat): nat {
    x * Pow2(n) % WORDS
  }

  function ShiftRight(x: nat, n: nat): nat {
    QuotientSmall(x, Pow2(n));
    x / Pow2(n)
  }

  function SetLowBit(x: nat): nat {
    if x % 2 == 0 then x + 1 else x
  }

  /** Two's complement. */
  function Negate(x: int): int
    requires IsLong(x)
  {
    if x == LONG_MIN then LONG_MIN else -x
  }

  lemma {:induction false} Pow2Add(m: nat, n: nat)
    ensures Pow2(m + n) == Pow2(m) * Pow2(n)
  {
    if m > 0 {
      Pow2Add(m - 1, n);
      assert Pow2(m + n) == 2 * (Pow2(m - 1) * Pow2(n)) == Pow2(m) * Pow2(n);
    }
  }

  lemma Pow2Word()
    ensures Pow2(WORD_BITS) == WORDS
  {
    assert Pow2(8) == 0x100;
    Pow2Add(8, 8);
    Pow2Add(16, 16);
    Pow2Add(32, 32);
  }

  /** The index of the highest bit that is set. */
  predicate HighestBit(d: nat, i: nat) {
    Pow2(i) <= d < Pow2(i + 1)
  }

  lemma {:induction false} Pow2Monotone(i: nat, j: nat)
    requires i <= j
    ensures Pow2(i) <= Pow2(j)
  {
    if i < j {
      Pow2Monotone(i, j - 1);
    }
  }

  lemma ShiftTwice(d: nat, m: nat, n: nat)
    ensures d / Pow2(m) / Pow2(n) == d / Pow2(m + n)
  {
    Pow2Add(m, n);
    DivideTwice(d, Pow2(m), Pow2(n));
  }

  lemma Scale(a: int, b: int, c: nat)
    requires a <= b
    ensures a * c <= b * c
  {
  }

  lemma Double(a: int, b: int, c: int)
    ensures a * (2 * b) == 2 * (a * b) == (2 * a) * b
    ensures (2 * a + 1) * b == 2 * (a * b) + b
    ensures (a * b) * c == a * (b * c)
  {
  }

  lemma DivideTwice(d: nat, a: nat, b: nat)
    requires a > 0 && b > 0
    ensures a * b > 0 && d / a / b == d / (a * b)
  {
    var q, s, r := d / a / b, d / a % b, d % a;
    assert d / a == q * b + s;
    assert d == (q * b + s) * a + r;
    assert (q * b + s) * a == q * (a * b) + s * a by {
      assert (q * b + s) * a == (q * b) * a + s * a;
      Double(q, b, a);
    }
    Scale(s + 1, b, a);
    QuotientUnique(d, a * b, q, s * a + r);
  }

  lemma QuotientUnique(n: int, d: nat, q: int, r: int)
    requires d > 0 && n == q * d + r && 0 <= r < d
    ensures q == n / d && r == n % d
  {
    var p := n / d;
    assert n == p * d + n % d;
    if q < p {
      Scale(q + 1, p, d);
      assert false;
    } else if p < q {
      Scale(p + 1, q, d);
      assert false;
    }
  }

  /** One half of the bits that are left, at each turn. */
  predicate Half(n: nat) {
    n == 64 || n == 32 || n == 16 || n == 8 || n == 4 || n == 2 || n == 1
  }

  lemma HalfSearch(d: nat, n: nat)
    requires d < Pow2(2 * n)
    ensures d / Pow2(n) < Pow2(n)
    ensures d / Pow2(n) == 0 ==> d < Pow2(n)
  {
    Pow2Add(n, n);
    hide Pow2;
    var p := Pow2(n);
    assert d == (d / p) * p + d % p;
    if d / p >= p {
      Scale(p, d / p, p);
    }
  }

  method Log2i(word: nat) returns (i: nat)
    requires IsWord(word) && word > 0
    ensures HighestBit(word, i) && i < WORD_BITS
  {
    hide Pow2;
    var n := WORD_BITS;
    var d := word;
    i := 0;
    Pow2Word();
    Pow2Small();
    while n >= 2
      invariant Half(n) && i + n <= WORD_BITS
      invariant 0 < d < Pow2(n) && d == word / Pow2(i)
    {
      n := n / 2;
      HalfSearch(d, n);
      ShiftTwice(word, i, n);
      var d1 := ShiftRight(d, n);
      if d1 > 0 {
        d := d1;
        i := i + n;
      }
    }
    OneLeft(word, i);
  }

  lemma Pow2Small()
    ensures Pow2(0) == 1 && Pow2(1) == 2
  {
  }

  lemma OneLeft(d: nat, i: nat)
    requires d / Pow2(i) == 1
    ensures HighestBit(d, i)
  {
    assert Pow2(i + 1) == 2 * Pow2(i);
    hide Pow2;
    assert d == 1 * Pow2(i) + d % Pow2(i);
  }

  /** Long division. */
  method Uldiv1(dividend: nat, divisor: nat) returns (quotient: nat, remainder: nat)
    requires IsWord(dividend) && IsWord(divisor) && divisor > 0
    ensures quotient == dividend / divisor && remainder == dividend % divisor
  {
    hide Pow2;
    hide ShiftLeft;
    hide ShiftRight;
    hide SetLowBit;
    var log := Log2i(divisor);
    var j := WORD_BITS - log;
    quotient := 0;
    var r := dividend;
    NoBitsLost(divisor, log);
    var d := ShiftLeft(divisor, j - 1);
    while j > 0
      invariant 0 <= j <= WORD_BITS
      invariant j > 0 ==> d == divisor * Pow2(j - 1)
      invariant Divided(dividend, divisor * Pow2(j), quotient, r)
    {
      Halved(divisor, j);
      NextDigit(dividend, d, quotient, r);
      quotient := ShiftLeft(quotient, 1);
      if r >= d {
        r := r - d;
        quotient := SetLowBit(quotient);
      }
      j := j - 1;
      d := ShiftRight(d, 1);
    }
    remainder := r;
    Pow2Small();
    QuotientUnique(dividend, divisor, quotient, r);
  }

  predicate Divided(n: int, d: int, q: int, r: int) {
    n == q * d + r && 0 <= r < d && q >= 0
  }

  /** Shifted until its highest bit is that of the word, the divisor loses none. */
  lemma NoBitsLost(d: nat, log: nat)
    requires IsWord(d) && HighestBit(d, log) && log < WORD_BITS
    ensures ShiftLeft(d, WORD_BITS - log - 1) == d * Pow2(WORD_BITS - log - 1)
    ensures WORDS <= d * Pow2(WORD_BITS - log)
  {
    var k := WORD_BITS - log - 1;
    Pow2Word();
    Pow2Add(log + 1, k);
    Pow2Add(log, k + 1);
    hide Pow2;
    Scale(d + 1, Pow2(log + 1), Pow2(k));
    Scale(Pow2(log), d, Pow2(k + 1));
    assert (d + 1) * Pow2(k) == d * Pow2(k) + Pow2(k);
    Unwrapped(d * Pow2(k));
  }

  lemma Unwrapped(x: nat)
    requires x < WORDS
    ensures x % WORDS == x
  {
  }

  lemma Halved(divisor: nat, j: nat)
    requires j > 0
    ensures divisor * Pow2(j) == 2 * (divisor * Pow2(j - 1))
    ensures j > 1 ==> ShiftRight(divisor * Pow2(j - 1), 1) == divisor * Pow2(j - 2)
  {
    var p := Pow2(j - 1);
    assert Pow2(j) == 2 * p;
    Double(divisor, p, 1);
    if j > 1 {
      var r := Pow2(j - 2);
      assert p == 2 * r;
      Double(divisor, r, 1);
      Pow2Small();
    }
  }

  lemma NextDigit(n: nat, d: nat, q: nat, r: nat)
    requires IsWord(n) && d > 0 && Divided(n, 2 * d, q, r)
    ensures
      if r >= d then Divided(n, d, SetLowBit(ShiftLeft(q, 1)), r - d)
      else Divided(n, d, ShiftLeft(q, 1), r)
  {
    Double(q, d, 1);
    Scale(1, d, 2 * q);
    Unwrapped(2 * q);
    Pow2Small();
  }

  /** Unsigned division; dividing by zero raises a signal.  For a power of two
      up to 64 the low bits are masked and the others shifted down. */
  method Uldiv(a: nat, b: nat) returns (quotient: nat, remainder: nat, trapped: bool)
    requires IsWord(a) && IsWord(b)
    ensures trapped <==> b == 0
    ensures !trapped ==> quotient == a / b && remainder == a % b
  {
    trapped := false;
    match b {
      case 64 => quotient, remainder := ShiftRight(a, 6), a % 64;
      case 32 => quotient, remainder := ShiftRight(a, 5), a % 32;
      case 16 => quotient, remainder := ShiftRight(a, 4), a % 16;
      case 8 => quotient, remainder := ShiftRight(a, 3), a % 8;
      case 4 => quotient, remainder := ShiftRight(a, 2), a % 4;
      case 2 => quotient, remainder := ShiftRight(a, 1), a % 2;
      case 1 => quotient, remainder := a, 0;
      case 0 => quotient, remainder, trapped := 0, 0, true;
      case _ => quotient, remainder := Uldiv1(a, b);
    }
  }

  /** Division that truncates towards zero: section 6.5.5 of ISO C99. */
  predicate Truncates(a: int, b: int, quot: int, rem: int) {
    && quot * b + rem == a
    && Abs(rem) < Abs(b)
    && (rem == 0 || (rem < 0) == (a < 0))
  }

  function Abs(x: int): nat {
    if x < 0 then -x else x
  }

  /** There is one way to truncate. */
  lemma TruncatesUnique(a: int, b: int, q: int, r: int, p: int, s: int)
    requires Truncates(a, b, q, r) && Truncates(a, b, p, s)
    ensures q == p && r == s
  {
    var d := if b < 0 then p - q else q - p;
    assert d * Abs(b) == s - r by {
      assert (q - p) * b == q * b - p * b;
      assert (p - q) * -b == (q - p) * b;
    }
    if d > 0 {
      Scale(1, d, Abs(b));
      assert false;
    } else if d < 0 {
      Scale(d, -1, Abs(b));
      assert false;
    }
  }

  /** The magnitudes are divided; the quotient is negative if one operand is, and
      the remainder if the dividend is. */
  lemma TruncatesMagnitudes(a: int, b: int, q: int, r: int)
    requires Truncates(a, b, q, r)
    ensures b != 0
    ensures q == if (a < 0) != (b < 0) then -(Abs(a) / Abs(b)) else Abs(a) / Abs(b)
    ensures r == if a < 0 then -(Abs(a) % Abs(b)) else Abs(a) % Abs(b)
  {
    QuotientSmall(Abs(a), Abs(b));
    Signs(a, b, Abs(a) / Abs(b), Abs(a) % Abs(b));
    TruncatesUnique(a, b, q, r, if (a < 0) != (b < 0) then -(Abs(a) / Abs(b)) else Abs(a) / Abs(b),
                    if a < 0 then -(Abs(a) % Abs(b)) else Abs(a) % Abs(b));
  }

  lemma Signs(a: int, b: int, q: int, r: int)
    requires b != 0 && Abs(a) == q * Abs(b) + r && 0 <= r < Abs(b) && q >= 0
    ensures Truncates(a, b, if (a < 0) != (b < 0) then -q else q, if a < 0 then -r else r)
  {
    assert q * -b == -(q * b) == -q * b;
  }

  /** Signed division.  It is right for every dividend, the smallest included,
      but not for two divisors: zero, and the smallest number, are taken for
      errors; and the one quotient that is not a number wraps. */
  method Ldiv(dividend: int, divisor: int) returns (quot: int, rem: int, trapped: bool)
    requires IsLong(dividend) && IsLong(divisor)
    ensures trapped <==> divisor == 0 || divisor == LONG_MIN
    ensures !trapped ==> IsLong(quot) && IsLong(rem)
    ensures !trapped ==> (Truncates(dividend, divisor, quot, rem) <==> !(dividend == LONG_MIN && divisor == -1))
  {
    var a, b := dividend, divisor;
    var negateResult := (a < 0) != (b < 0);
    if b == LONG_MIN {
      return 0, 0, true;
    }
    trapped := false;
    if a != LONG_MIN {
      var negativeA := a < 0;
      if negativeA {
        a := Negate(a);
      }
      if b < 0 {
        b := Negate(b);
      }
      quot, rem, trapped := Uldiv(a, b);
      if trapped {
        return;
      }
      QuotientSmall(a, b);
      Signs(dividend, divisor, quot, rem);
      if negateResult {
        quot := Negate(quot);
      }
      if negativeA {
        rem := Negate(rem);
      }
    } else {
      rem := 0;
      if b < 0 {
        b := Negate(b);
      }
      if b == 1 {
        quot := a;
        negateResult := !negateResult;
      } else if b == 0 {
        return 0, 0, true;
      } else {
        quot, rem := CountDown(b);
        Signs(dividend, divisor, quot, -rem);
      }
      if negateResult {
        quot := Negate(quot);
      }
    }
  }

  lemma QuotientSmall(a: int, b: int)
    requires a >= 0 && b > 0
    ensures 0 <= a / b <= a && 0 <= a % b < b && a == (a / b) * b + a % b
  {
    var q := a / b;
    assert a == q * b + a % b;
    if q < 0 {
      Scale(q, -1, b);
      assert false;
    }
    Scale(1, b, q);
  }

  /** The smallest number is divided by adding the divisor to it. */
  method CountDown(b: int) returns (x: int, a: int)
    requires 1 < b < -LONG_MIN
    ensures 0 <= x < -LONG_MIN && -b < a <= 0 && -LONG_MIN == x * b - a
  {
    a := LONG_MIN;
    x := 0;
    while a <= -b
      invariant a <= 0 && 0 <= x
      invariant -LONG_MIN == x * b - a
      decreases -a
    {
      assert (x + 1) * b == x * b + b;
      a := a + b;
      x := x + 1;
    }
    Scale(2, b, x);
  }

  method Idiv(a: int, b: int) returns (q: int, trapped: bool)
    requires IsLong(a) && IsLong(b)
    ensures trapped <==> b == 0 || b == LONG_MIN
    ensures !trapped && !(a == LONG_MIN && b == -1) ==> exists r :: Truncates(a, b, q, r)
  {
    var r;
    q, r, trapped := Ldiv(a, b);
  }

  method Imod(a: int, b: int) returns (r: int, trapped: bool)
    requires IsLong(a) && IsLong(b)
    ensures trapped <==> b == 0 || b == LONG_MIN
    ensures !trapped && !(a == LONG_MIN && b == -1) ==> exists q :: Truncates(a, b, q, r)
  {
    var q;
    q, r, trapped := Ldiv(a, b);
  }
}
