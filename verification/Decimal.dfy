/** Decimal text of integers: what an output stream prints and what `std::stoll` reads back. */
module Decimal {
  import opened Wrappers

  const LLONG_MAX: int := 0x7FFF_FFFF_FFFF_FFFF
  const LLONG_MIN: int := -0x8000_0000_0000_0000

  /** The values of a C++ `int` (and of `pid_t`). */
  type int32 = x: int | -0x8000_0000 <= x < 0x8000_0000

  predicate IsDigit(c: char) {
    '0' <= c <= '9'
  }

  function DigitValue(c: char): nat
    requires IsDigit(c)
  {
    c as int - '0' as int
  }

  function DigitChar(d: nat): (c: char)
    requires d < 10
    ensures IsDigit(c) && DigitValue(c) == d
  {
    ('0' as int + d) as char
  }

  function NatText(n: nat): (s: string)
    ensures |s| > 0 && forall i :: 0 <= i < |s| ==> IsDigit(s[i])
  {
    if n < 10 then [DigitChar(n)] else NatText(n / 10) + [DigitChar(n % 10)]
  }

  function IntText(n: int): string {
    if n < 0 then "-" + NatText(-n) else NatText(n)
  }

  /** The digits at the front of `s`, read onto the value so far. */
  function ReadDigits(s: string, value: nat): nat {
    if s == [] || !IsDigit(s[0]) then value
    else ReadDigits(s[1..], value * 10 + DigitValue(s[0]))
  }

  predicate IsSpace(c: char) {
    c == ' ' || c == '\t' || c == '\n' || c == '\r' || c == '\U{000B}' || c == '\U{000C}'
  }

  function SkipSpaces(s: string): string {
    if s != [] && IsSpace(s[0]) then SkipSpaces(s[1..]) else s
  }

  /** `std::stoll`; its two exceptions (no digits, out of range) are None. */
  function Stoll(s: string): Option<int> {
    var t := SkipSpaces(s);
    var signed := t != [] && (t[0] == '-' || t[0] == '+');
    var digits := if signed then t[1..] else t;
    if digits == [] || !IsDigit(digits[0]) then None
    else
      var n: int := ReadDigits(digits, 0);
      var value := if signed && t[0] == '-' then -n else n;
      if LLONG_MIN <= value <= LLONG_MAX then Some(value) else None
  }

  /** The conversion of a `long long` to `int`. */
  function ToInt32(x: int): int32 {
    var low := x % 0x1_0000_0000;
    if low < 0x8000_0000 then low else low - 0x1_0000_0000
  }

  lemma {:induction false} ReadDigitsAppend(a: string, b: string, value: nat)
    requires forall i :: 0 <= i < |a| ==> IsDigit(a[i])
    ensures ReadDigits(a + b, value) == ReadDigits(b, ReadDigits(a, value))
  {
    if a == [] {
      assert a + b == b;
    } else {
      assert (a + b)[0] == a[0] && (a + b)[1..] == a[1..] + b;
      ReadDigitsAppend(a[1..], b, value * 10 + DigitValue(a[0]));
    }
  }

  lemma {:induction false} ReadNatText(n: nat, rest: string)
    requires rest == [] || !IsDigit(rest[0])
    ensures ReadDigits(NatText(n) + rest, 0) == n
  {
    ReadDigitsAppend(NatText(n), rest, 0);
    if n >= 10 {
      ReadNatText(n / 10, []);
      assert NatText(n / 10) + [] == NatText(n / 10);
      ReadDigitsAppend(NatText(n / 10), [DigitChar(n % 10)], 0);
    }
  }

  lemma StollUnsigned(digits: string, n: nat)
    requires digits != [] && IsDigit(digits[0]) && ReadDigits(digits, 0) == n <= LLONG_MAX
    ensures Stoll(digits) == Some(n)
  {
    hide ReadDigits;
  }

  lemma StollNegative(digits: string, n: nat)
    requires digits != [] && IsDigit(digits[0]) && ReadDigits(digits, 0) == n && LLONG_MIN <= -(n as int)
    ensures Stoll("-" + digits) == Some(-(n as int))
  {
    hide ReadDigits;
    assert ("-" + digits)[1..] == digits && SkipSpaces("-" + digits) == "-" + digits;
  }

  /** Reading back a printed number, whatever follows it. */
  lemma StollReadsIntText(n: int32, rest: string)
    requires rest == [] || !IsDigit(rest[0])
    ensures Stoll(IntText(n) + rest) == Some(n)
  {
    hide NatText, ReadDigits, SkipSpaces, Stoll;
    var value: int := n;
    var size: nat := if value < 0 then -value else value;
    var digits := NatText(size) + rest;
    assert digits[0] == NatText(size)[0];
    ReadNatText(size, rest);
    if n < 0 {
      assert IntText(n) + rest == "-" + digits;
      StollNegative(digits, size);
    } else {
      StollUnsigned(digits, size);
    }
  }

  lemma ToInt32Keeps(n: int32)
    ensures ToInt32(n) == n
  {
    if n < 0 {
      assert n % 0x1_0000_0000 == n + 0x1_0000_0000;
    }
  }

  lemma {:induction false} NatTextInjective(a: nat, b: nat)
    requires NatText(a) == NatText(b)
    ensures a == b
  {
    ReadNatText(a, []);
    ReadNatText(b, []);
    assert NatText(a) + [] == NatText(a) && NatText(b) + [] == NatText(b);
  }

  // ----- What the texts are

  function Pow10(k: nat): nat {
    if k == 0 then 1 else 10 * Pow10(k - 1)
  }

  lemma DigitChars(d: nat)
    requires d < 10
    ensures DigitChar(d) == "0123456789"[d]
  {
  }

  lemma DivideTwice(n: nat, k: nat)
    requires k > 0
    ensures Pow10(k) > 0 && Pow10(k - 1) > 0 && n / Pow10(k) == (n / 10) / Pow10(k - 1)
  {
    Pow10Positive(k - 1);
    QuotientOfQuotient(n, Pow10(k - 1));
  }

  lemma {:induction false} Pow10Positive(k: nat)
    ensures Pow10(k) > 0
  {
    if k > 0 { Pow10Positive(k - 1); }
  }

  lemma QuotientOfQuotient(n: nat, m: nat)
    requires m > 0
    ensures 10 * m > 0 && n / (10 * m) == (n / 10) / m
  {
    var a, b := n / 10, n % 10;
    var q, r := a / m, a % m;
    var low := 10 * r + b;
    assert n == 10 * a + b && a == m * q + r;
    assert n == (10 * m) * q + low by { Distribute(m, q, r); }
    assert 0 <= low < 10 * m;
    QuotientUnique(n, 10 * m, q, low);
  }

  lemma Distribute(m: nat, q: nat, r: nat)
    ensures 10 * (m * q + r) == (10 * m) * q + 10 * r
  {
  }

  lemma QuotientUnique(n: nat, m: nat, q: nat, low: nat)
    requires low < m && n == m * q + low
    ensures n / m == q
  {
    var p, rest := n / m, n % m;
    assert n == m * p + rest;
    if p < q {
      OneMore(m, p, q);
    } else if q < p {
      OneMore(m, q, p);
    }
  }

  lemma {:induction false} OneMore(m: nat, a: nat, b: nat)
    requires a < b
    ensures m * a + m <= m * b
  {
    assert m * b == m * (b - 1) + m;
    if a + 1 < b { OneMore(m, a, b - 1); }
  }

  /** A printed number is its decimal digits, the last one first counted, without leading zeros. */
  lemma {:induction false} NatTextDigits(n: nat, k: nat)
    requires k < |NatText(n)|
    ensures Pow10(k) > 0 && NatText(n)[|NatText(n)| - 1 - k] == "0123456789"[(n / Pow10(k)) % 10]
    ensures k + 1 == |NatText(n)| ==> n / Pow10(k) < 10 && (n > 0 ==> n / Pow10(k) > 0)
  {
    Pow10Positive(k);
    DigitChars(n % 10);
    if k > 0 {
      DivideTwice(n, k);
      NatTextDigits(n / 10, k - 1);
    }
  }

  /** A minus in front of the digits of a negative number, nothing in front of any other. */
  lemma IntTextIs(n: int)
    ensures n >= 0 ==> IntText(n) == NatText(n)
    ensures n < 0 ==> IntText(n) == "-" + NatText(-n)
  {
  }

  /** The conversion to `int` keeps the low 32 bits. */
  lemma ToInt32Congruent(x: int)
    ensures (ToInt32(x) - x) % 0x1_0000_0000 == 0
  {
  }

  // ----- What the reader accepts

  const SPACES := " \t\n\r\U{000B}\U{000C}"

  lemma SpacesAre(c: char)
    ensures IsSpace(c) <==> c in SPACES
  {
    assert SPACES[0] == ' ' && SPACES[1] == '\t' && SPACES[2] == '\n' && SPACES[3] == '\r';
    assert SPACES[4] == '\U{000B}' && SPACES[5] == '\U{000C}' && |SPACES| == 6;
  }

  lemma {:induction false} SkipsSpaces(spaces: string, rest: string)
    requires forall c :: c in spaces ==> c in SPACES
    requires rest == "" || rest[0] !in SPACES
    ensures SkipSpaces(spaces + rest) == rest
  {
    if spaces == "" {
      assert spaces + rest == rest;
      if rest != "" { SpacesAre(rest[0]); }
    } else {
      SpacesAre(spaces[0]);
      assert (spaces + rest)[1..] == spaces[1..] + rest && (spaces + rest)[0] == spaces[0];
      SkipsSpaces(spaces[1..], rest);
    }
  }

  /** Leading white space and a sign, then digits up to the first character that is none. */
  lemma StollReads(spaces: string, sign: string, n: nat, rest: string)
    requires forall c :: c in spaces ==> c in SPACES
    requires sign == "" || sign == "+" || sign == "-"
    requires rest == "" || !('0' <= rest[0] <= '9')
    ensures var value := if sign == "-" then -(n as int) else n;
            Stoll(spaces + (sign + (NatText(n) + rest))) ==
            if -0x8000_0000_0000_0000 <= value <= 0x7FFF_FFFF_FFFF_FFFF then Some(value) else None
  {
    hide NatText, ReadDigits, SkipSpaces;
    var digits := NatText(n) + rest;
    ReadNatText(n, rest);
    assert digits[0] == NatText(n)[0];
    SkipsSpaces(spaces, sign + digits);
    if sign == "" { assert sign + digits == digits; } else { assert (sign + digits)[1..] == digits; }
  }

  /** Without a digit there, no number. */
  lemma StollNeedsDigit(spaces: string, sign: string, rest: string)
    requires forall c :: c in spaces ==> c in SPACES
    requires sign == "" || sign == "+" || sign == "-"
    requires rest == "" || (!('0' <= rest[0] <= '9') && (sign == "" ==> rest[0] !in SPACES + "+-"))
    ensures Stoll(spaces + (sign + rest)) == None
  {
    hide ReadDigits, SkipSpaces;
    SkipsSpaces(spaces, sign + rest);
    if sign == "" { assert sign + rest == rest; } else { assert (sign + rest)[1..] == rest; }
  }
}
