/** PHP's `intval` on a form field, as the score form uses it: optional
    leading whitespace, an optional sign, then the longest run of decimal
    digits (none reads as 0), saturated to the 64-bit integer range. */
module PhpInt {
  const IntMax: int := 0x7FFF_FFFF_FFFF_FFFF
  const IntMin: int := -0x8000_0000_0000_0000

  predicate IsDigit(c: char) { '0' <= c <= '9' }

  /** The whitespace PHP skips before a numeric string. */
  predicate IsSpace(c: char) { c == ' ' || c == '\t' || c == '\n' || c == '\r' || c == '\U{000B}' || c == '\U{000C}' }

  function DigitValue(c: char): (d: nat)
    requires IsDigit(c)
    ensures d < 10
  {
    (c as int - '0' as int) as nat
  }

  function DigitChar(d: nat): (c: char)
    requires d < 10
    ensures IsDigit(c) && DigitValue(c) == d
  {
    ('0' as int + d) as char
  }

  /** The string with its leading whitespace removed. */
  function SkipSpace(s: string): (t: string)
    ensures |t| <= |s|
    ensures t != [] ==> !IsSpace(t[0])
  {
    if s != [] && IsSpace(s[0]) then SkipSpace(s[1..]) else s
  }

  /** SkipSpace drops a prefix made only of whitespace. */
  lemma {:induction false} SkipSpaceSuffix(s: string)
    ensures var t := SkipSpace(s);
      t == s[|s| - |t|..] && forall i :: 0 <= i < |s| - |t| ==> IsSpace(s[i])
  {
    if s != [] && IsSpace(s[0]) {
      SkipSpaceSuffix(s[1..]);
    }
  }

  /** Length of the leading run of digits. */
  function DigitRun(s: string): (n: nat)
    ensures n <= |s|
    ensures forall i :: 0 <= i < n ==> IsDigit(s[i])
    ensures n < |s| ==> !IsDigit(s[n])
  {
    if s != [] && IsDigit(s[0]) then 1 + DigitRun(s[1..]) else 0
  }

  /** The value of a string of digits, most significant first. */
  function DigitsValue(d: string): nat
    requires forall i :: 0 <= i < |d| ==> IsDigit(d[i])
  {
    if d == [] then 0 else 10 * DigitsValue(d[..|d| - 1]) + DigitValue(d[|d| - 1])
  }

  function Saturate(n: int): (r: int)
    ensures IntMin <= r <= IntMax
    ensures IntMin <= n <= IntMax ==> r == n
  {
    if n > IntMax then IntMax else if n < IntMin then IntMin else n
  }

  function IntVal(s: string): (r: int)
    ensures IntMin <= r <= IntMax
  {
    var t := SkipSpace(s);
    var negative := t != [] && t[0] == '-';
    var u := if t != [] && (t[0] == '-' || t[0] == '+') then t[1..] else t;
    var n: int := Unsigned(u);
    Saturate(if negative then -n else n)
  }

  /** The value of the leading run of digits. */
  function Unsigned(u: string): nat
  {
    DigitsValue(u[..DigitRun(u)])
  }

  /** The decimal numeral of a natural number, without leading zeros. */
  function Decimal(n: nat): (s: string)
    ensures s != [] && forall i :: 0 <= i < |s| ==> IsDigit(s[i])
  {
    if n < 10 then [DigitChar(n)] else Decimal(n / 10) + [DigitChar(n % 10)]
  }

  lemma {:induction false} DecimalValue(n: nat)
    ensures DigitsValue(Decimal(n)) == n
  {
    if n >= 10 {
      var s := Decimal(n);
      assert s[..|s| - 1] == Decimal(n / 10);
      DecimalValue(n / 10);
    }
  }

  /** `intval` reads back every numeral of a number in range, with or
      without a sign, and ignores what follows the digits. */
  lemma {:induction false} IntValDecimal(n: nat, rest: string)
    requires rest == [] || !IsDigit(rest[0])
    ensures n <= IntMax ==> IntVal(Decimal(n) + rest) == n
    ensures n <= IntMax ==> IntVal("+" + Decimal(n) + rest) == n
    ensures n <= -IntMin ==> IntVal("-" + Decimal(n) + rest) == -(n as int)
  {
    var d := Decimal(n);
    var u := d + rest;
    UnsignedDecimal(n, rest);
    assert u[0] == d[0];
    if n <= IntMax {
      IntValUnsigned(u);
      SignedNumeral('+', d, rest);
      IntValSigned('+', u);
    }
    if n <= -IntMin {
      SignedNumeral('-', d, rest);
      IntValSigned('-', u);
    }
  }

  lemma {:induction false} SignedNumeral(c: char, d: string, rest: string)
    ensures [c] + d + rest == [c] + (d + rest)
  {
  }

  lemma {:induction false} IntValUnsigned(u: string)
    requires u != [] && IsDigit(u[0])
    ensures IntVal(u) == Saturate(Unsigned(u))
  {
    assert SkipSpace(u) == u;
  }

  lemma {:induction false} IntValSigned(c: char, u: string)
    requires c == '+' || c == '-'
    ensures IntVal([c] + u) == Saturate(if c == '-' then -(Unsigned(u) as int) else Unsigned(u))
  {
    var t := [c] + u;
    assert t[0] == c && !IsSpace(c);
    assert SkipSpace(t) == t;
    assert t[1..] == u;
  }

  lemma {:induction false} UnsignedDecimal(n: nat, rest: string)
    requires rest == [] || !IsDigit(rest[0])
    ensures Unsigned(Decimal(n) + rest) == n
  {
    var d := Decimal(n);
    DecimalValue(n);
    RunOfDigits(d, rest);
    assert (d + rest)[..|d|] == d;
  }

  lemma {:induction false} RunOfDigits(d: string, rest: string)
    requires forall i :: 0 <= i < |d| ==> IsDigit(d[i])
    requires rest == [] || !IsDigit(rest[0])
    ensures DigitRun(d + rest) == |d|
  {
    if d != [] {
      assert (d + rest)[1..] == d[1..] + rest;
      RunOfDigits(d[1..], rest);
    } else {
      assert d + rest == rest;
    }
  }

  /** A field without any digits after the optional sign reads as 0. */
  lemma {:induction false} IntValNoDigits(s: string)
    requires var t := SkipSpace(s);
      var u := if t != [] && (t[0] == '-' || t[0] == '+') then t[1..] else t;
      u == [] || !IsDigit(u[0])
    ensures IntVal(s) == 0
  {
    var t := SkipSpace(s);
    var u := if t != [] && (t[0] == '-' || t[0] == '+') then t[1..] else t;
    assert u[..DigitRun(u)] == [];
    assert Unsigned(u) == 0;
  }

  /** Leading whitespace does not change the value. */
  lemma {:induction false} IntValSkipsSpace(c: char, s: string)
    requires IsSpace(c)
    ensures IntVal([c] + s) == IntVal(s)
  {
    assert ([c] + s)[1..] == s;
  }
}
