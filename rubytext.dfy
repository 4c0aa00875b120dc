/**
 * The two Ruby text conversions the extension relies on: Integer#to_s for
 * non-negative numbers and String#to_i (base 10), which reads an optional
 * run of leading whitespace, an optional sign, an optional `0d` or `0D`
 * radix prefix and the longest run of digits (single underscores allowed
 * between digits), and yields 0 when no digit follows.
 */
module RubyText {
  import opened Wrappers

  predicate IsDigit(c: char) { '0' <= c <= '9' }

  predicate AllDigits(s: string) { forall i :: 0 <= i < |s| ==> IsDigit(s[i]) }

  /** Ruby's whitespace for String#to_i: space, \t, \n, \v, \f, \r. */
  predicate IsSpace(c: char) {
    c == ' ' || c == '\t' || c == '\n' || c == '\r' || c as int == 11 || c as int == 12
  }

  function DigitChar(d: nat): (c: char)
    requires d < 10
    ensures IsDigit(c)
  {
    (('0' as int) + d) as char
  }

  function DigitValue(c: char): (d: nat)
    requires IsDigit(c)
    ensures d < 10 && DigitChar(d) == c
  {
    (c as int) - ('0' as int)
  }

  /** Integer#to_s of a non-negative number. */
  function NatToString(n: nat): (s: string)
    ensures |s| >= 1 && AllDigits(s)
  {
    if n < 10 then [DigitChar(n)] else NatToString(n / 10) + [DigitChar(n % 10)]
  }

  /** The number a run of decimal digits denotes. */
  function DecimalValue(ds: string): nat
    requires AllDigits(ds)
  {
    if ds == [] then 0 else 10 * DecimalValue(ds[..|ds| - 1]) + DigitValue(ds[|ds| - 1])
  }

  /** Drops leading whitespace. */
  function SkipSpace(s: string): string {
    if |s| > 0 && IsSpace(s[0]) then SkipSpace(s[1..]) else s
  }

  /**
   * The digits of the longest prefix of `s` of the form digit ('_'? digit)*,
   * with the underscores dropped; empty when `s` does not start with a digit.
   */
  function DigitRun(s: string): (ds: string)
    ensures AllDigits(ds)
  {
    if s != [] && IsDigit(s[0]) then RunTail(s) else []
  }

  function RunTail(s: string): (ds: string)
    ensures AllDigits(ds)
  {
    if s != [] && IsDigit(s[0]) then [s[0]] + RunTail(s[1..])
    else if |s| > 1 && s[0] == '_' && IsDigit(s[1]) then [s[1]] + RunTail(s[2..])
    else []
  }

  /** Drops the base-10 radix prefix `0d` or `0D`, which String#to_i accepts after the sign. */
  function SkipRadix(s: string): string {
    if |s| >= 2 && s[0] == '0' && (s[1] == 'd' || s[1] == 'D') then s[2..] else s
  }

  /** The value of the digits after the sign: the radix prefix dropped, then the digit run read. */
  function Magnitude(s: string): nat {
    DecimalValue(DigitRun(SkipRadix(s)))
  }

  /** Ruby's String#to_i. */
  function ToI(s: string): int {
    var t := SkipSpace(s);
    if t != [] && t[0] == '-' then 0 - Magnitude(t[1..]) as int
    else if t != [] && t[0] == '+' then Magnitude(t[1..])
    else Magnitude(t)
  }

  /** A character that ends a digit run: neither a digit nor an underscore. */
  predicate EndsRun(rest: string) { rest == [] || (!IsDigit(rest[0]) && rest[0] != '_') }

  lemma {:induction false} DecimalValueAppend(ds: string, c: char)
    requires AllDigits(ds) && IsDigit(c)
    ensures DecimalValue(ds + [c]) == 10 * DecimalValue(ds) + DigitValue(c)
  {
    assert (ds + [c])[..|ds + [c]| - 1] == ds;
  }

  /** Reading back what Integer#to_s wrote gives the number. */
  lemma {:induction false} DecimalRoundTrip(n: nat)
    ensures DecimalValue(NatToString(n)) == n
  {
    if n < 10 {
      assert NatToString(n)[..0] == [];
    } else {
      DecimalRoundTrip(n / 10);
      DecimalValueAppend(NatToString(n / 10), DigitChar(n % 10));
    }
  }

  lemma {:induction false} RunTailOfDigits(ds: string, rest: string)
    requires AllDigits(ds) && EndsRun(rest)
    ensures RunTail(ds + rest) == ds
  {
    if ds == [] {
      assert ds + rest == rest;
    } else {
      assert (ds + rest)[0] == ds[0];
      assert (ds + rest)[1..] == ds[1..] + rest;
      RunTailOfDigits(ds[1..], rest);
    }
  }

  /** Integer#to_s of a positive number does not start with 0. */
  lemma {:induction false} NoLeadingZero(n: nat)
    requires n > 0
    ensures NatToString(n)[0] != '0'
  {
    if n >= 10 {
      NoLeadingZero(n / 10);
      assert NatToString(n)[0] == NatToString(n / 10)[0];
    }
  }

  /**
   * String#to_i reads the number back from its decimal text, whatever text
   * follows that neither extends the digit run nor, after a lone 0, turns
   * it into the radix prefix `0d`.
   */
  lemma {:induction false} ToIOfDecimal(n: nat, rest: string)
    requires EndsRun(rest)
    requires n > 0 || rest == [] || (rest[0] != 'd' && rest[0] != 'D')
    ensures ToI(NatToString(n) + rest) == n
  {
    var ds := NatToString(n);
    var s := ds + rest;
    assert s[0] == ds[0] && IsDigit(s[0]);
    assert !IsSpace(s[0]) && s[0] != '-' && s[0] != '+';
    assert SkipSpace(s) == s;
    if n > 0 {
      NoLeadingZero(n);
    } else {
      assert ds == ['0'];
    }
    assert SkipRadix(s) == s;
    RunTailOfDigits(ds, rest);
    assert DigitRun(s) == ds;
    DecimalRoundTrip(n);
  }

  /** String#to_i reads back what Integer#to_s wrote. */
  lemma ToIOfNat(n: nat)
    ensures ToI(NatToString(n)) == n
  {
    ToIOfDecimal(n, []);
    assert NatToString(n) + [] == NatToString(n);
  }

  /** With the radix prefix in front, String#to_i still reads the number back. */
  lemma {:induction false} ToIOfPrefixedDecimal(n: nat, d: char, rest: string)
    requires d == 'd' || d == 'D'
    requires EndsRun(rest)
    ensures ToI(['0', d] + NatToString(n) + rest) == n
  {
    var ds := NatToString(n);
    var s := ['0', d] + ds + rest;
    assert !IsSpace(s[0]) && s[0] != '-' && s[0] != '+';
    assert SkipSpace(s) == s;
    assert SkipRadix(s) == ds + rest;
    assert (ds + rest)[0] == ds[0] && IsDigit(ds[0]);
    RunTailOfDigits(ds, rest);
    assert DigitRun(ds + rest) == ds;
    DecimalRoundTrip(n);
  }

  /** Text that, after whitespace, starts with neither a sign nor a digit reads as 0. */
  lemma ToIWithoutDigits(s: string)
    requires forall i :: 0 <= i < |s| ==> !IsSpace(s[i]) && !IsDigit(s[i]) && s[i] != '-' && s[i] != '+'
    ensures ToI(s) == 0
  {
  }
}
