/**
 * Decimal digit strings: the rendering C's `printf` gives an `int` under the
 * conversions `%d` and `%02d`, and the value a digit string denotes, which is
 * what `atoi` reads back.
 */
module Decimal {

  predicate IsDigit(c: char) {
    '0' <= c <= '9'
  }

  predicate AllDigits(s: string) {
    forall i :: 0 <= i < |s| ==> IsDigit(s[i])
  }

  function DigitChar(d: int): (c: char)
    requires 0 <= d <= 9
    ensures IsDigit(c)
  {
    ('0' as int + d) as char
  }

  function DigitValue(c: char): (d: int)
    requires IsDigit(c)
    ensures 0 <= d <= 9
    ensures DigitChar(d) == c
  {
    c as int - '0' as int
  }

  /** The value of a string of decimal digits, most significant first. */
  function Value(s: string): nat
    requires AllDigits(s)
  {
    if |s| == 0 then 0 else Value(s[..|s| - 1]) * 10 + DigitValue(s[|s| - 1])
  }

  /** `%d` of a non-negative number: its digits without leading zeros. */
  function Digits(n: nat): (s: string)
    ensures 1 <= |s|
    ensures AllDigits(s)
    ensures n > 0 ==> s[0] != '0'
    decreases n
  {
    if n < 10 then [DigitChar(n)] else Digits(n / 10) + [DigitChar(n % 10)]
  }

  lemma {:induction false} ValueOfDigits(n: nat)
    ensures Value(Digits(n)) == n
    decreases n
  {
    if n >= 10 {
      var s := Digits(n);
      assert s[..|s| - 1] == Digits(n / 10);
      ValueOfDigits(n / 10);
    }
  }

  /** A leading zero does not change the value of a digit string. */
  lemma {:induction false} ValueOfLeadingZero(s: string)
    requires AllDigits(s)
    ensures AllDigits("0" + s) && Value("0" + s) == Value(s)
    decreases |s|
  {
    if |s| > 0 {
      var t := "0" + s;
      assert t[..|t| - 1] == "0" + s[..|s| - 1];
      ValueOfLeadingZero(s[..|s| - 1]);
    }
  }

  /**
   * `%02d`: the decimal rendering zero-padded to at least two characters.
   * For a negative number C writes the sign and then the digits, which are
   * already two characters, so no zero is inserted.
   */
  function ZeroPad2(n: int): (s: string)
    ensures 2 <= |s|
    ensures 0 <= n < 100 ==> |s| == 2
    ensures n >= 0 ==> AllDigits(s) && Value(s) == n
    ensures n < 0 ==> s[0] == '-' && AllDigits(s[1..]) && Value(s[1..]) == -n
    ensures n >= 10 ==> s[0] != '0'
    ensures n < 0 ==> s[1] != '0'
  {
    if n < 0 then
      var d := Digits(-n);
      ValueOfDigits(-n);
      assert ("-" + d)[1..] == d;
      "-" + d
    else if n < 10 then
      ValueOfDigits(n);
      ValueOfLeadingZero(Digits(n));
      "0" + Digits(n)
    else
      ValueOfDigits(n);
      Digits(n)
  }

  /** The longest prefix of `s` made of decimal digits. */
  function LeadingDigits(s: string): (p: string)
    ensures p <= s
    ensures AllDigits(p)
    ensures |p| < |s| ==> !IsDigit(s[|p|])
  {
    if |s| > 0 && IsDigit(s[0]) then [s[0]] + LeadingDigits(s[1..]) else []
  }

  /** The leading-digit prefix is determined by where the first non-digit sits. */
  lemma LeadingDigitsOf(d: string, rest: string)
    requires AllDigits(d)
    requires |rest| == 0 || !IsDigit(rest[0])
    ensures LeadingDigits(d + rest) == d
  {
    var s := d + rest;
    var p := LeadingDigits(s);
    assert p == s[..|p|];
    assert d == s[..|d|];
  }

}
