/**
 * The C library's `atoi` (section 7.22.1.2 of the C11 standard): it behaves as
 * `strtol(s, NULL, 10)`, which skips leading white space as classified by
 * `isspace` in the "C" locale, reads an optional sign and then the longest run
 * of decimal digits; with no digits the result is 0. The value is returned
 * here as a mathematical integer; when it does not fit an `int` the standard
 * leaves the behaviour undefined, which the caller has to rule out.
 */
module CLib {
  import opened Decimal

  /** `isspace` in the "C" locale: space, \t, \n, \v, \f and \r. */
  predicate IsSpace(c: char) {
    c == ' ' || c == '\t' || c == '\n' || c == 11 as char || c == 12 as char || c == '\r'
  }

  /** The string after its leading white space. */
  function SkipSpace(s: string): (t: string)
    ensures |t| <= |s| && t == s[|s| - |t|..]
    ensures forall i :: 0 <= i < |s| - |t| ==> IsSpace(s[i])
    ensures |t| > 0 ==> !IsSpace(t[0])
  {
    if |s| > 0 && IsSpace(s[0]) then
      var t := SkipSpace(s[1..]);
      assert s[1..][|s| - 1 - |t|..] == s[|s| - |t|..];
      t
    else s
  }

  /** The value of the optionally signed digit run that starts `t`. */
  function SignedPrefix(t: string): int
  {
    if |t| > 0 && t[0] == '-' then -(Value(LeadingDigits(t[1..])) as int)
    else if |t| > 0 && t[0] == '+' then Value(LeadingDigits(t[1..]))
    else Value(LeadingDigits(t))
  }

  /**
   * The magnitude is the value of the digit run after the white space and
   * an optional sign; the result is negative only after a minus sign, and
   * never positive after one.
   */
  function Atoi(s: string): (r: int)
    ensures var t := SkipSpace(s);
      var minus := |t| > 0 && t[0] == '-';
      var digits := if |t| > 0 && (t[0] == '-' || t[0] == '+') then t[1..] else t;
      && (if r < 0 then -r else r) == Value(LeadingDigits(digits))
      && (r < 0 ==> minus)
      && (minus ==> r <= 0)
  {
    SignedPrefix(SkipSpace(s))
  }

  /** The digit run at the start of a rendering followed by a non-digit is that rendering. */
  lemma DigitRunValue(n: nat, rest: string)
    requires |rest| == 0 || !IsDigit(rest[0])
    ensures Value(LeadingDigits(Digits(n) + rest)) == n
  {
    LeadingDigitsOf(Digits(n), rest);
    ValueOfDigits(n);
  }

  /** Text that does not start with white space is left as it is. */
  lemma SkipNoSpace(t: string)
    requires |t| == 0 || !IsSpace(t[0])
    ensures SkipSpace(t) == t
  {
  }

  /** Text starting with a digit is read as its leading digit run. */
  lemma AtoiOfUnsigned(t: string)
    requires |t| > 0 && IsDigit(t[0])
    ensures Atoi(t) == Value(LeadingDigits(t))
  {
    SkipNoSpace(t);
    SignedPrefixOfUnsigned(t);
  }

  /** Without a sign, the signed reading is the plain digit run. */
  lemma SignedPrefixOfUnsigned(t: string)
    requires |t| > 0 && IsDigit(t[0])
    ensures SignedPrefix(t) == Value(LeadingDigits(t))
  {
  }

  /** Text starting with a minus sign is read as the negated digit run after it. */
  lemma AtoiOfMinus(t: string)
    ensures Atoi("-" + t) == -(Value(LeadingDigits(t)) as int)
  {
    var s := "-" + t;
    assert SkipSpace(s) == s by {
      assert s[0] == '-';
    }
    assert s[0] == '-' && s[1..] == t;
  }

  /** `atoi` reads back what `%d` writes, whatever non-digit text follows. */
  lemma AtoiOfDigits(n: nat, rest: string)
    requires |rest| == 0 || !IsDigit(rest[0])
    ensures Atoi(Digits(n) + rest) == n
  {
    var t := Digits(n) + rest;
    assert IsDigit(t[0]) by {
      assert t[0] == Digits(n)[0];
    }
    AtoiOfUnsigned(t);
    DigitRunValue(n, rest);
  }

  /** ... and the same with a minus sign in front. */
  lemma AtoiOfNegative(n: nat, rest: string)
    requires |rest| == 0 || !IsDigit(rest[0])
    ensures Atoi("-" + Digits(n) + rest) == -(n as int)
  {
    var t := Digits(n) + rest;
    assert "-" + Digits(n) + rest == "-" + t;
    AtoiOfMinus(t);
    DigitRunValue(n, rest);
  }

  /** Leading white space is skipped. */
  lemma AtoiSkipsSpace(c: char, s: string)
    requires IsSpace(c)
    ensures Atoi([c] + s) == Atoi(s)
  {
  }

  /** Text that starts with neither white space, a sign nor a digit reads as 0. */
  lemma AtoiOfNonNumber(s: string)
    requires |s| > 0 && !IsSpace(s[0]) && !IsDigit(s[0]) && s[0] != '-' && s[0] != '+'
    ensures Atoi(s) == 0
  {
  }

}
