/**
 * The tray-icon tooltip text both versions show: "Lock in MM:SS" built with
 * `sprintf("Lock in %02d:%02d", mins, secs)` from the countdown's C quotient
 * and remainder by 60, or "Lockdown Disabled" while auto-locking is off.
 */
module Tooltip {
  import opened Wrappers
  import opened Decimal
  import CInt

  const Prefix: string := "Lock in "
  const DisabledText: string := "Lockdown Disabled"

  /** The "Lock in %02d:%02d" text of a countdown; `LockInRoundTrip` states what it means. */
  function LockInText(countdown: int): string
  {
    Prefix + ZeroPad2(CInt.Div(countdown, 60)) + ":" + ZeroPad2(CInt.Rem(countdown, 60))
  }

  /**
   * Reads a "Lock in M...M:SS" text back into a number of seconds: minutes of
   * one digit or more, a colon, then exactly two digits below 60.
   */
  function ParseLockIn(t: string): Option<nat>
  {
    if |t| < |Prefix| || t[..|Prefix|] != Prefix then None else ParseClock(t[|Prefix|..])
  }

  /** Reads "M...M:SS" into seconds: the last three characters are the colon and the seconds. */
  function ParseClock(rest: string): Option<nat>
  {
    if |rest| < 4 then None
    else
      var mins, secs := rest[..|rest| - 3], rest[|rest| - 2..];
      if rest[|rest| - 3] == ':' && AllDigits(mins) && AllDigits(secs) && Value(secs) < 60
      then Some(60 * Value(mins) + Value(secs))
      else None
  }

  /** Any "M...M:SS" text with digit fields reads back as minutes and seconds. */
  lemma ParseClockOf(mins: string, secs: string)
    requires 0 < |mins| && AllDigits(mins)
    requires |secs| == 2 && AllDigits(secs) && Value(secs) < 60
    ensures ParseClock(mins + (":" + secs)) == Some(60 * Value(mins) + Value(secs))
  {
    var rest := mins + (":" + secs);
    assert rest[..|rest| - 3] == mins;
    assert rest[|rest| - 2..] == secs;
  }

  /** Any "Lock in M...M:SS" text with digit fields reads back as minutes and seconds. */
  lemma ParseLockInOf(mins: string, secs: string)
    requires 0 < |mins| && AllDigits(mins)
    requires |secs| == 2 && AllDigits(secs) && Value(secs) < 60
    ensures var t := Prefix + mins + ":" + secs;
      && |t| >= |Prefix| + 4 && t[..|Prefix|] == Prefix
      && t[|t| - 3] == ':' && t[|t| - 2..] == secs
      && ParseLockIn(t) == Some(60 * Value(mins) + Value(secs))
  {
    var rest := mins + (":" + secs);
    var t := Prefix + mins + ":" + secs;
    assert t == Prefix + rest;
    assert t[..|Prefix|] == Prefix && t[|Prefix|..] == rest;
    assert ParseLockIn(t) == ParseClock(rest);
    ParseClockOf(mins, secs);
  }

  /**
   * For a countdown that is not negative, the tooltip ends in a two-digit
   * seconds field in [0,59] after a colon, and its minutes and seconds read
   * back to exactly the countdown.
   */
  lemma LockInRoundTrip(countdown: nat)
    ensures var t := LockInText(countdown);
      && |t| >= |Prefix| + 5 && t[..|Prefix|] == Prefix
      && t[|t| - 3] == ':' && AllDigits(t[|t| - 2..]) && Value(t[|t| - 2..]) == countdown % 60
      && ParseLockIn(t) == Some(countdown)
  {
    var mins := ZeroPad2(countdown / 60);
    var secs := ZeroPad2(countdown % 60);
    assert LockInText(countdown) == Prefix + mins + ":" + secs;
    ParseLockInOf(mins, secs);
  }

  /** The disabled text is never mistaken for a countdown. */
  lemma DisabledIsNoCountdown()
    ensures ParseLockIn(DisabledText) == None
    ensures forall c: nat :: LockInText(c) != DisabledText
  {
  }

}
