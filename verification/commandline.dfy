/**
 * Start-up configuration of both program versions: an optional command-line
 * argument read with `atoi` as a number of minutes, turned into the number of
 * idle seconds before the workstation is locked. Both versions share this code
 * word for word.
 */
module CommandLine {
  import opened Wrappers
  import opened CInt
  import opened CLib
  import opened Decimal

  /** Twenty minutes, the delay used without a usable argument. */
  const DefaultSecondsToLock: int32 := 20 * 60

  /** The largest number of minutes whose seconds still fit an `int`. */
  const MaxMinutes: int := CInt.Max / 60

  /** What `atoi` made of the command line, when it had any text at all. */
  datatype Argument = NoArgument | Minutes(n: int32)

  /**
   * A missing or empty command line gives no argument; any other text is read
   * with `atoi`. None stands for text whose value does not fit an `int`, on
   * which `atoi` has undefined behaviour.
   */
  function Parse(cmdLine: string): (a: Option<Argument>)
    ensures a == Some(NoArgument) <==> |cmdLine| == 0
    ensures a.None? <==> |cmdLine| > 0 && !InRange(Atoi(cmdLine))
    ensures a.Some? && a.value.Minutes? ==> a.value.n == Atoi(cmdLine)
  {
    if |cmdLine| == 0 then Some(NoArgument)
    else if InRange(Atoi(cmdLine)) then Some(Minutes(Atoi(cmdLine)))
    else None
  }

  /** A command line holding a number of minutes is read as that number. */
  lemma ParseOfNumber(n: nat, rest: string)
    requires n <= CInt.Max
    requires |rest| == 0 || !IsDigit(rest[0])
    ensures Parse(Digits(n) + rest) == Some(Minutes(n))
  {
    AtoiOfDigits(n, rest);
  }

  /**
   * The seconds-to-lock computation as the program writes it: `numMins * 60`
   * in `int`, which wraps around (the overflow is undefined behaviour in C;
   * the target compiler produces the two's-complement result).
   */
  function SecondsToLockAsWritten(a: Argument): (r: int32)
    ensures a.Minutes? && 0 < a.n <= MaxMinutes ==> r == a.n * 60
    ensures a.Minutes? && a.n > 0 ==> (r - a.n * 60) % Modulus == 0
    ensures !(a.Minutes? && a.n > 0) ==> r == DefaultSecondsToLock
  {
    if a.Minutes? && a.n > 0 then Wrap(a.n * 60) else DefaultSecondsToLock
  }

  /**
   * The seconds-to-lock computation as intended: a positive number of minutes
   * is used when its seconds fit an `int`, and anything else keeps the
   * twenty-minute default. The result is always a whole, positive number of
   * minutes.
   */
  function SecondsToLock(a: Argument): (r: int32)
    ensures 60 <= r && r % 60 == 0
    ensures a.Minutes? && 0 < a.n <= MaxMinutes ==> r == a.n * 60
    ensures !(a.Minutes? && 0 < a.n <= MaxMinutes) ==> r == DefaultSecondsToLock
  {
    if a.Minutes? && 0 < a.n <= MaxMinutes then a.n * 60 else DefaultSecondsToLock
  }

  /** The two agree on every argument whose seconds are representable. */
  lemma AsWrittenAgreesWhenRepresentable(a: Argument)
    requires !(a.Minutes? && a.n > MaxMinutes)
    ensures SecondsToLockAsWritten(a) == SecondsToLock(a)
  {
  }

  /**
   * One minute more than `MaxMinutes` wraps to a negative delay; larger
   * arguments wrap to a delay of 44 seconds or of nothing at all.
   */
  lemma AsWrittenOverflows()
    ensures SecondsToLockAsWritten(Minutes(MaxMinutes + 1)) == -2147483596
    ensures SecondsToLock(Minutes(MaxMinutes + 1)) == DefaultSecondsToLock
    ensures SecondsToLockAsWritten(Minutes(71582789)) == 44
    ensures SecondsToLockAsWritten(Minutes(0x4000_0000)) == 0
  {
    assert (MaxMinutes + 1) * 60 == 2147483700;
    assert 71582789 * 60 == Modulus + 44;
    assert 0x4000_0000 * 60 == 15 * Modulus;
  }

}
