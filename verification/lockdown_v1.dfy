/**
 * The idle-lock countdown of the first release (version 1.0.1): a countdown
 * of seconds, decremented by a one-second timer, reset by keyboard and mouse
 * activity, and locking the workstation when it runs out. This version has no
 * way to switch locking off and does not watch gamepads.
 */
module LockdownV1 {
  import opened Wrappers
  import opened CInt
  import opened Input
  import opened Tooltip
  import opened CommandLine

  /**
   * The program's globals: the seconds left before locking and the delay the
   * countdown restarts from, fixed at start-up.
   */
  datatype State = State(countdown: int, secondsToLock: int)

  datatype Event =
    | Tick                        // the one-second timer message
    | Keyboard(key: KeyMsg)       // a low-level keyboard hook call
    | Mouse(mouse: MouseMsg)      // a low-level mouse hook call
    | MenuLockIn10                // tray menu: lock in 10 seconds
    | MenuLockNow                 // tray menu: lock now

  datatype StepResult = StepResult(next: State, out: Signal)

  predicate IsActivity(e: Event) {
    || (e.Keyboard? && KeyIsActivity(e.key))
    || (e.Mouse? && MouseIsActivity(e.mouse))
  }

  /**
   * What holds between events: the delay is at least the "lock soon" countdown
   * and fits an `int`, and the countdown lies in [1, delay].
   */
  predicate Valid(s: State) {
    && LockSoonSeconds <= s.secondsToLock <= CInt.Max
    && 1 <= s.countdown <= s.secondsToLock
  }

  /**
   * Start-up: the countdown starts from the configured delay, and the tooltip
   * first shows that delay.
   */
  function Startup(a: Argument): (r: StepResult)
    ensures Valid(r.next)
    ensures r.next.countdown == r.next.secondsToLock == SecondsToLock(a)
    ensures !r.out.lock && r.out.tooltip.Some?
    ensures ParseLockIn(r.out.tooltip.value) == Some(r.next.countdown)
  {
    var secs := SecondsToLock(a);
    LockInRoundTrip(secs);
    StepResult(State(secs, secs), Signal(false, Some(LockInText(secs))))
  }

  /** A timer tick, given the decremented countdown `c`: lock and restart when it has run out. */
  function TickStep(s: State, c: int): StepResult
  {
    var out := Signal(c <= 0, Some(LockInText(c)));
    if c <= 0 then StepResult(s.(countdown := s.secondsToLock), out)
    else StepResult(s.(countdown := c), out)
  }

  function Step(s: State, e: Event): (r: StepResult)
    ensures r.next.secondsToLock == s.secondsToLock
    ensures Valid(s) ==> Valid(r.next)
    ensures r.out.tooltip.Some? <==> e.Tick?
    ensures r.out.lock <==> e.MenuLockNow? || (e.Tick? && Wrap(s.countdown - 1) <= 0)
    ensures IsActivity(e) ==> r == StepResult(s.(countdown := s.secondsToLock), Quiet)
    ensures (e.Keyboard? || e.Mouse?) && !IsActivity(e) ==> r == StepResult(s, Quiet)
  {
    match e
    case Tick => TickStep(s, Wrap(s.countdown - 1))
    case Keyboard(k) =>
      if KeyIsActivity(k) then StepResult(s.(countdown := s.secondsToLock), Quiet)
      else StepResult(s, Quiet)
    case Mouse(m) =>
      if MouseIsActivity(m) then StepResult(s.(countdown := s.secondsToLock), Quiet)
      else StepResult(s, Quiet)
    case MenuLockIn10 =>
      StepResult(s.(countdown := LockSoonSeconds), Quiet)
    case MenuLockNow =>
      StepResult(s, Signal(true, None))
  }

  /** A tick, written out: the decremented countdown, restarted from the delay when it runs out. */
  lemma TickIs(s: State)
    ensures var c := Wrap(s.countdown - 1);
      var r := Step(s, Tick);
      && r.next == s.(countdown := if c <= 0 then s.secondsToLock else c)
      && r.out == Signal(c <= 0, Some(LockInText(c)))
  {
    assert Step(s, Tick) == TickStep(s, Wrap(s.countdown - 1));
  }

  /**
   * A tick between events takes exactly one second off the countdown; it locks
   * exactly when that empties the countdown, which then restarts from the
   * delay. The tooltip shows the decremented countdown.
   */
  lemma TickUnderInvariant(s: State)
    requires Valid(s)
    ensures var r := Step(s, Tick);
      && (r.out.lock <==> s.countdown == 1)
      && r.next.countdown == (if s.countdown == 1 then s.secondsToLock else s.countdown - 1)
      && r.out.tooltip == Some(LockInText(s.countdown - 1))
      && ParseLockIn(r.out.tooltip.value) == Some(s.countdown - 1)
  {
    var c := s.countdown - 1;
    assert Step(s, Tick) == TickStep(s, c) by {
      assert Wrap(c) == c;
    }
    LockInRoundTrip(c);
  }

  /** The menu commands: lock soon sets the countdown to 10, lock now locks and changes nothing. */
  lemma MenuCommands(s: State)
    ensures Step(s, MenuLockIn10) == StepResult(State(LockSoonSeconds, s.secondsToLock), Quiet)
    ensures Step(s, MenuLockNow) == StepResult(s, Signal(true, None))
  {
  }

  /** The state after a sequence of events. */
  function Run(s: State, es: seq<Event>): State
    decreases |es|
  {
    if |es| == 0 then s else Run(Step(s, es[0]).next, es[1..])
  }

  /** The signals a sequence of events emits, one per event. */
  function Outputs(s: State, es: seq<Event>): (outs: seq<Signal>)
    ensures |outs| == |es|
    decreases |es|
  {
    if |es| == 0 then [] else [Step(s, es[0]).out] + Outputs(Step(s, es[0]).next, es[1..])
  }

  /** Every state reachable from start-up satisfies the invariant and keeps the configured delay. */
  lemma {:induction false} RunKeepsValid(s: State, es: seq<Event>)
    requires Valid(s)
    ensures Valid(Run(s, es)) && Run(s, es).secondsToLock == s.secondsToLock
    decreases |es|
  {
    if |es| > 0 {
      RunKeepsValid(Step(s, es[0]).next, es[1..]);
    }
  }

}
