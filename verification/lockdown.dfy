/**
 * The idle-lock countdown of the current release. On top of the first
 * release's countdown it can be switched off from the tray menu for at most
 * three hours, after which it switches itself back on, and it treats gamepad
 * buttons and controller hot-plugging as activity.
 */
module Lockdown {
  import opened Wrappers
  import opened CInt
  import opened Input
  import opened Tooltip
  import opened CommandLine
  import opened Decimal

  /** The longest a confirmed "disable" lasts: three hours. */
  const MaxDisabledSeconds: int := 3 * 60 * 60

  /**
   * The program's globals: whether auto-locking is on, the seconds left before
   * locking, the seconds left before a disable expires, and the delay the
   * countdown restarts from, fixed at start-up.
   */
  datatype State = State(enabled: bool, countdown: int, countdownDisabled: int, secondsToLock: int)

  datatype Event =
    | Tick                        // the one-second timer message
    | Keyboard(key: KeyMsg)       // a low-level keyboard hook call
    | Mouse(mouse: MouseMsg)      // a low-level mouse hook call
    | GamepadButton               // gamepad hook: a button changed
    | GamepadAxis                 // gamepad hook: an axis moved
    | GamepadConnect              // gamepad hook: a controller appeared
    | GamepadDisconnect           // gamepad hook: a controller went away
    | MenuLockIn10                // tray menu: lock in 10 seconds
    | MenuLockNow                 // tray menu: lock now
    | MenuEnabled(confirmed: bool)  // tray menu: toggle "Enabled"; the answer to the confirmation box

  datatype StepResult = StepResult(next: State, out: Signal)

  /** The events that count as the user being present. */
  predicate IsActivity(e: Event) {
    || (e.Keyboard? && KeyIsActivity(e.key))
    || (e.Mouse? && MouseIsActivity(e.mouse))
    || e.GamepadButton? || e.GamepadConnect? || e.GamepadDisconnect?
  }

  /** The events the program receives and ignores: mouse movement, stick drift, other keys and buttons. */
  predicate IsInert(e: Event) {
    || (e.Keyboard? && !KeyIsActivity(e.key))
    || (e.Mouse? && !MouseIsActivity(e.mouse))
    || e.GamepadAxis?
  }

  /**
   * What holds between events: the delay is at least the "lock soon" countdown
   * and fits an `int`; the countdown lies in [1, delay]; the disable countdown
   * lies in [0, three hours], and is at least 1 while locking is off.
   */
  predicate Valid(s: State) {
    && LockSoonSeconds <= s.secondsToLock <= CInt.Max
    && 1 <= s.countdown <= s.secondsToLock
    && 0 <= s.countdownDisabled <= MaxDisabledSeconds
    && (!s.enabled ==> 1 <= s.countdownDisabled)
  }

  /** Start-up from a given delay: enabled, with a full countdown shown in the tooltip. */
  function Boot(secondsToLock: int32): StepResult
  {
    StepResult(State(true, secondsToLock, MaxDisabledSeconds, secondsToLock),
               Signal(false, Some(LockInText(secondsToLock))))
  }

  /** Start-up from the command-line argument, with the corrected delay. */
  function Startup(a: Argument): (r: StepResult)
    ensures Valid(r.next) && r.next.enabled
    ensures r.next.countdown == r.next.secondsToLock == SecondsToLock(a)
    ensures !r.out.lock && r.out.tooltip.Some?
    ensures ParseLockIn(r.out.tooltip.value) == Some(r.next.countdown)
  {
    LockInRoundTrip(SecondsToLock(a));
    Boot(SecondsToLock(a))
  }

  /** Start-up with the delay computed as the program writes it. */
  function StartupAsWritten(a: Argument): (r: StepResult)
    ensures r.next.enabled && r.next.countdown == r.next.secondsToLock == SecondsToLockAsWritten(a)
  {
    Boot(SecondsToLockAsWritten(a))
  }

  /** The state after the timer's decrement, before the lock check. */
  function Decremented(s: State): State
  {
    if s.enabled then s.(countdown := Wrap(s.countdown - 1))
    else
      var d := Wrap(s.countdownDisabled - 1);
      s.(countdownDisabled := d, enabled := d <= 0)
  }

  /** Whether the tick locks: the decremented countdown has run out. */
  function TickLocks(s: State): bool
  {
    Decremented(s).countdown <= 0
  }

  /** The state after a tick: a countdown that ran out restarts from the delay. */
  function AfterTick(s: State): State
  {
    var t := Decremented(s);
    if t.countdown <= 0 then t.(countdown := t.secondsToLock) else t
  }

  /** The tooltip text for a state: its countdown while enabled. */
  function TooltipFor(t: State): string
  {
    if t.enabled then LockInText(t.countdown) else DisabledText
  }

  /** The tooltip a tick writes, from the decremented state. */
  function TickTooltip(s: State): string
  {
    TooltipFor(Decremented(s))
  }

  function Step(s: State, e: Event): (r: StepResult)
    ensures r.next.secondsToLock == s.secondsToLock
    ensures Valid(s) ==> Valid(r.next)
    ensures r.out.tooltip.Some? <==> e.Tick?
    ensures IsActivity(e) ==> r == StepResult(s.(countdown := s.secondsToLock), Quiet)
    ensures IsInert(e) ==> r == StepResult(s, Quiet)
    ensures r.out.lock ==> e.MenuLockNow? || (e.Tick? && r.next.countdown == s.secondsToLock)
    ensures Valid(s) && !s.enabled && e.Tick? ==> !r.out.lock
  {
    match e
    case Tick => StepResult(AfterTick(s), Signal(TickLocks(s), Some(TickTooltip(s))))
    case Keyboard(k) =>
      if KeyIsActivity(k) then StepResult(s.(countdown := s.secondsToLock), Quiet)
      else StepResult(s, Quiet)
    case Mouse(m) =>
      if MouseIsActivity(m) then StepResult(s.(countdown := s.secondsToLock), Quiet)
      else StepResult(s, Quiet)
    case GamepadButton => StepResult(s.(countdown := s.secondsToLock), Quiet)
    case GamepadAxis => StepResult(s, Quiet)
    case GamepadConnect => StepResult(s.(countdown := s.secondsToLock), Quiet)
    case GamepadDisconnect => StepResult(s.(countdown := s.secondsToLock), Quiet)
    case MenuLockIn10 => StepResult(s.(enabled := true, countdown := LockSoonSeconds), Quiet)
    case MenuLockNow => StepResult(s.(enabled := true), Signal(true, None))
    case MenuEnabled(ok) =>
      if s.enabled then
        if ok then StepResult(s.(countdownDisabled := MaxDisabledSeconds, enabled := false), Quiet)
        else StepResult(s, Quiet)
      else StepResult(s.(enabled := true), Quiet)
  }

  /**
   * A tick while enabled takes exactly one second off the countdown and leaves
   * the disable countdown alone; it locks exactly when that empties the
   * countdown, which then restarts from the delay.
   */
  lemma TickWhileEnabled(s: State)
    requires Valid(s) && s.enabled
    ensures TickLocks(s) <==> s.countdown == 1
    ensures AfterTick(s) == s.(countdown := if s.countdown == 1 then s.secondsToLock else s.countdown - 1)
  {
  }

  /**
   * The tooltip a tick writes while enabled shows the decremented countdown as
   * "Lock in MM:SS", which reads back as that countdown.
   */
  lemma TickTooltipWhileEnabled(s: State)
    requires Valid(s) && s.enabled
    ensures TickTooltip(s) == LockInText(s.countdown - 1)
    ensures ParseLockIn(TickTooltip(s)) == Some(s.countdown - 1)
  {
    var c := s.countdown - 1;
    assert Decremented(s) == s.(countdown := c) by {
      assert Wrap(c) == c;
    }
    assert TooltipFor(s.(countdown := c)) == LockInText(c);
    LockInRoundTrip(c);
  }

  /**
   * A tick while disabled leaves the countdown alone, takes one second off the
   * disable countdown and switches locking back on when that reaches 0. It
   * never locks; the tooltip says "Lockdown Disabled" unless locking just came
   * back on.
   */
  lemma TickWhileDisabled(s: State)
    requires Valid(s) && !s.enabled
    ensures !TickLocks(s)
    ensures AfterTick(s) == s.(countdownDisabled := s.countdownDisabled - 1, enabled := s.countdownDisabled == 1)
    ensures TickTooltip(s) == if s.countdownDisabled == 1 then LockInText(s.countdown) else DisabledText
  {
  }

  /**
   * The tray menu. "Lock in 10 seconds" switches locking on with a 10-second
   * countdown; "Lock now" switches it on and locks, keeping the countdown.
   * Toggling "Enabled" off needs the confirmation: confirmed, it starts the
   * three-hour disable; cancelled, nothing changes. Toggling it back on touches
   * neither countdown.
   */
  lemma MenuTransitions(s: State)
    ensures Step(s, MenuLockIn10) == StepResult(s.(enabled := true, countdown := LockSoonSeconds), Quiet)
    ensures Step(s, MenuLockNow) == StepResult(s.(enabled := true), Signal(true, None))
    ensures s.enabled ==> Step(s, MenuEnabled(true)).next == State(false, s.countdown, MaxDisabledSeconds, s.secondsToLock)
    ensures s.enabled ==> Step(s, MenuEnabled(false)).next == s
    ensures !s.enabled ==> forall ok :: Step(s, MenuEnabled(ok)).next == s.(enabled := true)
    ensures forall ok :: Step(s, MenuEnabled(ok)).out == Quiet
  {
  }

  /** The state after `k` ticks with no other event. */
  function TickN(s: State, k: nat): State
    decreases k
  {
    if k == 0 then s else TickN(AfterTick(s), k - 1)
  }

  /** `k + 1` ticks are `k` ticks and then one more. */
  lemma {:induction false} TickNSucc(s: State, k: nat)
    ensures TickN(s, k + 1) == AfterTick(TickN(s, k))
    decreases k
  {
    if k > 0 {
      TickNSucc(AfterTick(s), k - 1);
    }
  }

  /** While enabled and idle, each tick before the countdown runs out takes one second off it. */
  lemma {:induction false} IdleTicks(s: State, i: nat)
    requires Valid(s) && s.enabled && i < s.countdown
    ensures TickN(s, i) == s.(countdown := s.countdown - i)
    decreases i
  {
    if i > 0 {
      TickWhileEnabled(s);
      IdleTicks(AfterTick(s), i - 1);
    }
  }

  /** The `i`-th idle tick of an enabled machine locks exactly when it is the one that empties the countdown. */
  lemma IdleTickAt(s: State, i: nat)
    requires Valid(s) && s.enabled && i < s.countdown
    ensures TickLocks(TickN(s, i)) <==> i == s.countdown - 1
    ensures i == s.countdown - 1 ==> AfterTick(TickN(s, i)) == s.(countdown := s.secondsToLock)
  {
    var t := s.(countdown := s.countdown - i);
    assert TickN(s, i) == t by {
      IdleTicks(s, i);
    }
    TickWhileEnabled(t);
  }

  /** No idle tick before the one that empties the countdown locks. */
  lemma IdleNoEarlyLock(s: State)
    requires Valid(s) && s.enabled
    ensures forall i: nat :: i < s.countdown - 1 ==> !TickLocks(TickN(s, i))
  {
    forall i: nat | i < s.countdown - 1
      ensures !TickLocks(TickN(s, i))
    {
      IdleTickAt(s, i);
    }
  }

  /**
   * With no activity, an enabled machine locks on the tick that empties the
   * countdown (and, by `IdleNoEarlyLock`, not before); the lock restarts the
   * countdown from the full delay.
   */
  lemma IdleLocksAfterCountdown(s: State)
    requires Valid(s) && s.enabled
    ensures TickLocks(TickN(s, s.countdown - 1))
    ensures AfterTick(TickN(s, s.countdown - 1)) == s.(countdown := s.secondsToLock)
  {
    IdleTickAt(s, s.countdown - 1);
  }

  /** While disabled and left alone, each tick before expiry takes one second off the disable countdown. */
  lemma {:induction false} DisabledTicks(s: State, i: nat)
    requires Valid(s) && !s.enabled && i < s.countdownDisabled
    ensures TickN(s, i) == s.(countdownDisabled := s.countdownDisabled - i)
    decreases i
  {
    if i > 0 {
      TickWhileDisabled(s);
      DisabledTicks(AfterTick(s), i - 1);
    }
  }

  /**
   * A confirmed disable lasts exactly three hours of ticks: before that,
   * locking stays off and no tick locks; on the last tick locking is back on,
   * with the countdown as it was when disabled.
   */
  lemma DisableExpiresAfterMax(s: State)
    requires Valid(s) && s.enabled
    ensures var d := Step(s, MenuEnabled(true)).next;
      && (forall i: nat :: i < MaxDisabledSeconds ==> !TickN(d, i).enabled && !TickLocks(TickN(d, i)))
      && TickN(d, MaxDisabledSeconds) == s.(countdownDisabled := 0)
  {
    var d := Step(s, MenuEnabled(true)).next;
    assert d == State(false, s.countdown, MaxDisabledSeconds, s.secondsToLock);
    forall i: nat | i < MaxDisabledSeconds
      ensures !TickN(d, i).enabled && !TickLocks(TickN(d, i))
    {
      DisabledTicks(d, i);
      TickWhileDisabled(TickN(d, i));
    }
    DisabledTicks(d, MaxDisabledSeconds - 1);
    TickWhileDisabled(TickN(d, MaxDisabledSeconds - 1));
    TickNSucc(d, MaxDisabledSeconds - 1);
  }

  /** The tray-menu commands; every other event is a tick, activity or ignored. */
  predicate IsMenu(e: Event) {
    e.MenuLockIn10? || e.MenuLockNow? || e.MenuEnabled?
  }

  /** The number of timer ticks in a sequence of events. */
  function TickCount(es: seq<Event>): nat
    decreases |es|
  {
    if |es| == 0 then 0 else (if es[0].Tick? then 1 else 0) + TickCount(es[1..])
  }

  /**
   * While locking is off, key, mouse and gamepad events do not touch the
   * disable: with no menu command and fewer ticks than the disable has left,
   * locking stays off, each tick takes one second off the disable countdown,
   * and nothing locks.
   */
  lemma {:induction false} DisabledRunWithoutMenu(s: State, es: seq<Event>)
    requires Valid(s) && !s.enabled
    requires forall i :: 0 <= i < |es| ==> !IsMenu(es[i])
    requires TickCount(es) < s.countdownDisabled
    ensures var t := Run(s, es);
      && Valid(t) && !t.enabled && t.secondsToLock == s.secondsToLock
      && t.countdownDisabled == s.countdownDisabled - TickCount(es)
    ensures forall i :: 0 <= i < |es| ==> !Outputs(s, es)[i].lock
    decreases |es|
  {
    if |es| > 0 {
      var e, r := es[0], Step(s, es[0]);
      assert !IsMenu(e);
      assert !r.out.lock && Valid(r.next) && !r.next.enabled
        && r.next.countdownDisabled == s.countdownDisabled - (if e.Tick? then 1 else 0) by {
        if e.Tick? {
          TickWhileDisabled(s);
        }
      }
      DisabledRunWithoutMenu(r.next, es[1..]);
      assert Outputs(s, es) == [r.out] + Outputs(r.next, es[1..]);
    }
  }

  /**
   * A confirmed disable expires on the three-hour tick whatever key, mouse and
   * gamepad events come in between, as long as no menu command does: after
   * events holding one tick fewer, locking is still off and nothing has
   * locked; the next tick switches locking back on without locking.
   */
  lemma DisableExpiresDespiteActivity(s: State, es: seq<Event>)
    requires Valid(s) && s.enabled
    requires forall i :: 0 <= i < |es| ==> !IsMenu(es[i])
    requires TickCount(es) == MaxDisabledSeconds - 1
    ensures var d := Step(s, MenuEnabled(true)).next;
      var t := Run(d, es);
      && !t.enabled
      && (forall i :: 0 <= i < |es| ==> !Outputs(d, es)[i].lock)
      && Step(t, Tick).next.enabled
      && !Step(t, Tick).out.lock
  {
    var d := Step(s, MenuEnabled(true)).next;
    ConfirmedDisable(s);
    DisabledRunWithoutMenu(d, es);
    LastDisabledTick(Run(d, es));
  }

  /** Confirming "disable" switches locking off with the full three hours to run. */
  lemma ConfirmedDisable(s: State)
    requires Valid(s) && s.enabled
    ensures var d := Step(s, MenuEnabled(true)).next;
      Valid(d) && !d.enabled && d.countdownDisabled == MaxDisabledSeconds
  {
  }

  /** The tick that uses up the disable switches locking back on and does not lock. */
  lemma LastDisabledTick(t: State)
    requires Valid(t) && !t.enabled && t.countdownDisabled == 1
    ensures Step(t, Tick).next.enabled && !Step(t, Tick).out.lock
  {
    TickWhileDisabled(t);
  }

  /**
   * How many of the first `k` idle ticks from `s` lock the workstation: the
   * `i`-th tick starts from `TickN(s, i)` and locks when `TickLocks` of that
   * state holds, which is the lock signal `Step` emits for it.
   */
  function IdleLockCount(s: State, k: nat): nat
    decreases k
  {
    if k == 0 then 0
    else IdleLockCount(s, k - 1) + if TickLocks(TickN(s, k - 1)) then 1 else 0
  }

  /** One more idle tick: its lock signal is what `IdleLockCount` adds, and it steps `TickN` on by one. */
  lemma IdleTickCounted(s: State, i: nat)
    requires Valid(TickN(s, i)) && TickN(s, i).enabled
    ensures var last := TickN(s, i);
      && Step(last, Tick).out.lock == TickLocks(last)
      && Step(last, Tick).next == TickN(s, i + 1)
      && IdleLockCount(s, i + 1) == IdleLockCount(s, i) + (if TickLocks(last) then 1 else 0)
      && (TickLocks(last) <==> last.countdown == 1)
      && TickN(s, i + 1) == last.(countdown := if last.countdown == 1 then last.secondsToLock else last.countdown - 1)
  {
    var last := TickN(s, i);
    TickWhileEnabled(last);
    TickNSucc(s, i);
  }

  /**
   * Counts the locks `k` idle ticks produce from an enabled state: the first on
   * the tick that empties the countdown, then one every full delay. Counting
   * from a virtual lock `delay - countdown` seconds before the start, the
   * `k` ticks plus that lead are `locks` full delays followed by the seconds
   * since the last lock, which are fewer than a delay: `locks` and the
   * leftover are the quotient and remainder of that division.
   */
  method CountIdleLocks(s: State, k: nat) returns (locks: nat, last: State)
    requires Valid(s) && s.enabled
    ensures locks == IdleLockCount(s, k)
    ensures last == TickN(s, k)
    ensures last.enabled && Valid(last)
    ensures k + (s.secondsToLock - s.countdown)
         == locks * s.secondsToLock + (s.secondsToLock - last.countdown)
  {
    var period, start := s.secondsToLock, s.countdown;
    locks, last := 0, s;
    var i := 0;
    ghost var locked := 0;  // the seconds of the `locks` full delays
    while i < k
      invariant 0 <= i <= k
      invariant last == TickN(s, i)
      invariant locks == IdleLockCount(s, i)
      invariant Valid(last) && last.enabled && last.secondsToLock == period
      invariant locked == locks * period
      invariant i + (period - start) == locked + (period - last.countdown)
    {
      var r := Step(last, Tick);
      IdleTickCounted(s, i);
      if r.out.lock {
        MulSucc(locks, period);
        locks, locked := locks + 1, locked + period;
      }
      last := r.next;
      i := i + 1;
    }
  }

  lemma MulSucc(a: int, b: int)
    ensures (a + 1) * b == a * b + b
  {
  }

  /**
   * End to end from the command line: a number of minutes that fits gives an
   * enabled machine whose countdown and delay are that many minutes, with the
   * full three-hour disable allowance; an empty command line gives twenty.
   */
  lemma StartupFromCommandLine(n: nat)
    requires 0 < n <= MaxMinutes
    ensures Parse(Digits(n)) == Some(Minutes(n))
    ensures Startup(Minutes(n)).next == State(true, n * 60, MaxDisabledSeconds, n * 60)
    ensures Parse("") == Some(NoArgument)
    ensures Startup(NoArgument).next == State(true, 20 * 60, MaxDisabledSeconds, 20 * 60)
  {
    assert Parse(Digits(n)) == Some(Minutes(n)) by {
      assert Digits(n) + "" == Digits(n);
      ParseOfNumber(n, "");
    }
  }

  /** The state after a sequence of events. */
  function Run(s: State, es: seq<Event>): State
    decreases |es|
  {
    if |es| == 0 then s else Run(Step(s, es[0]).next, es[1..])
  }

  /** The signals a sequence of events emits, one per event. */
  function Outputs(s: State, es: seq<Event>): (outs: seq<Signal>)
    ensures |outs| == |es|
    decreases |es|
  {
    if |es| == 0 then [] else [Step(s, es[0]).out] + Outputs(Step(s, es[0]).next, es[1..])
  }

  /** Every state reachable from start-up satisfies the invariant and keeps the configured delay. */
  lemma {:induction false} RunKeepsValid(s: State, es: seq<Event>)
    requires Valid(s)
    ensures Valid(Run(s, es)) && Run(s, es).secondsToLock == s.secondsToLock
    decreases |es|
  {
    if |es| > 0 {
      RunKeepsValid(Step(s, es[0]).next, es[1..]);
    }
  }

  /**
   * The overflow in the start-up code: asking for one minute more than fits gives a
   * negative delay, and the machine then locks on every tick, returning to the
   * same state each time.
   */
  lemma AsWrittenOverflowLocksEveryTick()
    ensures var s := StartupAsWritten(Minutes(MaxMinutes + 1)).next;
      && s.secondsToLock < 0
      && Step(s, Tick).out.lock
      && Step(s, Tick).next == s
  {
    AsWrittenOverflows();
    var s := StartupAsWritten(Minutes(MaxMinutes + 1)).next;
    assert Wrap(s.countdown - 1) == s.countdown - 1;
  }

}
