/**
 * The current release extends the first one without changing it: as long as
 * locking stays enabled, the current machine answers every event the first
 * release knows exactly as the first release does, signal for signal, and
 * both start up identically.
 */
module Refinement {
  import opened Input
  import opened CommandLine
  import V1 = LockdownV1
  import Lockdown
  import CInt
  import Tooltip
  import opened Wrappers

  /** The part of the current state the first release also has. */
  function Project(s: Lockdown.State): V1.State
  {
    V1.State(s.countdown, s.secondsToLock)
  }

  /** A first-release event as the current release receives it. */
  function Lift(e: V1.Event): Lockdown.Event
  {
    match e
    case Tick => Lockdown.Tick
    case Keyboard(k) => Lockdown.Keyboard(k)
    case Mouse(m) => Lockdown.Mouse(m)
    case MenuLockIn10 => Lockdown.MenuLockIn10
    case MenuLockNow => Lockdown.MenuLockNow
  }

  function LiftAll(es: seq<V1.Event>): (r: seq<Lockdown.Event>)
    ensures |r| == |es|
    ensures forall i :: 0 <= i < |es| ==> r[i] == Lift(es[i])
  {
    seq(|es|, i requires 0 <= i < |es| => Lift(es[i]))
  }

  /** Both releases start from the same countdown and show the same first tooltip. */
  lemma StartupMatchesV1(a: Argument)
    ensures Project(Lockdown.Startup(a).next) == V1.Startup(a).next
    ensures Lockdown.Startup(a).out == V1.Startup(a).out
    ensures Lockdown.Startup(a).next.enabled
  {
  }

  /**
   * One step: while enabled, the current release emits the same signal as the
   * first release, reaches the state the first release reaches, stays enabled
   * and leaves the disable countdown alone.
   */
  lemma EnabledStepMatchesV1(s: Lockdown.State, e: V1.Event)
    requires s.enabled
    ensures var r := Lockdown.Step(s, Lift(e));
      && r.next.enabled
      && r.next.countdownDisabled == s.countdownDisabled
      && Project(r.next) == V1.Step(Project(s), e).next
      && r.out == V1.Step(Project(s), e).out
  {
    if e.Tick? {
      EnabledTickMatchesV1(s);
    }
  }

  /** The tick case: both releases decrement the same countdown the same way. */
  lemma EnabledTickMatchesV1(s: Lockdown.State)
    requires s.enabled
    ensures var r := Lockdown.Step(s, Lockdown.Tick);
      && r.next.enabled
      && r.next.countdownDisabled == s.countdownDisabled
      && Project(r.next) == V1.Step(Project(s), V1.Tick).next
      && r.out == V1.Step(Project(s), V1.Tick).out
  {
    EnabledTickIs(s);
    V1.TickIs(Project(s));
  }

  /** An enabled tick of the current release, written out. */
  lemma EnabledTickIs(s: Lockdown.State)
    requires s.enabled
    ensures var c := CInt.Wrap(s.countdown - 1);
      var r := Lockdown.Step(s, Lockdown.Tick);
      && r.next == s.(countdown := if c <= 0 then s.secondsToLock else c)
      && r.out == Signal(c <= 0, Some(Tooltip.LockInText(c)))
  {
    var c := CInt.Wrap(s.countdown - 1);
    assert Lockdown.Decremented(s) == s.(countdown := c);
  }

  /** Any run of first-release events: same final state and the same signals, in order. */
  lemma {:induction false} EnabledRunMatchesV1(s: Lockdown.State, es: seq<V1.Event>)
    requires s.enabled
    ensures Lockdown.Run(s, LiftAll(es)).enabled
    ensures Project(Lockdown.Run(s, LiftAll(es))) == V1.Run(Project(s), es)
    ensures Lockdown.Outputs(s, LiftAll(es)) == V1.Outputs(Project(s), es)
    decreases |es|
  {
    if |es| > 0 {
      var les := LiftAll(es);
      assert les[1..] == LiftAll(es[1..]);
      EnabledStepMatchesV1(s, es[0]);
      EnabledRunMatchesV1(Lockdown.Step(s, les[0]).next, es[1..]);
    }
  }

}
