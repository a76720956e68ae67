/**
 * The user-activity messages the low-level keyboard and mouse hooks receive,
 * and the signals one step of the countdown machine emits. Both program
 * versions classify keyboard and mouse messages identically.
 */
module Input {
  import opened Wrappers

  /** The countdown the "Lock in 10 seconds" tray menu item sets, in both versions. */
  const LockSoonSeconds: int := 10

  /** The message kinds a low-level keyboard hook is called with. */
  datatype KeyMsg = KeyDown | KeyUp | SysKeyDown | SysKeyUp

  /** The message kinds a low-level mouse hook is called with. */
  datatype MouseMsg =
    | LButtonDown | LButtonUp | RButtonDown | RButtonUp
    | MButtonDown | MButtonUp | XButtonDown | XButtonUp
    | MouseWheel | MouseHWheel | MouseMove | NcMouseMove

  /** Only a plain key press counts as activity; releases and Alt-chords do not. */
  predicate KeyIsActivity(k: KeyMsg) {
    k == KeyDown
  }

  /** Left and right buttons, pressed or released, and the vertical wheel. */
  predicate MouseIsActivity(m: MouseMsg) {
    m in {LButtonDown, LButtonUp, RButtonDown, RButtonUp, MouseWheel}
  }

  /**
   * What one step tells the outside world: whether the workstation is locked
   * now, and the new tooltip text when the step rewrote it.
   */
  datatype Signal = Signal(lock: bool, tooltip: Option<string>)

  const Quiet: Signal := Signal(false, None)

}
