# Lockdown idle-lock countdown, modelled in Dafny

Lockdown is a Windows system-tray utility that locks the workstation after a
period without user activity. Its core is a small countdown machine driven
by the window procedure and the input hooks:

- a one-second timer decrements `CountdownSeconds`;
- key presses, mouse button presses and releases, the mouse wheel and (in the
  current release) gamepad buttons and controller hot-plugging reset it to
  `SecondsToLock`;
- when the countdown runs out the workstation is locked and the countdown
  restarts;
- the tray menu offers "Lock in 10 seconds" and "Lock now". In the current
  release it also has an "Enabled" toggle, which switches auto-locking off for
  at most three hours (`MaxDisabledSeconds`) once the user confirms.

The delay comes from an optional command-line number of minutes, read with
`atoi`. The default is 20 minutes. The tray tooltip shows "Lock in MM:SS", or
"Lockdown Disabled" while auto-locking is off.

The model lifts this machine out of the Win32 message handling. Each release
becomes an immutable `State` plus an `Event` type, with a pure
`Step(state, event)`. `Step` returns the next state and a `Signal`: whether to
lock now, and the new tooltip text when the step rewrote it. Each release also
has a `Startup` function that builds the first state from the command-line
argument.

- `lockdown.dfy` (module `Lockdown`): the current release, `Src/Lockdown.cpp`.
- `lockdown_v1.dfy` (module `LockdownV1`): the first release (1.0.1), `Lockdown.cpp`.
- `refinement.dfy`: proves that the current release, while enabled, behaves
  exactly like the first release on every event sequence the first release
  knows.
- `commandline.dfy`, `clib.dfy`: the command-line argument, `atoi` (section
  7.22.1.2 of the C11 standard), and the delay computed from it.
- `tooltip.dfy`, `decimal.dfy`: the `"Lock in %02d:%02d"` text and a parser
  that reads it back.
- `cint.dfy`: 32-bit `int` wrap-around, and C's truncating `/` and `%`
  (section 6.5.5 of the C11 standard).
- `input.dfy`: keyboard and mouse hook messages and the output signal.
- `wrappers.dfy`: an `Option` type.

Inputs from outside the program become explicit parameters or events:

- timer messages, hook calls and gamepad callbacks are `Event`s;
- the answer to the "Disable Lockdown?" confirmation box is the `confirmed`
  field of `MenuEnabled`;
- the command line is a string parameter.

The lock itself (`LockWorkStation`) and the tooltip update are the `Signal`
a step emits.

## Model

| member | source | states |
|---|---|---|
| CInt.Wrap | Src/Lockdown.cpp:351 | The result of an `int` computation after two's-complement wrap-around: always representable, congruent to the exact value modulo 2^32, and equal to it whenever that fits. |
| CInt.Div | Src/Lockdown.cpp:103 | C's `/` by a positive divisor truncates toward zero: for a non-negative dividend it is Dafny's `/`, and the dividend minus quotient times divisor is smaller than the divisor in magnitude, with the dividend's sign. |
| CInt.Rem | Src/Lockdown.cpp:103-104 | C's `%` by a positive divisor: quotient times divisor plus remainder gives back the dividend, the remainder is smaller than the divisor in magnitude and has the dividend's sign, and for a non-negative dividend it is Dafny's `%`. |
| Decimal.ZeroPad2 | Src/Lockdown.cpp:109 | `%02d` writes at least two characters, exactly two for 0..99, and digits that read back as the number. Width 2 is only a minimum: from 10 on there is no leading zero. A negative number gets a minus sign, then its digits with no leading zero. |
| CLib.Atoi | Src/Lockdown.cpp:348 | After leading white space and an optional sign, the magnitude of the result is the value of the longest run of digits (0 if there is none). The result is negative only after a minus sign and never positive after one. |
| CLib.AtoiOfUnsigned | Src/Lockdown.cpp:348 | `atoi` of text starting with a digit is the value of its leading run of digits. |
| CLib.AtoiOfMinus | Src/Lockdown.cpp:348 | `atoi` of a minus sign followed by any text is the negated value of the digit run after the sign. |
| CLib.AtoiOfDigits | Src/Lockdown.cpp:348 | `atoi` of a decimal rendering, followed by any text not starting with a digit, is that number. |
| CLib.AtoiOfNegative | Src/Lockdown.cpp:348 | `atoi` of a minus sign and a decimal rendering is the negated number. |
| CLib.AtoiSkipsSpace | Src/Lockdown.cpp:348 | `atoi` ignores leading white space. |
| CLib.AtoiOfNonNumber | Src/Lockdown.cpp:348 | `atoi` of text starting with something other than white space, a sign or a digit is 0. |
| CommandLine.Parse | Src/Lockdown.cpp:346-348 | An empty command line gives no argument. Any other text gives atoi's value when that fits an `int`, and nothing (undefined behaviour in C) otherwise. |
| CommandLine.ParseOfNumber | Src/Lockdown.cpp:346-348 | A command line holding a representable number of minutes is read as exactly that number. |
| CommandLine.SecondsToLockAsWritten | Src/Lockdown.cpp:349-352 | The delay as written: for a positive argument, the `int` congruent to `numMins * 60` modulo 2^32, which is the product itself up to 35791394 minutes. Otherwise it is 20 minutes. |
| CommandLine.SecondsToLock | Src/Lockdown.cpp:345-353 | The corrected delay: always a positive whole number of minutes that fits an `int`. It is the requested minutes when those are positive and representable, and 20 minutes otherwise. |
| CommandLine.AsWrittenAgreesWhenRepresentable | Lockdown.cpp:199-208 | On every argument whose seconds fit an `int`, the as-written and corrected delays are equal. |
| CommandLine.AsWrittenOverflows | Src/Lockdown.cpp:351 | 35791395 minutes gives the delay -2147483596 as written, but the 20-minute default when corrected. 71582789 minutes gives 44 seconds, and 2^30 minutes gives 0. |
| Tooltip.LockInRoundTrip | Src/Lockdown.cpp:103-109 | This is the contract of `LockInText`, the `sprintf("Lock in %02d:%02d", mins, secs)` of both releases. For a non-negative countdown the tooltip starts "Lock in " and ends in ":SS". SS is two digits equal to the countdown mod 60, in [0,59]. The minutes and seconds read back to exactly the countdown. |
| Tooltip.DisabledIsNoCountdown | Src/Lockdown.cpp:106-111 | "Lockdown Disabled" never reads as a countdown and is never the text of one. |
| LockdownV1.Startup | Lockdown.cpp:199-208 | Start-up gives a state satisfying the invariant with the countdown full at the configured delay. No lock is emitted. The first tooltip reads back as that countdown. |
| LockdownV1.Step | Lockdown.cpp:66-191 | Every step keeps the delay and the invariant (delay in [10, INT_MAX], countdown in [1, delay]). Only ticks write the tooltip. A step locks exactly on "Lock now", or on a tick whose decrement empties the countdown. Key-down, L/R button and wheel events reset the countdown and change nothing else. Every other key or mouse message changes nothing. |
| LockdownV1.TickIs | Lockdown.cpp:71-85 | On any state, a tick takes the wrapped countdown - 1, restarts from the delay when that is not positive, and locks exactly then. The tooltip is the decremented countdown's text. |
| LockdownV1.TickUnderInvariant | Lockdown.cpp:71-85 | Under the invariant a tick takes exactly one second off. It locks exactly when the countdown was 1, and the countdown then restarts from the delay. The tooltip reads back as the decremented countdown. |
| LockdownV1.MenuCommands | Lockdown.cpp:149-155 | "Lock in 10 seconds" sets the countdown to 10 and nothing else. "Lock now" locks and changes nothing. |
| LockdownV1.RunKeepsValid | Lockdown.cpp:66-191 | Every state reachable by any event sequence from a valid state is valid and keeps its delay. |
| Lockdown.Startup | Src/Lockdown.cpp:345-354 | Start-up gives an enabled state satisfying the invariant, with the countdown full at the configured delay. No lock is emitted, and the first tooltip reads back as that countdown. |
| Lockdown.StartupFromCommandLine | Src/Lockdown.cpp:345-353 | A command line holding n minutes, with n*60 representable, starts an enabled machine whose countdown and delay are n*60, with the full three-hour disable allowance. An empty command line starts it at 20 minutes. |
| Lockdown.StartupAsWritten | Src/Lockdown.cpp:345-354 | Start-up with the as-written delay: enabled, with the countdown equal to that delay. |
| Lockdown.Step | Src/Lockdown.cpp:87-333 | Every step keeps the delay and the invariant. Only ticks write the tooltip. Activity resets the countdown and changes nothing else, enabled flag included; activity is key-down, L/R button, wheel, gamepad button, connect and disconnect. Mouse moves, other keys and buttons, and gamepad axes change nothing. Apart from "Lock now", only a tick locks, and that tick restarts the countdown. A tick while disabled never locks. |
| Lockdown.TickWhileEnabled | Src/Lockdown.cpp:92-95 | An enabled tick takes exactly one second off the countdown and leaves the disable countdown alone. It locks exactly when the countdown was 1, and the countdown then restarts from the delay. |
| Lockdown.TickTooltipWhileEnabled | Src/Lockdown.cpp:103-109 | An enabled tick writes "Lock in MM:SS" for the decremented countdown, and the text reads back as that countdown. |
| Lockdown.TickWhileDisabled | Src/Lockdown.cpp:96-119 | A disabled tick leaves the countdown alone and takes one second off the disable countdown. It re-enables exactly when the disable countdown reaches 0, and never locks. It writes "Lockdown Disabled" unless it re-enabled. |
| Lockdown.MenuTransitions | Src/Lockdown.cpp:202-234 | "Lock in 10" enables with a 10-second countdown. "Lock now" enables and locks without touching the countdown. A confirmed disable sets the disable countdown to three hours; a cancelled one changes nothing. Re-enabling touches neither counter. No menu command writes the tooltip. |
| Lockdown.IdleTicks | Src/Lockdown.cpp:92-95 | While enabled and idle, i ticks before the countdown runs out leave exactly countdown - i. |
| Lockdown.IdleTickAt | Src/Lockdown.cpp:92-119 | For an enabled idle machine, the i-th tick (i below the countdown) locks if and only if it is the tick that empties the countdown. That tick restarts the countdown from the full delay. |
| Lockdown.IdleNoEarlyLock | Src/Lockdown.cpp:92-119 | With no activity, an enabled machine does not lock on any of the first countdown - 1 ticks. |
| Lockdown.IdleLocksAfterCountdown | Src/Lockdown.cpp:92-119 | With no activity, an enabled machine locks on the tick that empties the countdown and restarts from the full delay. |
| Lockdown.DisabledTicks | Src/Lockdown.cpp:96-101 | While disabled and idle, i ticks before expiry leave exactly disable countdown - i, with everything else unchanged. |
| Lockdown.DisableExpiresAfterMax | Src/Lockdown.cpp:207-229 | After a confirmed disable, each of the first 3*60*60 ticks finds locking still off and does not lock. After exactly 3*60*60 ticks locking is back on, with the countdown as it was when disabled. |
| Lockdown.ConfirmedDisable | Src/Lockdown.cpp:207-223 | Confirming the disable switches locking off with the full three hours to run, keeping the invariant. |
| Lockdown.LastDisabledTick | Src/Lockdown.cpp:96-101 | The tick that uses up the disable switches locking back on and does not lock. |
| Lockdown.DisabledRunWithoutMenu | Src/Lockdown.cpp:250-333 | While locking is off, key, mouse and gamepad events leave the disable alone. With no menu command and fewer ticks than the disable has left, locking stays off, the disable countdown drops by exactly the number of ticks, and no event locks. |
| Lockdown.DisableExpiresDespiteActivity | Src/Lockdown.cpp:87-333 | After a confirmed disable, any mix of key, mouse and gamepad events with no menu command and 3*60*60 - 1 ticks leaves locking off and never locks. The next tick switches locking back on without locking. |
| Lockdown.CountIdleLocks | Src/Lockdown.cpp:92-119 | Stepping the machine k idle ticks from an enabled state, `locks` is the number of those ticks whose lock signal is set (`IdleLockCount`). That count is also the quotient: with the lead (delay - countdown) added, k is `locks` whole delays plus the seconds since the last lock, fewer than one delay. The final state is the k-tick state, still enabled and valid. |
| Lockdown.IdleTickCounted | Src/Lockdown.cpp:92-119 | One more idle tick: its lock signal is the tick's `TickLocks`, set exactly when the countdown was 1. The count of locking ticks grows by that signal, and the state moves on to the next `TickN` state. |
| Lockdown.RunKeepsValid | Src/Lockdown.cpp:44-48 | Every state reachable by any event sequence from a valid state is valid and keeps its delay. |
| Lockdown.AsWrittenOverflowLocksEveryTick | Src/Lockdown.cpp:351-352 | With the as-written delay for 35791395 minutes, the delay is negative. Each tick then locks and returns to the same state, so the machine locks every second. |
| Refinement.StartupMatchesV1 | Src/Lockdown.cpp:345-354 | Both releases start with the same countdown and delay and show the same first tooltip. The current release starts enabled. |
| Refinement.EnabledTickMatchesV1 | Src/Lockdown.cpp:92-119 | An enabled tick gives the first release's tick exactly: the same countdown, delay, lock decision and tooltip. The state stays enabled and the disable countdown is untouched. |
| Refinement.EnabledTickIs | Src/Lockdown.cpp:92-119 | An enabled tick of the current release takes the wrapped countdown - 1, restarts from the delay when that is not positive, and locks exactly then. It shows the decremented countdown's text and touches nothing else. |
| Refinement.EnabledStepMatchesV1 | Src/Lockdown.cpp:92-95 | On an enabled state, each first-release event gives the same signal and the same countdown and delay as in the first release. The state stays enabled and the disable countdown is untouched. |
| Refinement.EnabledRunMatchesV1 | Src/Lockdown.cpp:87-292 | From an enabled state, any sequence of first-release events gives the first release's final state and exactly its signals, in order, and stays enabled. |

## Left out

- Window class and window creation, tray-icon registration and re-registration, `MessageBox` dialogs, hook installation, the message loop and the single-instance check are Win32 plumbing. They appear only as events and signals.
- The "About" and "Quit" menu items only show a message box or destroy the window. They do not touch the countdown.
- The timer case falls through into the tray-icon case (Src/Lockdown.cpp:120-122, Lockdown.cpp:86-88). That only opens the menu on tray clicks, which is UI.
- The tooltip is only written to the tray when the icon was added. The model emits the text on every tick regardless, because icon registration is not modelled.
- The gamepad library is not part of this model: polling, hot-plug and the binding load/save/copy. Only its header is available, and it has no bodies. Its callbacks are modelled as atomic events interleaved with the others.
- The gamepad callbacks write `CountdownSeconds` from another thread without synchronisation (Src/Lockdown.cpp:304, 323, 331). This is a concurrency concern, outside a sequential model.
- `sprintf` into the fixed tooltip buffer, `tPrintf` debug logging, and the handle passed to `CallNextHookEx` are not modelled, because none of them affects the countdown.
- CommandLine.Parse: command-line text whose value does not fit an `int` is undefined behaviour for `atoi`, so it maps to no argument rather than to a particular value.

## Findings

| source | as written | input that shows it | evidently intended | confidence | as-written member | corrected member |
|---|---|---|---|---|---|---|
| Src/Lockdown.cpp:351 | `SecondsToLock = numMins * 60` in 32-bit `int`; Lockdown.cpp:205 does the same | Command line "35791395": the product 2147483700 overflows and wraps to -2147483596, and Lockdown.AsWrittenOverflowLocksEveryTick then locks on every tick. "71582789" wraps to a 44-second delay, and "1073741824" to 0. | Use a positive number of minutes only when its seconds fit an `int`. Otherwise keep the 20-minute default, as for a non-positive value. | not executed; signed overflow is undefined behaviour in C, and the wrapped result assumes the usual two's-complement code | CommandLine.SecondsToLockAsWritten | CommandLine.SecondsToLock |
