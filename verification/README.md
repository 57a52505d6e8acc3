# Smart door controller — a Dafny model

This project models the decision logic of an ESP32 smart-door firmware and proves properties of it.

The main model is the access-control arbiter of `src/main.cpp`. It is a single polling loop over one block of global state:
- the typed password buffer and the security mode (normal, or two-factor);
- the two-factor flags and timer;
- the wrong-password and wrong-fingerprint counters, with their two locks;
- the overheat and fan flags, the door flag with its LED, the darkness lamp;
- the sound-triggered "guest" light window;
- an append-only audit log.

One iteration of `loop()` is the pure function `Arbiter.Step(state, event, now)`. Its handlers run in the firmware's order:
1. sensor read;
2. overheat protection;
3. automation (lamp, fan, sound window);
4. keypad;
5. fingerprint reader;
6. display timers (door auto-lock, lockout countdown).

The events are:
- a key (`0`–`9`, `A` mode, `B` info, `C` clear, `D` change password, `*`, `#`);
- a fingerprint match with its ID, a fingerprint miss, or no finger;
- a sensor sample (temperature or a failed read, and the light level);
- a sound;
- a plain tick.

Two smaller firmware variants are modelled beside it:
- `main2.cpp` (module `PinDoor`): one master password, a fingerprint lock after three mismatches that only the password lifts, and a 5 s door.
- `main1.cpp` (modules `ConfidenceDoor` and `LcdLine`):
  - fingerprint acceptance with a confidence threshold over three attempts;
  - a failure counter that sounds the alarm and starts over at three;
  - a duplicate-scan cooldown;
  - the 500 ms timer and 100 ms door-watchdog events;
  - the 16-column LCD line padding.

Representation choices:
- Temperatures are integers in tenths of a degree: 40.0 °C is 400.
- `millis()` is an unbounded natural number. Every timestamp in a state is at most the current time (`StampsAtMost`), and traces are chronological.
- Blocking `delay`/`showMessage` pauses take no model time.

The files:
- `options.dfy`: `Option`.
- `arbiter_state.dfy`: constants of `src/main.cpp`, state, events, the invariant `Inv`.
- `arbiter_door.dfy`: door controller and display timers.
- `arbiter_safety.dfy`: sensors, overheat, automation.
- `arbiter_keypad.dfy`: keypad engine.
- `arbiter_fingerprint.dfy`: fingerprint engine.
- `arbiter.dfy`: `Step`, invariant preservation, per-step and trace properties.
- `pin_door.dfy`: `main2.cpp`.
- `confidence_door.dfy` and `lcd_line.dfy`: `main1.cpp`.

## Model

| member | source | states |
|---|---|---|
| ArbiterState.Init | src/main.cpp:152-186 | The power-up state has the default passwords "1234"/"0000", normal mode, a shut door and no lock set, and satisfies the invariant. |
| DoorControl.ResetAuthentication | src/main.cpp:766-770 | Resetting authentication forgets both verified factors and the typed buffer; nothing outside the session changes. |
| DoorControl.UnlockDoor | src/main.cpp:737-752 | Unlocking opens the door, lights the door LED and restarts the door timer at `now`, whatever state the door was in; only the door and the screen change. |
| DoorControl.UnlockRearmsTimer | src/main.cpp:739-740 | Unlocking is not idempotent: a second unlock at a different time moves the door timer. |
| DoorControl.LockDoor | src/main.cpp:754-763 | Locking shuts the door, turns its LED off and ends the session; it keeps the mode, the counters, the locks, the climate and the lamp. |
| DoorControl.SwitchSecurityMode | src/main.cpp:773-794 | 'A' flips the mode and ends the session; the counters, locks and door are untouched. |
| DoorControl.SwitchTwiceRestoresMode | src/main.cpp:773-794 | Switching twice gives back the original mode, but with the session reset. |
| DoorControl.RemainingSeconds | src/main.cpp:865-866 | With signed, truncating arithmetic, the lockout countdown is at most zero exactly when more than 29 of the 30 lockout seconds have passed. |
| DoorControl.RemainingSecondsAsWritten | src/main.cpp:865 | The countdown as the firmware computes it, in unsigned 32-bit arithmetic: it agrees with the signed countdown while the lockout lasts. |
| DoorControl.RemainingSecondsWrapsPastLockout | src/main.cpp:865-869 | Once the lockout time has passed, the unsigned countdown wraps to a positive number, while the signed countdown is at most zero. |
| DoorControl.LockoutCountdownCounterexample | src/main.cpp:865-869 | 31 s after the lock, the firmware computes 4294966 remaining seconds; the intended value is -1. |
| DoorControl.CountdownZeroWindow | src/main.cpp:865-866 | The unsigned countdown is zero exactly when the elapsed time, modulo 2^32, lies in the last second of the 30 s lockout. |
| DoorControl.DisplayTimers | src/main.cpp:797-879 | A door open for at least 5000 ms is locked. Otherwise, at most every 500 ms, the lockout screen lifts the lock and zeroes the wrong-attempt count exactly when the countdown says it has expired. The door is never unlocked here. |
| DoorControl.UpdateDisplay | src/main.cpp:797-879 | The display timers as written, with the unsigned countdown: the lock screen lifts the lock only if it refreshes while the elapsed time (modulo 2^32) is in (29000, 30000] ms, and never between 30 s and 2^32 ms after the lock. A door open for at least 5000 ms is locked; the door is never unlocked here. |
| DoorControl.UpdateDisplayIntended | src/main.cpp:863-869 | The display timers with the signed countdown: the lock screen lifts the lock at any refresh more than 29 s after the lock. |
| DoorControl.UpdateDisplayDiffersPastLockout | src/main.cpp:863-869 | A lock screen refreshed between 30 s and 2^32 ms after the lock stays locked as written but is cleared as intended. |
| Safety.ReadSensors | src/main.cpp:310-325 | A failed temperature read keeps the previous temperature. Darkness means a light level above 2500. |
| Safety.OverheatProtection | src/main.cpp:710-734 | The overheat flag after the check is set iff the temperature is at least 40 °C, or it was already set and the temperature is at least 35 °C. A trip shuts the door, turns the lamp off and runs the fan. A release returns to the welcome screen. |
| Safety.DarknessLamp | src/main.cpp:647-652 | Outside the guest window and while cool, the lamp follows darkness. During the guest window the lamp is left alone. While overheated, darkness never switches the lamp on. |
| Safety.FanControl | src/main.cpp:654-666 | The fan runs after the check iff it is at least 30 °C and the system is not overheated, or it was running and it is still at least 28 °C. |
| Safety.Automation | src/main.cpp:646-707 | A sound opens a 10 s guest window: sound LED, guest flag, and the lamp if dark, even while overheated. The window closes once 10 s have passed. The fan follows the hysteresis. The door, the session, the counters and the lock screen are untouched. |
| Keypad.NewPasswordEntry | src/main.cpp:412-442 | The new-password entry is decided by the first '#' or '*'. '#' submits exactly the digit keys typed before it, '*' cancels, and no terminator is a timeout. |
| Keypad.AcceptedChange | src/main.cpp:415-431 | A dialog entry is installed if and only if it was submitted with at least 4 digits, and then exactly the submitted digits are installed. |
| Keypad.ChangePassword | src/main.cpp:388-451 | Only a buffer equal to the admin password can change a password: the chosen one becomes the accepted entry, or nothing changes. A buffer equal to the user password is refused and cleared. Any other buffer leaves everything as it was. |
| Keypad.Star | src/main.cpp:453-473 | '*' always empties the buffer and returns to the welcome screen. A non-credential buffer also ends the session and clears the guest notice. |
| Keypad.Submit | src/main.cpp:475-533 | '#' on an empty buffer changes nothing. A wrong password counts one failure; at 3 it locks the keypad and records the lock time. A correct one under the fingerprint lock lifts that lock, zeroes both counters and opens the door. A correct one in two-factor mode only verifies the password factor. A correct one in normal mode opens the door. The buffer always ends empty. |
| Keypad.TypeDigit | src/main.cpp:535-553 | A digit is appended only while the buffer holds fewer than 10 characters; an 11th digit is dropped. |
| Keypad.TypeDigitsKeepsFirstTen | src/main.cpp:541-542 | Typing any run of digits leaves exactly the first 10 characters of old buffer plus digits. |
| Keypad.DispatchDoor | src/main.cpp:475-503 | On an unlocked, cool keypad, only '#' with a matching password moves the door, and only under the fingerprint lock or in normal mode. |
| Keypad.DispatchLockout | src/main.cpp:475-533 | On an unlocked, cool keypad, the counters and locks change only through '#'. Only a matching password lifts the fingerprint lock, and only a wrong non-empty one sets the keypad lock. |
| Keypad.DispatchSession | src/main.cpp:367-533 | The mode changes only through 'A', and the passwords only through 'D' with the admin password typed. Only '#' with a matching password verifies the password factor. |
| Keypad.LockedKey | src/main.cpp:341-358 | A key on a locked keypad touches only the lockout and the screen: it lifts the lock and zeroes the wrong-attempt count iff 30 s have passed since the lock. |
| Keypad.HandleKeypad | src/main.cpp:333-555 | While locked, a key has no authentication effect: it lifts the lock and zeroes the wrong-attempt count iff 30 s have passed. While overheated, keys are ignored. Otherwise it combines all the per-key guarantees. |
| Fingerprint.Matched | src/main.cpp:585-613 | A match zeroes the fingerprint counter. It opens the door in normal mode or with the password factor verified. Otherwise it only marks the fingerprint factor and restarts the two-factor timer. |
| Fingerprint.Mismatched | src/main.cpp:614-642 | A miss counts one fingerprint failure; the third sets the fingerprint lock. |
| Fingerprint.HandleFingerprint | src/main.cpp:558-643 | Nothing happens while the keypad is locked, the system is overheated, or the fingerprint lock is set. An expired two-factor window (more than 30 s) resets the session before any read is used. The fingerprint lock is never lifted here. |
| Arbiter.Step | src/main.cpp:1261-1282 | One loop iteration keeps every timestamp at or before `now` and only appends to the audit log. |
| Arbiter.SensePreservesInv | src/main.cpp:710-734 | The overheat check restores the temperature clauses of the invariant after any sensor read. |
| Arbiter.AutomationPreservesInv | src/main.cpp:646-707 | Automation keeps the invariant. |
| Arbiter.KeypadPreservesInv | src/main.cpp:333-555 | Every key keeps the invariant: the buffer holds at most 10 digits, passwords have at least 4 digits, and each lock is set exactly when its counter is at 3. |
| Arbiter.FingerprintPreservesInv | src/main.cpp:558-643 | The fingerprint handler keeps the invariant. |
| Arbiter.UpdateDisplayPreservesInv | src/main.cpp:797-879 | The display timers keep the invariant. |
| Arbiter.StepPreservesInv | src/main.cpp:1261-1282 | Every loop iteration keeps the invariant. |
| Arbiter.OverheatHysteresis | src/main.cpp:710-734 | After a step with a temperature sample t, the system is overheated iff t is at least 40 °C, or it was overheated and t is at least 35 °C. No other event changes the flag. An overheated system always has the door shut and the fan on. |
| Arbiter.OverheatBlocksUnlock | src/main.cpp:360-364 | While overheated, neither the keypad nor the fingerprint reader can open the door. |
| Arbiter.TwoFactorNeedsBothFactors | src/main.cpp:492-497 | In two-factor mode without the fingerprint lock, the door opens only on a fingerprint match with the password factor already verified and the window not expired. A correct password alone never opens it. |
| Arbiter.FingerAfterPasswordOpens | src/main.cpp:592-599 | In two-factor mode, a match after a verified password opens the door at `now`. |
| Arbiter.PasswordLiftsFingerprintLock | src/main.cpp:485-491 | A correct password with '#' under the fingerprint lock lifts the lock, zeroes both counters and opens the door, in either mode. |
| Arbiter.FingerprintLockNeedsPassword | src/main.cpp:485-487 | Nothing but '#' with a matching password lifts the fingerprint lock. |
| Arbiter.LockedKeypadOnlyLifts | src/main.cpp:341-358 | A key pressed while the keypad is locked leaves the session, the door and the passwords alone. It lifts the lock iff 30 s have passed. |
| Arbiter.AutoLockKeepsModeAndCounters | src/main.cpp:797-802 | A tick after the door has been open for at least 5 s shuts it and ends the session, keeping the mode, the counters and the locks. |
| Arbiter.SoundLightsLampWhenDark | src/main.cpp:671-690 | A sound in the dark lights the lamp and opens the guest window, even while overheated. |
| Arbiter.Run | src/main.cpp:1261-1282 | A chronological trace of events only ever appends to the audit log. |
| Arbiter.RunPreservesInv | src/main.cpp:1261-1282 | Every state reached by a chronological trace from a good state satisfies the invariant. |
| Arbiter.FingerprintLockPersists | src/main.cpp:562-563 | The fingerprint lock survives any trace that never presses '#'. |
| Arbiter.ReachableInv | src/main.cpp:152-186 | Every state reachable from power-up satisfies the invariant. |
| PinDoor.Init | main2.cpp:60-70 | The door starts shut, with the fingerprint lock off and the invariant holding. |
| PinDoor.OpenDoor | main2.cpp:112-130 | Opening zeroes the failure count, lifts the lock, empties the buffer and opens the door at `now`. |
| PinDoor.CloseDoor | main2.cpp:133-139 | Closing only lowers the door flag. |
| PinDoor.ProcessKey | main2.cpp:150-186 | '#' with the master password "123456" opens the door. '#' with anything else only empties the buffer, without counting. '*' empties the buffer. Every other key, letters included, is appended with no length bound. |
| PinDoor.ProcessFingerprint | main2.cpp:189-228 | While locked nothing happens. A match opens the door. No finger or an unconvertible image changes nothing. A miss counts one failure, and the third sets the lock. |
| PinDoor.CheckDoorTimeout | main2.cpp:231-235 | The door is open afterwards iff it was open for less than 5000 ms. |
| PinDoor.Step | main2.cpp:270-283 | After each loop iteration, an open door has been open for less than 5000 ms. |
| PinDoor.StepPreservesInv | main2.cpp:270-283 | The lock stays set exactly when three failures have been counted, and the count never exceeds three. |
| PinDoor.LockLiftsOnlyByPassword | main2.cpp:157-170 | From a locked state the lock is lifted iff the step presses '#' with the master password typed. While it stays locked the count does not move. |
| PinDoor.LockedIgnoresFinger | main2.cpp:277-279 | While locked, the reader is never consulted: a match and a miss lead to the same state. |
| PinDoor.OpenDoorIgnoresFinger | main2.cpp:277-279 | While the door is open, the reader is never consulted: any scan gives the same step as no finger. |
| PinDoor.WrongPasswordNotCounted | main2.cpp:160-170 | A wrong password leaves the failure count and the lock as they were and empties the buffer. |
| PinDoor.ThreeMismatchesLock | main2.cpp:212-226 | Three misses from a fresh count set the lock with the door still shut. |
| PinDoor.Run | main2.cpp:270-283 | Along a chronological trace the door timer never lies in the future. |
| PinDoor.RunPreservesInv | main2.cpp:270-283 | Every state reached by a chronological trace keeps the invariant. |
| PinDoor.LockPersistsWithoutKeys | main2.cpp:189-191 | No sequence of fingerprint scans without key presses lifts the lock. |
| ConfidenceDoor.FirstGood | main1.cpp:507-579 | The attempts' verdict is an acceptance iff some attempt hit with confidence at least 60. It accepts the ID and confidence of the first such attempt. |
| ConfidenceDoor.Authenticate | main1.cpp:499-599 | The first good hit is accepted without counting. If none, a capture failure on the last attempt rejects without counting. Anything else counts one failure, and the third sounds the alarm and resets the counter to 0. A counter below 3 stays below 3. |
| ConfidenceDoor.AuthenticateLoop | main1.cpp:507-598 | The firmware's retry loop, with early returns, computes exactly the verdict, counter and alarm of the reference definition. |
| ConfidenceDoor.Init | main1.cpp:44-51 | The door starts shut, with the alarm silent and the invariant holding. |
| ConfidenceDoor.OpenDoor | main1.cpp:445-479 | Opening zeroes the failure counter, raises both door flags and starts the door timer. |
| ConfidenceDoor.CloseDoor | main1.cpp:482-496 | Closing lowers both door flags and nothing else. |
| ConfidenceDoor.HandleAuthenticated | main1.cpp:602-658 | An ID validated less than 2000 ms ago is skipped, and so is any validation while data is being sent. Neither changes anything. Otherwise the door opens at `now` and the ID and time are remembered. |
| ConfidenceDoor.TimerEvent | main1.cpp:661-703 | Nothing happens while an authentication is in progress or within 500 ms of the last check. Otherwise the check time is recorded and the in-progress flag ends down. The door moves only on an accepted authentication. The counter stays below 3. |
| ConfidenceDoor.DoorControlEvent | main1.cpp:706-720 | A door that should be open but is not is opened. A door open for at least 15000 ms is closed. Afterwards an open door has been open for less than 15000 ms. |
| ConfidenceDoor.Step | main1.cpp:815-818 | Either scheduled event keeps every timestamp at or before `now`. |
| ConfidenceDoor.StepPreservesInv | main1.cpp:661-720 | Between events the counter is below 3, both busy flags are down, and the two door flags agree. |
| ConfidenceDoor.WatchdogNeverReopens | main1.cpp:706-713 | With the door flags in agreement, the watchdog never forces the door open; it only closes it. |
| ConfidenceDoor.DuplicateScanKeepsTimer | main1.cpp:604-611 | A second validation of the same ID within 2000 ms changes nothing. |
| ConfidenceDoor.ThirdFailureSoundsAlarm | main1.cpp:584-596 | Any three authentications in a row that each count a failure (no hit at the threshold, the last attempt reached the search) reject, count 1 and 2, then sound the alarm on the third and start the counter over. |
| ConfidenceDoor.Run | main1.cpp:815-818 | The alarm count never decreases along a trace. |
| ConfidenceDoor.RunPreservesInv | main1.cpp:661-720 | Every state reached by a chronological trace keeps the invariant. |
| LcdLine.FitLine | main1.cpp:270-293 | The printed row is exactly 16 characters. A longer line is cut to its first 16; a shorter one is kept as a prefix and filled with spaces. |
| LcdLine.PadLine | main1.cpp:270-278 | The firmware's pad-then-cut loop prints a 16-character row that is a prefix or an extension of the input, and equals the reference row. |
| LcdLine.FitLineIdempotent | main1.cpp:270-278 | Formatting an already formatted row changes nothing. |
| LcdLine.FitLineIgnoresTrailingSpaces | main1.cpp:270-278 | Trailing spaces on the input never change the printed row. |

## Left out

- Hardware I/O is represented only through events and boolean outputs. This covers LCD text, GPIO writes, keypad scanning, the DHT, LDR and sound reads, and the fingerprint capture, search and enroll primitives. `RELAY_PIN` and `FAN_PIN` are both pin 4, so that pin always shows `fanRunning`; it is not a separate output here.
- Safety.ReadSensors: the 2-second read throttle and the humidity value are not modelled. A `Sample` event stands for a read that happened; a read with either value NaN is a failed temperature read.
- Floating-point temperatures are integers in tenths of a degree.
- The millisecond clock is unbounded, with no 32-bit wrap of `millis()` itself. The lockout countdown on the lock screen is the exception: `DoorControl.UpdateDisplay`, which `Arbiter.Step` uses, computes it with the unsigned 32-bit wrap as the firmware does (see Findings).
- Blocking delays and message pauses take no time.
- The admin menu, fingerprint enrolment, deletion and the ID range 1..127 are left out. They are nested blocking loops that only touch the sensor's database. '*' with the admin password is modelled as emptying the buffer and returning to the welcome screen.
- Keypad.ChangePassword: the two blocking windows (5 s to pick '1'/'2', 15 s to type) are abstracted. The input is the outcome: no choice, or a choice plus the keys typed before the window closed.
- WiFi, HTTP, Google Sheets and the E-Ra platform calls are not modelled. Audit records are an appended list in `src/main.cpp`'s model, and sending is not modelled in the two variants.
- ConfidenceDoor.HandleAuthenticated: the NTP time, the date formatting and the ID upload are not modelled. The `isSendingData` guard is kept, but since the firmware is single-threaded it is never observed raised between events (proved in `StepPreservesInv`).
- ConfidenceDoor.OpenDoor: the relay retry loop depends on the platform connection; it does not change door state and is left out.
- The cyclic idle screens of `main1.cpp` and the display texts of every screen are left out. In `src/main.cpp` only the screen identity is kept, because the lockout path, digit routing and the guest notice depend on it.
- `main3.cpp`, `main_backup.cpp`, `test_sensors.cpp` and `GoogleAppsScript.js` are not part of this model.
- The door LED stays lit after an overheat trip shuts the door, because the trip does not write that pin. The model keeps this as `Door.led`.

## Findings

| source | as written | input that shows it | evidently intended | confidence | as-written member | corrected member |
|---|---|---|---|---|---|---|
| src/main.cpp:865 | `(LOCKOUT_TIME - (millis() - lockoutStartTime)) / 1000` is computed in unsigned 32-bit arithmetic because `millis()` is `unsigned long`. Once the elapsed time exceeds 30000 ms it wraps to about 4294966, so the lock screen lifts the lock only when it refreshes within the last second of the lockout. | lock screen refreshed 31000 ms after the lock: remaining = 4294966, the lock stays | the countdown goes to zero or below once the lockout is over, and the lock screen lifts the lock | not executed; high that the arithmetic wraps, lower on how often the last-second window is missed in practice | DoorControl.RemainingSecondsAsWritten (with DoorControl.RemainingSecondsWrapsPastLockout, DoorControl.LockoutCountdownCounterexample) | DoorControl.RemainingSeconds, used by DoorControl.UpdateDisplayIntended (the state machine keeps the as-written DoorControl.UpdateDisplay, to describe the firmware) |
