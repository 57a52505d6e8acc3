/**
  The door controller of src/main.cpp: unlocking, locking, resetting the
  authentication session, switching the security mode, and the timer
  checks the display loop performs (door auto-lock, lockout countdown).
 */
module DoorControl {
  import opened ArbiterState

  /** Forgets both verified factors and the typed digits; the mode and the
      two-factor timer stay. */
  function ResetSession(t: Session): (r: Session)
    ensures !r.passwordVerified && !r.fingerprintVerified && r.buffer == []
    ensures r.highSecurity == t.highSecurity && r.twoFactorStart == t.twoFactorStart
  {
    t.(passwordVerified := false, fingerprintVerified := false, buffer := [])
  }

  /** The same reset applied to the whole state: nothing outside the session changes. */
  function ResetAuthentication(s: State): (r: State)
    ensures !r.session.passwordVerified && !r.session.fingerprintVerified && r.session.buffer == []
    ensures r.session.highSecurity == s.session.highSecurity
    ensures r.(session := s.session) == s
  {
    s.(session := ResetSession(s.session))
  }

  /** Opens the door and (re)starts its timer, whatever state it was in. */
  function UnlockDoor(s: State, now: nat): (r: State)
    ensures r.door == Door(unlocked := true, openedAt := now, led := true)
    ensures r.display == AccessGranted
    ensures r.(door := s.door, display := s.display) == s
  {
    s.(door := Door(unlocked := true, openedAt := now, led := true), display := AccessGranted)
  }

  /** Closes the door and ends the session; mode, counters and locks are kept. */
  function LockDoor(s: State): (r: State)
    ensures !r.door.unlocked && !r.door.led && r.display == Welcome
    ensures !r.session.passwordVerified && !r.session.fingerprintVerified && r.session.buffer == []
    ensures r.session.highSecurity == s.session.highSecurity
    ensures r.lockout == s.lockout && r.climate == s.climate && r.ambient == s.ambient
  {
    s.(door := s.door.(unlocked := false, led := false), session := ResetSession(s.session),
       display := Welcome)
  }

  /** Flips between normal and two-factor mode and ends the session. */
  function SwitchSecurityMode(s: State): (r: State)
    ensures r.session.highSecurity == !s.session.highSecurity
    ensures !r.session.passwordVerified && !r.session.fingerprintVerified && r.session.buffer == []
    ensures r.display == Welcome
    ensures r.lockout == s.lockout && r.door == s.door && r.climate == s.climate
  {
    s.(session := ResetSession(s.session).(highSecurity := !s.session.highSecurity),
       display := Welcome)
  }

  /** Switching twice restores the mode but not the discarded session. */
  lemma SwitchTwiceRestoresMode(s: State)
    ensures SwitchSecurityMode(SwitchSecurityMode(s)).session.highSecurity == s.session.highSecurity
    ensures SwitchSecurityMode(SwitchSecurityMode(s)) == ResetAuthentication(s).(display := Welcome)
  {
  }

  /** Unlocking an open door again restarts its timer: the call is not idempotent. */
  lemma UnlockRearmsTimer(s: State, t1: nat, t2: nat)
    requires t1 != t2
    ensures UnlockDoor(UnlockDoor(s, t1), t2) != UnlockDoor(s, t1)
    ensures UnlockDoor(UnlockDoor(s, t1), t2).door.openedAt == t2
  {
  }

  /** C's `/ 1000` on a signed integer truncates toward zero: whole
      thousands, rounded toward zero. */
  function TruncDivThousand(a: int): (q: int)
    ensures a >= 0 ==> 0 <= q && q * 1000 <= a < (q + 1) * 1000
    ensures a < 0 ==> q <= 0 && (q - 1) * 1000 < a <= q * 1000
  {
    if a >= 0 then a / 1000 else -((-a) / 1000)
  }

  /** Whole seconds of lockout left after `elapsed` ms, computed with signed
      arithmetic: the countdown reaches zero during the last second. */
  function RemainingSeconds(elapsed: nat): (r: int)
    ensures r <= 0 <==> elapsed > LOCKOUT_TIME - 1000
    ensures r <= LOCKOUT_TIME / 1000
    ensures elapsed <= LOCKOUT_TIME ==> r >= 0
  {
    TruncDivThousand(LOCKOUT_TIME - elapsed)
  }

  /** The countdown as the display loop computes it: the constant minus the
      unsigned 32-bit elapsed time is itself unsigned, so it wraps once the
      lockout is over. */
  function RemainingSecondsAsWritten(elapsed: nat): (r: int)
    ensures 0 <= r <= 0x1_0000_0000 / 1000
    ensures elapsed <= LOCKOUT_TIME ==> r == RemainingSeconds(elapsed)
  {
    ((LOCKOUT_TIME - elapsed) % 0x1_0000_0000) / 1000
  }

  /** Past the lockout the wrapped countdown is positive, so the display
      path never clears the lock there, while the signed countdown does. */
  lemma RemainingSecondsWrapsPastLockout(elapsed: nat)
    requires LOCKOUT_TIME < elapsed < 0x1_0000_0000
    ensures RemainingSecondsAsWritten(elapsed) > 0
    ensures RemainingSeconds(elapsed) <= 0
  {
    var m := LOCKOUT_TIME - elapsed;
    assert m % 0x1_0000_0000 == m + 0x1_0000_0000;
  }

  /** A concrete instance: 31 s after the lock the display shows 4294966 s. */
  lemma LockoutCountdownCounterexample()
    ensures RemainingSecondsAsWritten(31000) == 4294966
    ensures RemainingSeconds(31000) == -1
  {
    assert (LOCKOUT_TIME - 31000) % 0x1_0000_0000 == 4294966296;
  }

  /** The as-written countdown reaches zero exactly when the elapsed time,
      taken modulo 2^32 as `millis()` arithmetic does, lies in the last
      second of the lockout. */
  lemma {:induction false} CountdownZeroWindow(elapsed: nat)
    ensures RemainingSecondsAsWritten(elapsed) <= 0 <==>
              LOCKOUT_TIME - 1000 < elapsed % 0x1_0000_0000 <= LOCKOUT_TIME
  {
    var e := elapsed % 0x1_0000_0000;
    var m := (LOCKOUT_TIME - elapsed) % 0x1_0000_0000;
    assert m == (LOCKOUT_TIME - e) % 0x1_0000_0000;
    if e <= LOCKOUT_TIME {
      assert m == LOCKOUT_TIME - e;
    } else {
      assert m == LOCKOUT_TIME - e + 0x1_0000_0000;
    }
  }

  /** The door and lockout timers checked at the top of the display loop,
      for a given verdict `expired` of the lockout countdown: the door locks
      itself once open for DOOR_OPEN_TIME; otherwise, at most every
      DISPLAY_REFRESH ms, the lockout screen clears the lock when the
      countdown says it has expired. */
  function DisplayTimers(s: State, now: nat, expired: bool): (r: State)
    requires StampsAtMost(s, now)
    ensures StampsAtMost(r, now)
    ensures s.door.unlocked && now - s.door.openedAt >= DOOR_OPEN_TIME ==>
              && !r.door.unlocked && !r.session.passwordVerified && !r.session.fingerprintVerified
              && r.session.buffer == [] && r.lockout == s.lockout
    ensures r.door.unlocked ==> s.door.unlocked && r.door.openedAt == s.door.openedAt
    ensures !r.door.unlocked && s.door.unlocked ==> now - s.door.openedAt >= DOOR_OPEN_TIME
    ensures r.lockout.systemLocked ==> s.lockout.systemLocked
    ensures s.lockout.systemLocked && !r.lockout.systemLocked ==>
              s.display == SystemLockedScreen && expired && r.lockout.wrongAttempts == 0
    ensures (s.door.unlocked ==> now - s.door.openedAt < DOOR_OPEN_TIME)
            && s.display == SystemLockedScreen && now - s.lastDisplayUpdate >= DISPLAY_REFRESH && expired
            ==> !r.lockout.systemLocked && r.lockout.wrongAttempts == 0 && r.display == Welcome
    ensures r.lockout == s.lockout.(systemLocked := r.lockout.systemLocked,
                                     wrongAttempts := r.lockout.wrongAttempts)
    ensures r.session.highSecurity == s.session.highSecurity
    ensures r.session.twoFactorStart == s.session.twoFactorStart
    ensures r.climate == s.climate && r.ambient == s.ambient && r.log == s.log
    ensures r.admin == s.admin && r.user == s.user
  {
    if s.door.unlocked && now - s.door.openedAt >= DOOR_OPEN_TIME then
      LockDoor(s)
    else if now - s.lastDisplayUpdate < DISPLAY_REFRESH then
      s
    else
      var s1 := s.(lastDisplayUpdate := now);
      if s1.display == SystemLockedScreen && expired then
        s1.(lockout := s1.lockout.(systemLocked := false, wrongAttempts := 0), display := Welcome)
      else
        s1
  }

  /** The display timers as the firmware runs them, with the unsigned
      countdown: the lock screen lifts the lock only when it refreshes while
      the elapsed time (modulo 2^32) lies in the last lockout second, never
      once the lockout is over. */
  function UpdateDisplay(s: State, now: nat): (r: State)
    requires StampsAtMost(s, now)
    ensures StampsAtMost(r, now)
    ensures s.door.unlocked && now - s.door.openedAt >= DOOR_OPEN_TIME ==>
              && !r.door.unlocked && !r.session.passwordVerified && !r.session.fingerprintVerified
              && r.session.buffer == [] && r.lockout == s.lockout
    ensures r.door.unlocked ==> s.door.unlocked && r.door.openedAt == s.door.openedAt
    ensures r.lockout.systemLocked ==> s.lockout.systemLocked
    ensures s.lockout.systemLocked && !r.lockout.systemLocked ==>
              && s.display == SystemLockedScreen && r.lockout.wrongAttempts == 0
              && LOCKOUT_TIME - 1000 < (now - s.lockout.lockoutStart) % 0x1_0000_0000 <= LOCKOUT_TIME
    ensures (s.door.unlocked ==> now - s.door.openedAt < DOOR_OPEN_TIME)
            && s.display == SystemLockedScreen && now - s.lastDisplayUpdate >= DISPLAY_REFRESH
            && LOCKOUT_TIME - 1000 < (now - s.lockout.lockoutStart) % 0x1_0000_0000 <= LOCKOUT_TIME
            ==> !r.lockout.systemLocked && r.lockout.wrongAttempts == 0 && r.display == Welcome
    ensures s.lockout.systemLocked && LOCKOUT_TIME < now - s.lockout.lockoutStart < 0x1_0000_0000 ==>
              r.lockout.systemLocked
    ensures r.lockout == s.lockout.(systemLocked := r.lockout.systemLocked,
                                     wrongAttempts := r.lockout.wrongAttempts)
    ensures r.session.highSecurity == s.session.highSecurity
    ensures r.session.twoFactorStart == s.session.twoFactorStart
    ensures r.climate == s.climate && r.ambient == s.ambient && r.log == s.log
    ensures r.admin == s.admin && r.user == s.user
  {
    CountdownZeroWindow(now - s.lockout.lockoutStart);
    DisplayTimers(s, now, RemainingSecondsAsWritten(now - s.lockout.lockoutStart) <= 0)
  }

  /** The display timers as evidently intended, with the signed countdown:
      the lock screen lifts the lock at any refresh after the first 29 of
      the 30 lockout seconds. */
  function UpdateDisplayIntended(s: State, now: nat): (r: State)
    requires StampsAtMost(s, now)
    ensures StampsAtMost(r, now)
    ensures r.lockout.systemLocked ==> s.lockout.systemLocked
    ensures s.lockout.systemLocked && !r.lockout.systemLocked ==>
              && s.display == SystemLockedScreen && now - s.lockout.lockoutStart > LOCKOUT_TIME - 1000
              && r.lockout.wrongAttempts == 0
    ensures (s.door.unlocked ==> now - s.door.openedAt < DOOR_OPEN_TIME)
            && s.display == SystemLockedScreen && now - s.lastDisplayUpdate >= DISPLAY_REFRESH
            && now - s.lockout.lockoutStart > LOCKOUT_TIME - 1000
            ==> !r.lockout.systemLocked && r.lockout.wrongAttempts == 0 && r.display == Welcome
  {
    DisplayTimers(s, now, RemainingSeconds(now - s.lockout.lockoutStart) <= 0)
  }

  /** The two differ exactly where the countdown wraps: a lock screen
      refreshed after the lockout is over stays locked as written but is
      cleared as intended. */
  lemma UpdateDisplayDiffersPastLockout(s: State, now: nat)
    requires StampsAtMost(s, now) && s.lockout.systemLocked && s.display == SystemLockedScreen
    requires !s.door.unlocked && now - s.lastDisplayUpdate >= DISPLAY_REFRESH
    requires LOCKOUT_TIME < now - s.lockout.lockoutStart < 0x1_0000_0000
    ensures UpdateDisplay(s, now).lockout.systemLocked
    ensures !UpdateDisplayIntended(s, now).lockout.systemLocked
  {
  }
}
