/**
  The fingerprint engine of src/main.cpp: its guards, the two-factor
  timeout, matches and mismatches, and the fingerprint lock.
 */
module Fingerprint {
  import opened ArbiterState
  import opened DoorControl

  /** What the scanner reported this iteration: nothing usable (no finger,
      or a capture, conversion or search error), a match, or no match. */
  datatype FingerRead = NoRead | Match(id: nat) | NotFound

  /** The scanner is not consulted while the keypad is locked, the system is
      overheated, or the fingerprint lock is set. */
  predicate Blocked(s: State) {
    s.lockout.systemLocked || s.climate.overheated || s.lockout.fingerprintLocked
  }

  /** A match: the fingerprint counter resets; in normal mode the door
      opens; in two-factor mode the door opens only if the password factor
      is already verified, otherwise the fingerprint factor is marked and
      the two-factor timer starts. */
  function Matched(s: State, id: nat, now: nat): (r: State)
    ensures r.lockout.wrongFingerprintAttempts == 0
    ensures r.door != s.door ==> !s.session.highSecurity || s.session.passwordVerified
    ensures !s.session.highSecurity || s.session.passwordVerified ==>
              r.door.unlocked && r.door.openedAt == now && r.lockout.wrongAttempts == 0
    ensures s.session.highSecurity && !s.session.passwordVerified ==>
              && r.door == s.door && r.session.fingerprintVerified && r.session.twoFactorStart == now
              && r.lockout.wrongAttempts == s.lockout.wrongAttempts
    ensures r.session.passwordVerified == s.session.passwordVerified
    ensures r.session.fingerprintVerified ==> s.session.fingerprintVerified || s.session.highSecurity
    ensures r.session.buffer == s.session.buffer && r.session.highSecurity == s.session.highSecurity
    ensures r.lockout == s.lockout.(wrongFingerprintAttempts := 0, wrongAttempts := r.lockout.wrongAttempts)
    ensures r.door.unlocked || !s.door.unlocked
    ensures s.log <= r.log
  {
    var s1 := s.(lockout := s.lockout.(wrongFingerprintAttempts := 0));
    if s.session.highSecurity then
      if s.session.passwordVerified then
        UnlockDoor(s1.(session := s1.session.(fingerprintVerified := true),
                       lockout := s1.lockout.(wrongAttempts := 0),
                       log := s1.log + [Audit(DoorOpenRecord, ByTwoFactor, FingerActor(id), Success)]),
                   now)
      else
        s1.(session := s1.session.(fingerprintVerified := true, twoFactorStart := now),
            display := TwoFactorPassword)
    else
      UnlockDoor(s1.(lockout := s1.lockout.(wrongAttempts := 0),
                     log := s1.log + [Audit(DoorOpenRecord, ByFingerprint, FingerActor(id), Success)]),
                 now)
  }

  /** A mismatch is counted; at MAX_FINGER_ATTEMPTS the fingerprint lock is set. */
  function Mismatched(s: State): (r: State)
    ensures r.lockout.wrongFingerprintAttempts == s.lockout.wrongFingerprintAttempts + 1
    ensures r.lockout.fingerprintLocked <==>
              s.lockout.fingerprintLocked || s.lockout.wrongFingerprintAttempts + 1 >= MAX_FINGER_ATTEMPTS
    ensures r.lockout == s.lockout.(wrongFingerprintAttempts := r.lockout.wrongFingerprintAttempts,
                                     fingerprintLocked := r.lockout.fingerprintLocked)
    ensures r.door == s.door && r.session == s.session
    ensures s.log < r.log
  {
    var n := s.lockout.wrongFingerprintAttempts + 1;
    var s1 := s.(lockout := s.lockout.(wrongFingerprintAttempts := n),
                 log := s.log + [Audit(DoorOpenRecord, ByFingerprint, UnknownActor, Failed)]);
    if n >= MAX_FINGER_ATTEMPTS then
      s1.(lockout := s1.lockout.(fingerprintLocked := true),
          log := s1.log + [Audit(FingerLockedRecord, ByFingerprint, UnknownActor, LockedAfterThreeAttempts)],
          display := EnterPassword)
    else
      s1
  }

  /** One pass of the fingerprint handler: nothing while blocked; an expired
      two-factor window resets the session before any read is looked at;
      otherwise the read is acted on. */
  function HandleFingerprint(s: State, f: FingerRead, now: nat): (r: State)
    requires StampsAtMost(s, now)
    ensures StampsAtMost(r, now)
    ensures Blocked(s) ==> r == s
    ensures !Blocked(s) && TwoFactorExpired(s, now) ==>
              && !r.session.passwordVerified && !r.session.fingerprintVerified && r.session.buffer == []
              && r.door == s.door && r.lockout == s.lockout && r.display == Welcome
    ensures r.door != s.door ==>
              && f.Match? && !Blocked(s) && !TwoFactorExpired(s, now)
              && (!s.session.highSecurity || s.session.passwordVerified)
              && r.door.unlocked && r.door.openedAt == now
    ensures r.door.unlocked || !s.door.unlocked
    ensures f.Match? && !Blocked(s) && !TwoFactorExpired(s, now) ==>
              && r.lockout.wrongFingerprintAttempts == 0
              && (!s.session.highSecurity || s.session.passwordVerified ==>
                    r.door.unlocked && r.door.openedAt == now)
              && (s.session.highSecurity && !s.session.passwordVerified ==>
                    r.session.fingerprintVerified && r.session.twoFactorStart == now && r.door == s.door)
    ensures f.NotFound? && !Blocked(s) && !TwoFactorExpired(s, now) ==>
              && r.lockout.wrongFingerprintAttempts == s.lockout.wrongFingerprintAttempts + 1
              && (r.lockout.fingerprintLocked <==>
                    s.lockout.wrongFingerprintAttempts + 1 >= MAX_FINGER_ATTEMPTS)
              && r.door == s.door
    ensures f.NoRead? && !TwoFactorExpired(s, now) ==> r == s
    ensures s.lockout.fingerprintLocked ==> r.lockout.fingerprintLocked
    ensures r.lockout.fingerprintLocked && !s.lockout.fingerprintLocked ==> f.NotFound?
    ensures r.lockout == s.lockout.(wrongFingerprintAttempts := r.lockout.wrongFingerprintAttempts,
                                     fingerprintLocked := r.lockout.fingerprintLocked,
                                     wrongAttempts := r.lockout.wrongAttempts)
    ensures r.lockout.wrongAttempts == s.lockout.wrongAttempts || r.lockout.wrongAttempts == 0
    ensures r.session.highSecurity == s.session.highSecurity
    ensures r.session.passwordVerified ==> s.session.passwordVerified
    ensures r.session.fingerprintVerified ==> s.session.fingerprintVerified || s.session.highSecurity
    ensures r.session.twoFactorStart != s.session.twoFactorStart ==> r.session.fingerprintVerified
    ensures s.log <= r.log
    ensures r.climate == s.climate && r.ambient == s.ambient && r.lastDisplayUpdate == s.lastDisplayUpdate
    ensures r.admin == s.admin && r.user == s.user
  {
    if s.lockout.systemLocked || s.climate.overheated then
      s
    else if s.lockout.fingerprintLocked then
      s
    else if TwoFactorExpired(s, now) then
      ResetAuthentication(s).(display := Welcome)
    else
      match f
      case NoRead => s
      case Match(id) => Matched(s, id, now)
      case NotFound => Mismatched(s)
  }
}
