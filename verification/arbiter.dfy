/**
  One iteration of the main loop of src/main.cpp as a pure step over the
  arbiter state, its invariant, and the properties that hold across one
  step and across whole event traces.
 */
module Arbiter {
  import opened Options
  import opened ArbiterState
  import opened DoorControl
  import opened Safety
  import opened Keypad
  import opened Fingerprint

  /** The sensor read of this iteration, if the event is one. */
  function Sense(s: State, e: Event): (r: State)
    ensures !e.Sample? ==> r == s
    ensures r.(climate := s.climate) == s
  {
    match e
    case Sample(reading, light) => ReadSensors(s, reading, light)
    case _ => s
  }

  /** What the scanner reports in this iteration. */
  function FingerInput(e: Event): (f: FingerRead)
    ensures f.Match? <==> e.FingerMatched?
    ensures f.NotFound? <==> e.FingerNotFound?
  {
    match e
    case FingerMatched(id) => Match(id)
    case FingerNotFound => NotFound
    case _ => NoRead
  }

  /** One loop iteration: sensors, overheat protection, automation, the
      keypad, the fingerprint reader, then the display timers. */
  function Step(s: State, e: Event, now: nat): (r: State)
    requires StampsAtMost(s, now)
    ensures StampsAtMost(r, now)
    ensures s.log <= r.log
  {
    var s1 := Sense(s, e);
    var s2 := OverheatProtection(s1);
    var s3 := Automation(s2, e.Sound?, now);
    var s4 := if e.Press? then HandleKeypad(s3, e.key, now) else s3;
    var s5 := HandleFingerprint(s4, FingerInput(e), now);
    UpdateDisplay(s5, now)
  }

  // ---------------------------------------------------------------------
  // The invariant, handler by handler

  /** A sensor read may break the temperature clauses; the overheat check
      that follows restores them. */
  lemma SensePreservesInv(s: State, e: Event)
    requires Inv(s)
    ensures Inv(OverheatProtection(Sense(s, e)))
  {
  }

  lemma AutomationPreservesInv(s: State, sound: bool, now: nat)
    requires Inv(s) && StampsAtMost(s, now)
    ensures Inv(Automation(s, sound, now))
  {
  }

  lemma KeypadPreservesInv(s: State, key: Key, now: nat)
    requires Inv(s) && StampsAtMost(s, now)
    ensures Inv(HandleKeypad(s, key, now))
  {
    if !s.lockout.systemLocked && !s.climate.overheated {
      var r := HandleKeypad(s, key, now);
      assert r == Dispatch(s, key, now);
      match key
      case ChangeKey(dialog) =>
        var change := AcceptedChange(dialog);
        assert r.admin == s.admin || r.admin == change.password;
        assert r.user == s.user || r.user == change.password;
      case HashKey =>
        assert r == Submit(s, now);
      case _ =>
    }
  }

  lemma FingerprintPreservesInv(s: State, f: FingerRead, now: nat)
    requires Inv(s) && StampsAtMost(s, now)
    ensures Inv(HandleFingerprint(s, f, now))
  {
  }

  lemma UpdateDisplayPreservesInv(s: State, now: nat)
    requires Inv(s) && StampsAtMost(s, now)
    ensures Inv(UpdateDisplay(s, now))
  {
  }

  /** Every step keeps the invariant. */
  lemma StepPreservesInv(s: State, e: Event, now: nat)
    requires Inv(s) && StampsAtMost(s, now)
    ensures Inv(Step(s, e, now))
  {
    var s2 := OverheatProtection(Sense(s, e));
    SensePreservesInv(s, e);
    var s3 := Automation(s2, e.Sound?, now);
    AutomationPreservesInv(s2, e.Sound?, now);
    var s4 := if e.Press? then HandleKeypad(s3, e.key, now) else s3;
    if e.Press? {
      KeypadPreservesInv(s3, e.key, now);
    }
    var s5 := HandleFingerprint(s4, FingerInput(e), now);
    FingerprintPreservesInv(s4, FingerInput(e), now);
    UpdateDisplayPreservesInv(s5, now);
  }

  // ---------------------------------------------------------------------
  // Properties of one step

  /** Only a sample can change the overheat flag, and a sample of `t`
      decides it by the 40/35 degree hysteresis. */
  lemma OverheatHysteresis(s: State, e: Event, now: nat)
    requires Inv(s) && StampsAtMost(s, now)
    ensures var r := Step(s, e, now);
            && (e.Sample? && e.reading.Some? ==>
                  (r.climate.overheated <==>
                     e.reading.value >= TEMP_WARNING_THRESHOLD
                     || (s.climate.overheated && e.reading.value >= TEMP_RELEASE_THRESHOLD)))
            && (!e.Sample? || e.reading.None? ==> r.climate.overheated == s.climate.overheated)
            && (r.climate.overheated ==> !r.door.unlocked && r.climate.fanRunning)
  {
    StepPreservesInv(s, e, now);
  }

  /** Whatever the event, a step that leaves the system overheated leaves
      the door exactly as before or shut: neither the keypad nor the reader
      can open it. */
  lemma OverheatBlocksUnlock(s: State, e: Event, now: nat)
    requires StampsAtMost(s, now)
    requires OverheatProtection(Sense(s, e)).climate.overheated
    ensures var r := Step(s, e, now);
            !r.door.unlocked || (r.door == s.door && s.door.unlocked)
  {
    var s2 := OverheatProtection(Sense(s, e));
    var s3 := Automation(s2, e.Sound?, now);
    var s4 := if e.Press? then HandleKeypad(s3, e.key, now) else s3;
    assert s4.door == s3.door && s4.climate.overheated;
    var s5 := HandleFingerprint(s4, FingerInput(e), now);
    assert s5 == s4;
  }

  /** In two-factor mode, without the fingerprint lock, the door opens only
      on a fingerprint match while the password factor is already verified:
      a correct password on its own never opens it. */
  lemma TwoFactorNeedsBothFactors(s: State, e: Event, now: nat)
    requires StampsAtMost(s, now)
    requires s.session.highSecurity && !s.lockout.fingerprintLocked
    ensures var r := Step(s, e, now);
            r.door.unlocked && r.door != s.door ==>
              e.FingerMatched? && s.session.passwordVerified && !TwoFactorExpired(s, now)
  {
    var s2 := OverheatProtection(Sense(s, e));
    var s3 := Automation(s2, e.Sound?, now);
    var s4 := if e.Press? then HandleKeypad(s3, e.key, now) else s3;
    assert s4.door == s3.door;
    var s5 := HandleFingerprint(s4, FingerInput(e), now);
    assert !e.Press? ==> s4 == s3;
    assert s5.door.unlocked && s5.door != s4.door ==> e.FingerMatched? && s4 == s3;
  }

  /** The converse: in two-factor mode a match with the password factor
      verified (and neither lock, overheating nor an expired window) opens
      the door and starts its timer. */
  lemma FingerAfterPasswordOpens(s: State, id: nat, now: nat)
    requires Inv(s) && StampsAtMost(s, now)
    requires s.session.highSecurity && s.session.passwordVerified && !TwoFactorExpired(s, now)
    requires !s.lockout.systemLocked && !s.lockout.fingerprintLocked && !s.climate.overheated
    ensures var r := Step(s, FingerMatched(id), now);
            r.door.unlocked && r.door.openedAt == now && r.lockout.wrongFingerprintAttempts == 0
  {
  }

  /** A correct password with '#' while the fingerprint lock is set lifts
      the lock, zeroes both counters and opens the door, in either mode. */
  lemma PasswordLiftsFingerprintLock(s: State, now: nat)
    requires Inv(s) && StampsAtMost(s, now)
    requires s.lockout.fingerprintLocked && !s.lockout.systemLocked && !s.climate.overheated
    requires |s.session.buffer| > 0 && IsCredential(s, s.session.buffer)
    ensures var r := Step(s, Press(HashKey), now);
            && !r.lockout.fingerprintLocked && r.lockout.wrongFingerprintAttempts == 0
            && r.lockout.wrongAttempts == 0 && r.door.unlocked && r.door.openedAt == now
  {
    var s3 := Automation(OverheatProtection(Sense(s, Press(HashKey))), false, now);
    assert s3.session == s.session && s3.lockout == s.lockout && s3.admin == s.admin && s3.user == s.user;
    assert HandleKeypad(s3, HashKey, now) == Submit(s3, now);
  }

  /** Only '#' with a matching password lifts the fingerprint lock. */
  lemma FingerprintLockNeedsPassword(s: State, e: Event, now: nat)
    requires StampsAtMost(s, now)
    requires s.lockout.fingerprintLocked
    ensures var r := Step(s, e, now);
            !r.lockout.fingerprintLocked ==> e == Press(HashKey) && IsCredential(s, s.session.buffer)
  {
    var s2 := OverheatProtection(Sense(s, e));
    var s3 := Automation(s2, e.Sound?, now);
    assert s3.session == s.session && s3.lockout == s.lockout && s3.admin == s.admin && s3.user == s.user;
  }

  /** A key pressed while the keypad is locked has no authentication effect:
      it lifts the lock once LOCKOUT_TIME has passed and does nothing else. */
  lemma LockedKeypadOnlyLifts(s: State, key: Key, now: nat)
    requires StampsAtMost(s, now)
    requires s.lockout.systemLocked
    ensures var r := HandleKeypad(s, key, now);
            && r.session == s.session && r.door == s.door && r.admin == s.admin && r.user == s.user
            && (r.lockout.systemLocked <==> now - s.lockout.lockoutStart < LOCKOUT_TIME)
  {
  }

  /** After the door has been open for DOOR_OPEN_TIME a tick shuts it and
      ends the session, but keeps the mode, the counters and the locks. */
  lemma AutoLockKeepsModeAndCounters(s: State, now: nat)
    requires Inv(s) && StampsAtMost(s, now)
    requires s.door.unlocked && now - s.door.openedAt >= DOOR_OPEN_TIME
    ensures var r := Step(s, Tick, now);
            && !r.door.unlocked && !r.session.passwordVerified && !r.session.fingerprintVerified
            && r.session.buffer == [] && r.session.highSecurity == s.session.highSecurity
            && r.lockout == s.lockout
  {
    var s3 := Automation(OverheatProtection(Sense(s, Tick)), false, now);
    assert s3.door == s.door && s3.lockout == s.lockout && s3.session == s.session;
  }

  /** A sound in the dark lights the lamp, even while overheated. */
  lemma SoundLightsLampWhenDark(s: State, now: nat)
    requires StampsAtMost(s, now)
    requires s.climate.isDark
    ensures var r := Step(s, Sound, now);
            r.ambient.lamp && r.ambient.soundLightOn && r.ambient.guestDetected
  {
  }

  // ---------------------------------------------------------------------
  // Traces

  /** A trace of events with the clock readings they were handled at. */
  datatype Timed = Timed(event: Event, at: nat)

  /** The clock never runs backwards along the trace, and no stamp in the
      starting state is later than its first reading. */
  predicate Chronological(s: State, trace: seq<Timed>) {
    && (|trace| > 0 ==> StampsAtMost(s, trace[0].at))
    && forall i :: 0 < i < |trace| ==> trace[i - 1].at <= trace[i].at
  }

  function Run(s: State, trace: seq<Timed>): (r: State)
    requires Chronological(s, trace)
    ensures s.log <= r.log
    decreases |trace|
  {
    if |trace| == 0 then s
    else
      var s1 := Step(s, trace[0].event, trace[0].at);
      assert Chronological(s1, trace[1..]) by {
        if |trace| > 1 {
          assert trace[0].at <= trace[1].at;
        }
        forall i | 0 < i < |trace[1..]|
          ensures trace[1..][i - 1].at <= trace[1..][i].at
        {
          assert trace[i].at <= trace[i + 1].at;
        }
      }
      Run(s1, trace[1..])
  }

  /** Every state reached from a good state keeps the invariant. */
  lemma {:induction false} RunPreservesInv(s: State, trace: seq<Timed>)
    requires Inv(s) && Chronological(s, trace)
    ensures Inv(Run(s, trace))
    decreases |trace|
  {
    if |trace| > 0 {
      StepPreservesInv(s, trace[0].event, trace[0].at);
      RunPreservesInv(Step(s, trace[0].event, trace[0].at), trace[1..]);
    }
  }

  /** The fingerprint lock survives any trace that never presses '#'. */
  lemma {:induction false} FingerprintLockPersists(s: State, trace: seq<Timed>)
    requires Chronological(s, trace) && s.lockout.fingerprintLocked
    requires forall i :: 0 <= i < |trace| ==> trace[i].event != Press(HashKey)
    ensures Run(s, trace).lockout.fingerprintLocked
    decreases |trace|
  {
    if |trace| > 0 {
      var s1 := Step(s, trace[0].event, trace[0].at);
      FingerprintLockNeedsPassword(s, trace[0].event, trace[0].at);
      assert forall i :: 0 <= i < |trace[1..]| ==> trace[1..][i].event == trace[i + 1].event;
      FingerprintLockPersists(s1, trace[1..]);
    }
  }

  /** The power-up state and everything reachable from it keep the invariant. */
  lemma ReachableInv(trace: seq<Timed>)
    requires Chronological(Init(), trace)
    ensures Inv(Run(Init(), trace))
  {
    RunPreservesInv(Init(), trace);
  }
}
