/**
  The keypad/password engine of src/main.cpp: digit buffering, submission
  with '#', clearing, the mode key, the '*' cancel/admin gate, and the
  admin-only password change opened with 'D'.
 */
module Keypad {
  import opened ArbiterState
  import opened DoorControl

  /** How the new-password entry loop of the change dialog ended. */
  datatype EntryOutcome = Submitted(password: string) | Cancelled | TimedOut

  /** The position of the first '#' or '*' among the keys, or their count if none. */
  function FirstTerminator(keys: seq<char>): (i: nat)
    ensures i <= |keys|
    ensures i < |keys| ==> keys[i] == '#' || keys[i] == '*'
    ensures forall j :: 0 <= j < i ==> keys[j] != '#' && keys[j] != '*'
  {
    if |keys| == 0 then 0
    else if keys[0] == '#' || keys[0] == '*' then 0
    else 1 + FirstTerminator(keys[1..])
  }

  /** The digit keys among `keys`, in order. */
  function DigitsOf(keys: seq<char>): (d: string)
    ensures AllDigits(d) && |d| <= |keys|
  {
    if |keys| == 0 then []
    else (if '0' <= keys[0] <= '9' then [keys[0]] else []) + DigitsOf(keys[1..])
  }

  lemma DigitsOfAppend(a: seq<char>, b: seq<char>)
    ensures DigitsOf(a + b) == DigitsOf(a) + DigitsOf(b)
  {
    if |a| > 0 {
      assert (a + b)[1..] == a[1..] + b;
      DigitsOfAppend(a[1..], b);
    } else {
      assert a + b == b;
    }
  }

  /** The entry loop after `typed` has been collected: digits are appended,
      '#' submits, '*' cancels, any other key is ignored, and running out of
      keys is the 15-second timeout. The outcome is decided by the first '#'
      or '*', and a submitted password is exactly the digits typed before it. */
  function NewPasswordEntry(keys: seq<char>, typed: string): (r: EntryOutcome)
    ensures FirstTerminator(keys) == |keys| ==> r == TimedOut
    ensures FirstTerminator(keys) < |keys| && keys[FirstTerminator(keys)] == '*' ==> r == Cancelled
    ensures FirstTerminator(keys) < |keys| && keys[FirstTerminator(keys)] == '#' ==>
              r == Submitted(typed + DigitsOf(keys[..FirstTerminator(keys)]))
    decreases |keys|
  {
    if |keys| == 0 then TimedOut
    else if keys[0] == '#' then
      assert keys[..0] == [] && typed + [] == typed;
      Submitted(typed)
    else if keys[0] == '*' then Cancelled
    else
      var typed' := if '0' <= keys[0] <= '9' then typed + [keys[0]] else typed;
      DigitsBeforeTerminator(keys, typed);
      NewPasswordEntry(keys[1..], typed')
  }

  /** Past a non-terminator first key, the first terminator is one further
      along. */
  lemma TerminatorStep(keys: seq<char>)
    requires |keys| > 0 && keys[0] != '#' && keys[0] != '*'
    ensures FirstTerminator(keys) == FirstTerminator(keys[1..]) + 1
    ensures FirstTerminator(keys) < |keys| ==> keys[FirstTerminator(keys)] == keys[1..][FirstTerminator(keys[1..])]
  {
  }

  /** The digits of a prefix of `keys` longer than one key are those of its
      first key followed by those of the rest of the prefix. */
  lemma DigitsOfPrefix(keys: seq<char>, j: nat)
    requires j < |keys|
    ensures DigitsOf(keys[..j + 1]) == DigitsOf([keys[0]]) + DigitsOf(keys[1..][..j])
  {
    assert keys[..j + 1] == [keys[0]] + keys[1..][..j];
    DigitsOfAppend([keys[0]], keys[1..][..j]);
  }

  /** ... and the digits before it are that key's digit followed by those
      of the rest. */
  lemma {:induction false} DigitsBeforeTerminator(keys: seq<char>, typed: string)
    requires |keys| > 0 && keys[0] != '#' && keys[0] != '*'
    ensures FirstTerminator(keys) == FirstTerminator(keys[1..]) + 1
    ensures FirstTerminator(keys) < |keys| ==> keys[FirstTerminator(keys)] == keys[1..][FirstTerminator(keys[1..])]
    ensures (if '0' <= keys[0] <= '9' then typed + [keys[0]] else typed)
              + DigitsOf(keys[1..][..FirstTerminator(keys[1..])])
            == typed + DigitsOf(keys[..FirstTerminator(keys)])
  {
    TerminatorStep(keys);
    var j := FirstTerminator(keys[1..]);
    DigitsOfPrefix(keys, j);
    var head := DigitsOf([keys[0]]);
    var tail := DigitsOf(keys[1..][..j]);
    assert [keys[0]][1..] == [];
    var typed' := if '0' <= keys[0] <= '9' then typed + [keys[0]] else typed;
    assert typed' == typed + head;
    ConcatAssoc(typed, head, tail);
  }

  lemma ConcatAssoc(a: string, b: string, c: string)
    ensures (a + b) + c == a + (b + c)
  {
  }

  /** The new value a dialog would install, if any: only a submitted entry
      of at least MIN_NEW_PASSWORD_LENGTH digits. */
  function AcceptedChange(dialog: ChangeDialog): (r: EntryOutcome)
    ensures r.Submitted? ==> |r.password| >= MIN_NEW_PASSWORD_LENGTH && AllDigits(r.password)
    ensures r.Submitted? ==> dialog.Chose? && NewPasswordEntry(dialog.entry, []) == r
    ensures dialog.Chose? && NewPasswordEntry(dialog.entry, []).Submitted?
            && |NewPasswordEntry(dialog.entry, []).password| >= MIN_NEW_PASSWORD_LENGTH
            ==> r == NewPasswordEntry(dialog.entry, [])
  {
    match dialog
    case ChoiceTimeout => TimedOut
    case Chose(_, entry) =>
      var out := NewPasswordEntry(entry, []);
      if out.Submitted? && |out.password| >= MIN_NEW_PASSWORD_LENGTH then
        var i := FirstTerminator(entry);
        assert out.password == DigitsOf(entry[..i]);
        out
      else if out.Submitted? then Cancelled
      else out
  }

  /** 'D': only a buffer holding the admin password opens the dialog; a
      buffer holding the user password is refused and cleared; anything
      else leaves the state alone. */
  function ChangePassword(s: State, dialog: ChangeDialog): (r: State)
    ensures s.session.buffer == s.admin ==>
              && r.session.buffer == [] && r.display == Welcome
              && (AcceptedChange(dialog).Submitted? && dialog.target == AdminTarget ==>
                    r.admin == AcceptedChange(dialog).password && r.user == s.user)
              && (AcceptedChange(dialog).Submitted? && dialog.target == UserTarget ==>
                    r.user == AcceptedChange(dialog).password && r.admin == s.admin)
              && (!AcceptedChange(dialog).Submitted? ==> r.admin == s.admin && r.user == s.user)
    ensures s.session.buffer != s.admin ==> r.admin == s.admin && r.user == s.user
    ensures s.session.buffer != s.admin && s.session.buffer == s.user ==>
              r == s.(session := s.session.(buffer := []))
    ensures !IsCredential(s, s.session.buffer) ==> r == s
    ensures r.session == s.session.(buffer := r.session.buffer)
    ensures r.lockout == s.lockout && r.door == s.door && r.climate == s.climate
    ensures r.ambient == s.ambient && r.log == s.log && r.lastDisplayUpdate == s.lastDisplayUpdate
  {
    if s.session.buffer == s.admin then
      var change := AcceptedChange(dialog);
      var s1 :=
        if change.Submitted? then
          if dialog.target == AdminTarget then s.(admin := change.password)
          else s.(user := change.password)
        else s;
      s1.(session := s1.session.(buffer := []), display := Welcome)
    else if s.session.buffer == s.user then
      s.(session := s.session.(buffer := []))
    else
      s
  }

  /** '*': the admin password enters the admin menu (whose fingerprint
      management is not modelled), the user password is refused, and any
      other buffer cancels the whole session and the guest notice. */
  function Star(s: State): (r: State)
    ensures r.session.buffer == [] && r.display == Welcome
    ensures IsCredential(s, s.session.buffer) ==> r == s.(session := s.session.(buffer := []), display := Welcome)
    ensures !IsCredential(s, s.session.buffer) ==>
              !r.session.passwordVerified && !r.session.fingerprintVerified && !r.ambient.guestDetected
    ensures r.session.highSecurity == s.session.highSecurity
    ensures r.session.twoFactorStart == s.session.twoFactorStart
    ensures r.lockout == s.lockout && r.door == s.door && r.climate == s.climate
    ensures r.admin == s.admin && r.user == s.user && r.log == s.log
    ensures r.ambient == s.ambient.(guestDetected := r.ambient.guestDetected)
    ensures r.lastDisplayUpdate == s.lastDisplayUpdate
  {
    if IsCredential(s, s.session.buffer) then
      s.(session := s.session.(buffer := []), display := Welcome)
    else
      ResetAuthentication(s).(display := Welcome, ambient := s.ambient.(guestDetected := false))
  }

  /** The actor an audit record names for a matching password. */
  function PasswordActor(s: State): Actor {
    if s.session.buffer == s.admin then AdminActor else UserActor
  }

  /** '#': an empty buffer is ignored. A matching password clears a fingerprint
      lock and opens the door, or in two-factor mode only marks the password
      factor, or in normal mode opens the door. A wrong one is counted and
      locks the keypad at MAX_WRONG_ATTEMPTS. The buffer always ends empty. */
  function Submit(s: State, now: nat): (r: State)
    ensures |s.session.buffer| == 0 ==> r == s
    ensures |s.session.buffer| > 0 ==> r.session.buffer == []
    ensures |s.session.buffer| > 0 && !IsCredential(s, s.session.buffer) ==>
              && r.lockout.wrongAttempts == s.lockout.wrongAttempts + 1
              && (r.lockout.systemLocked <==>
                    s.lockout.systemLocked || s.lockout.wrongAttempts + 1 >= MAX_WRONG_ATTEMPTS)
              && (s.lockout.wrongAttempts + 1 >= MAX_WRONG_ATTEMPTS ==>
                    r.lockout.lockoutStart == now && r.display == SystemLockedScreen)
              && r.door == s.door
              && r.session == s.session.(buffer := [])
              && r.lockout.fingerprintLocked == s.lockout.fingerprintLocked
    ensures IsCredential(s, s.session.buffer) && |s.session.buffer| > 0 && s.lockout.fingerprintLocked ==>
              && !r.lockout.fingerprintLocked && r.lockout.wrongFingerprintAttempts == 0
              && r.lockout.wrongAttempts == 0
              && r.door.unlocked && r.door.openedAt == now
    ensures IsCredential(s, s.session.buffer) && |s.session.buffer| > 0 && !s.lockout.fingerprintLocked
            && s.session.highSecurity ==>
              && r.session.passwordVerified && r.session.twoFactorStart == now
              && r.session.fingerprintVerified == s.session.fingerprintVerified
              && r.door == s.door && r.lockout == s.lockout
    ensures IsCredential(s, s.session.buffer) && |s.session.buffer| > 0 && !s.lockout.fingerprintLocked
            && !s.session.highSecurity ==>
              r.door.unlocked && r.door.openedAt == now && r.lockout.wrongAttempts == 0
    ensures r.door != s.door ==>
              IsCredential(s, s.session.buffer) && (s.lockout.fingerprintLocked || !s.session.highSecurity)
    ensures r.door.unlocked || !s.door.unlocked
    ensures r.session.highSecurity == s.session.highSecurity
    ensures r.lockout.systemLocked ==> s.lockout.systemLocked || !IsCredential(s, s.session.buffer)
    ensures r.lockout.lockoutStart != s.lockout.lockoutStart ==> r.lockout.systemLocked
    ensures r.lockout.fingerprintLocked ==> s.lockout.fingerprintLocked
    ensures r.lockout.wrongFingerprintAttempts == s.lockout.wrongFingerprintAttempts
            || r.lockout.wrongFingerprintAttempts == 0
    ensures s.log <= r.log
    ensures r.climate == s.climate && r.ambient == s.ambient && r.admin == s.admin && r.user == s.user
    ensures r.lastDisplayUpdate == s.lastDisplayUpdate
  {
    if |s.session.buffer| == 0 then
      s
    else
      var s1 :=
        if IsCredential(s, s.session.buffer) then
          var actor := PasswordActor(s);
          if s.lockout.fingerprintLocked then
            UnlockDoor(s.(lockout := s.lockout.(fingerprintLocked := false, wrongFingerprintAttempts := 0,
                                                wrongAttempts := 0),
                          log := s.log + [Audit(DoorOpenRecord, ByPassword, actor, SuccessAfterFingerLock)]),
                       now)
          else if s.session.highSecurity then
            s.(session := s.session.(passwordVerified := true, twoFactorStart := now),
               display := TwoFactorFinger)
          else
            UnlockDoor(s.(lockout := s.lockout.(wrongAttempts := 0),
                          log := s.log + [Audit(DoorOpenRecord, ByPassword, actor, Success)]),
                       now)
        else
          var wrong := s.lockout.wrongAttempts + 1;
          var logged := s.log + [Audit(DoorOpenRecord, ByPassword, UnknownActor, Failed)];
          if wrong >= MAX_WRONG_ATTEMPTS then
            s.(lockout := s.lockout.(wrongAttempts := wrong, systemLocked := true, lockoutStart := now),
               display := SystemLockedScreen,
               log := logged + [Audit(SystemLockedRecord, ByPassword, UnknownActor, LockedAfterThreeAttempts)])
          else
            s.(lockout := s.lockout.(wrongAttempts := wrong), log := logged,
               display := if s.session.highSecurity then TwoFactorPassword else EnterPassword);
      s1.(session := s1.session.(buffer := []))
  }

  /** The screen 'C' returns to: the factor still outstanding. */
  function ClearedScreen(t: Session): Display {
    if t.highSecurity && t.passwordVerified then TwoFactorFinger
    else if t.highSecurity then TwoFactorPassword
    else EnterPassword
  }

  /** A digit key: kept only while the buffer holds fewer than MAX_INPUT_LENGTH. */
  function TypeDigit(s: State, d: DigitChar): (r: State)
    ensures |s.session.buffer| < MAX_INPUT_LENGTH ==> r.session.buffer == s.session.buffer + [d as char]
    ensures |s.session.buffer| >= MAX_INPUT_LENGTH ==> r.session.buffer == s.session.buffer
    ensures AllDigits(s.session.buffer) ==> AllDigits(r.session.buffer)
    ensures r.session == s.session.(buffer := r.session.buffer)
    ensures r.lockout == s.lockout && r.door == s.door && r.climate == s.climate
    ensures r.ambient == s.ambient && r.log == s.log && r.admin == s.admin && r.user == s.user
    ensures r.lastDisplayUpdate == s.lastDisplayUpdate
    ensures r.display == SystemLockedScreen <==> s.display == SystemLockedScreen
  {
    var shown :=
      if s.display == Welcome || s.display == SensorInfo then
        (if s.session.highSecurity then TwoFactorPassword else EnterPassword)
      else s.display;
    var buffer :=
      if |s.session.buffer| < MAX_INPUT_LENGTH then s.session.buffer + [d as char]
      else s.session.buffer;
    s.(session := s.session.(buffer := buffer), display := shown)
  }

  /** A run of digit keys typed one after another. */
  function TypeDigits(s: State, ds: seq<DigitChar>): (r: State)
    ensures r.(session := s.session, display := s.display) == s
    decreases |ds|
  {
    if |ds| == 0 then s else TypeDigits(TypeDigit(s, ds[0]), ds[1..])
  }

  /** The first MAX_INPUT_LENGTH characters of `b`. */
  function Capped(b: string): (r: string)
    ensures |r| <= MAX_INPUT_LENGTH && r <= b
    ensures |b| <= MAX_INPUT_LENGTH ==> r == b
  {
    if |b| <= MAX_INPUT_LENGTH then b else b[..MAX_INPUT_LENGTH]
  }

  /** A full buffer stays what it is whatever is appended to it. */
  lemma CappedFull(b: string, x: string)
    requires |b| == MAX_INPUT_LENGTH
    ensures Capped(b + x) == b
  {
    assert (b + x)[..MAX_INPUT_LENGTH] == b;
  }

  /** Typing keeps exactly the first ten digits: once the buffer is full
      every further digit is dropped. */
  lemma {:induction false} TypeDigitsKeepsFirstTen(s: State, ds: seq<DigitChar>)
    requires |s.session.buffer| <= MAX_INPUT_LENGTH
    ensures TypeDigits(s, ds).session.buffer == Capped(s.session.buffer + ds)
    decreases |ds|
  {
    var b := s.session.buffer;
    if |ds| == 0 {
      assert b + ds == b;
    } else {
      var s1 := TypeDigit(s, ds[0]);
      var rest: string := ds[1..];
      assert TypeDigits(s, ds) == TypeDigits(s1, ds[1..]);
      TypeDigitsKeepsFirstTen(s1, ds[1..]);
      if |b| < MAX_INPUT_LENGTH {
        assert s1.session.buffer == b + [ds[0] as char];
        assert (b + [ds[0] as char]) + rest == b + ds;
      } else {
        assert s1.session.buffer == b;
        CappedFull(b, rest);
        CappedFull(b, ds);
      }
    }
  }

  /** The effect of one key on an unlocked keypad with the system cool. */
  function Dispatch(s: State, key: Key, now: nat): (r: State)
    requires StampsAtMost(s, now)
    ensures StampsAtMost(r, now)
  {
    match key
    case ModeKey => SwitchSecurityMode(s)
    case InfoKey => s.(display := SensorInfo)
    case ClearKey => s.(session := s.session.(buffer := []), display := ClearedScreen(s.session))
    case ChangeKey(dialog) => ChangePassword(s, dialog)
    case StarKey => Star(s)
    case HashKey => Submit(s, now)
    case Digit(d) => TypeDigit(s, d)
  }

  /** Only a matching password submitted with '#' moves the door, and then
      only when the fingerprint lock is set or the mode is normal. */
  lemma DispatchDoor(s: State, key: Key, now: nat)
    requires StampsAtMost(s, now)
    ensures var r := Dispatch(s, key, now);
            && (r.door != s.door ==>
                  && key == HashKey && IsCredential(s, s.session.buffer)
                  && (s.lockout.fingerprintLocked || !s.session.highSecurity)
                  && r.door.unlocked && r.door.openedAt == now)
            && (r.door.unlocked || !s.door.unlocked)
  {
    if key == HashKey {
      assert Dispatch(s, key, now) == Submit(s, now);
    }
  }

  /** The counters and locks change only through '#'. */
  lemma DispatchLockout(s: State, key: Key, now: nat)
    requires StampsAtMost(s, now)
    ensures var r := Dispatch(s, key, now);
            && (r.lockout != s.lockout ==> key == HashKey)
            && (s.lockout.fingerprintLocked && !r.lockout.fingerprintLocked ==>
                  IsCredential(s, s.session.buffer))
            && (r.lockout.fingerprintLocked ==> s.lockout.fingerprintLocked)
            && (r.lockout.wrongFingerprintAttempts == s.lockout.wrongFingerprintAttempts
                || r.lockout.wrongFingerprintAttempts == 0)
            && (r.lockout.systemLocked && !s.lockout.systemLocked ==>
                  && |s.session.buffer| > 0 && !IsCredential(s, s.session.buffer)
                  && s.lockout.wrongAttempts + 1 >= MAX_WRONG_ATTEMPTS && r.lockout.lockoutStart == now)
            && (r.lockout.lockoutStart != s.lockout.lockoutStart ==> r.lockout.systemLocked)
  {
    if key == HashKey {
      assert Dispatch(s, key, now) == Submit(s, now);
    }
  }

  /** The mode changes only through 'A', the passwords only through 'D' with
      the admin password typed, and only '#' with a matching password marks
      the password factor. */
  lemma DispatchSession(s: State, key: Key, now: nat)
    requires StampsAtMost(s, now)
    ensures var r := Dispatch(s, key, now);
            && (r.session.highSecurity != s.session.highSecurity ==> key == ModeKey)
            && (r.admin != s.admin || r.user != s.user ==> key.ChangeKey? && s.session.buffer == s.admin)
            && (s.session.passwordVerified != r.session.passwordVerified && r.session.passwordVerified ==>
                  key == HashKey && IsCredential(s, s.session.buffer) && r.session.twoFactorStart == now)
            && (r.session.fingerprintVerified ==> s.session.fingerprintVerified)
            && (r.session.twoFactorStart != s.session.twoFactorStart ==> r.session.passwordVerified)
  {
    match key
    case HashKey =>
      assert Dispatch(s, key, now) == Submit(s, now);
    case ChangeKey(dialog) =>
      assert Dispatch(s, key, now) == ChangePassword(s, dialog);
    case _ =>
  }

  /** A key never touches the climate, the lamp, the display timer or
      earlier audit records. */
  lemma DispatchFrame(s: State, key: Key, now: nat)
    requires StampsAtMost(s, now)
    ensures var r := Dispatch(s, key, now);
            && s.log <= r.log
            && r.climate == s.climate && r.lastDisplayUpdate == s.lastDisplayUpdate
            && r.ambient == s.ambient.(guestDetected := r.ambient.guestDetected)
  {
  }

  /** A key on a locked keypad: it only lifts the lock, once LOCKOUT_TIME
      has passed since the lock was set. */
  function LockedKey(s: State, now: nat): (r: State)
    requires StampsAtMost(s, now) && s.lockout.systemLocked
    ensures StampsAtMost(r, now)
    ensures r == s.(lockout := r.lockout, display := r.display)
    ensures r.lockout == s.lockout.(systemLocked := r.lockout.systemLocked,
                                    wrongAttempts := r.lockout.wrongAttempts)
    ensures r.lockout.systemLocked <==> now - s.lockout.lockoutStart < LOCKOUT_TIME
    ensures !r.lockout.systemLocked ==> r.lockout.wrongAttempts == 0
  {
    if now - s.lockout.lockoutStart >= LOCKOUT_TIME then
      s.(lockout := s.lockout.(systemLocked := false, wrongAttempts := 0), display := Welcome)
    else
      s
  }

  /** One key press. While the keypad is locked every key is consumed, and
      the first key at or after LOCKOUT_TIME only lifts the lock; while
      overheated every key is ignored. */
  function HandleKeypad(s: State, key: Key, now: nat): (r: State)
    requires StampsAtMost(s, now)
    ensures StampsAtMost(r, now)
    ensures s.lockout.systemLocked ==>
              && r == s.(lockout := r.lockout, display := r.display)
              && r.lockout == s.lockout.(systemLocked := r.lockout.systemLocked,
                                         wrongAttempts := r.lockout.wrongAttempts)
              && (r.lockout.systemLocked <==> now - s.lockout.lockoutStart < LOCKOUT_TIME)
              && (!r.lockout.systemLocked ==> r.lockout.wrongAttempts == 0)
    ensures !s.lockout.systemLocked && s.climate.overheated ==> r == s
    ensures r.door != s.door ==>
              && key == HashKey && IsCredential(s, s.session.buffer)
              && !s.lockout.systemLocked && !s.climate.overheated
              && (s.lockout.fingerprintLocked || !s.session.highSecurity)
              && r.door.unlocked && r.door.openedAt == now
    ensures r.door.unlocked || !s.door.unlocked
    ensures s.lockout.fingerprintLocked && !r.lockout.fingerprintLocked ==>
              && key == HashKey && IsCredential(s, s.session.buffer)
              && !s.lockout.systemLocked && !s.climate.overheated
    ensures r.lockout.fingerprintLocked ==> s.lockout.fingerprintLocked
    ensures r.lockout.wrongFingerprintAttempts == s.lockout.wrongFingerprintAttempts
            || r.lockout.wrongFingerprintAttempts == 0
    ensures r.lockout.systemLocked && !s.lockout.systemLocked ==>
              && key == HashKey && |s.session.buffer| > 0 && !IsCredential(s, s.session.buffer)
              && s.lockout.wrongAttempts + 1 >= MAX_WRONG_ATTEMPTS && r.lockout.lockoutStart == now
    ensures r.lockout.lockoutStart != s.lockout.lockoutStart ==> r.lockout.systemLocked
    ensures r.session.highSecurity != s.session.highSecurity ==>
              key == ModeKey && !s.lockout.systemLocked && !s.climate.overheated
    ensures r.admin != s.admin || r.user != s.user ==>
              key.ChangeKey? && s.session.buffer == s.admin && !s.lockout.systemLocked && !s.climate.overheated
    ensures s.session.passwordVerified != r.session.passwordVerified && r.session.passwordVerified ==>
              key == HashKey && IsCredential(s, s.session.buffer) && r.session.twoFactorStart == now
    ensures r.session.fingerprintVerified ==> s.session.fingerprintVerified
    ensures r.session.twoFactorStart != s.session.twoFactorStart ==> r.session.passwordVerified
    ensures s.log <= r.log
    ensures r.climate == s.climate && r.lastDisplayUpdate == s.lastDisplayUpdate
    ensures r.ambient == s.ambient.(guestDetected := r.ambient.guestDetected)
  {
    if s.lockout.systemLocked then
      LockedKey(s, now)
    else if s.climate.overheated then
      s
    else
      DispatchDoor(s, key, now);
      DispatchLockout(s, key, now);
      DispatchSession(s, key, now);
      DispatchFrame(s, key, now);
      Dispatch(s, key, now)
  }
}
