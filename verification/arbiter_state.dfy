/**
  The global state of the access-control arbiter of src/main.cpp, its
  constants, the abstract events one loop iteration consumes, and the
  invariant every reachable state keeps.

  Temperatures are integers in tenths of a degree Celsius; times are the
  millisecond clock as an unbounded natural number.
 */
module ArbiterState {
  import opened Options

  const DEFAULT_ADMIN_PASSWORD: string := "1234"
  const DEFAULT_USER_PASSWORD: string := "0000"

  /** Overheat trips at 40.0 C and is released below 40.0 - 5 = 35.0 C. */
  const TEMP_WARNING_THRESHOLD: int := 400
  const TEMP_RELEASE_THRESHOLD: int := TEMP_WARNING_THRESHOLD - 50
  /** The cooling fan starts at 30.0 C and stops below 30.0 - 2 = 28.0 C. */
  const TEMP_FAN_THRESHOLD: int := 300
  const TEMP_FAN_RELEASE: int := TEMP_FAN_THRESHOLD - 20
  /** A light-sensor value above this means darkness. */
  const LDR_DARK_THRESHOLD: int := 2500

  const MAX_WRONG_ATTEMPTS: nat := 3
  const MAX_FINGER_ATTEMPTS: nat := 3
  const LOCKOUT_TIME: nat := 30000
  const DOOR_OPEN_TIME: nat := 5000
  const SOUND_LIGHT_DURATION: nat := 10000
  const TWO_FACTOR_TIMEOUT: nat := 30000
  const DISPLAY_REFRESH: nat := 500
  const MAX_INPUT_LENGTH: nat := 10
  const MIN_NEW_PASSWORD_LENGTH: nat := 4

  type DigitChar = c: char | '0' <= c <= '9' witness '0'

  /** The screen the display loop is currently showing. */
  datatype Display =
    | Welcome | EnterPassword | ScanFinger | TwoFactorPassword | TwoFactorFinger
    | AccessGranted | AccessDenied | SystemLockedScreen | OverheatWarning
    | GuestDetected | SensorInfo

  /** The password the change dialog rewrites. */
  datatype Target = AdminTarget | UserTarget

  /** What happened inside the blocking change-password dialog opened by 'D':
      either no choice of '1'/'2' within its window, or a choice followed by
      the keys typed while the new password was being entered. */
  datatype ChangeDialog = ChoiceTimeout | Chose(target: Target, entry: seq<char>)

  /** The keys of the 4x4 keypad: digits, A (mode), B (sensor info),
      C (clear), D (change password), '*' and '#'. */
  datatype Key =
    | Digit(d: DigitChar)
    | ModeKey
    | InfoKey
    | ClearKey
    | ChangeKey(dialog: ChangeDialog)
    | StarKey
    | HashKey

  /** The input one loop iteration consumes. `NoFinger` and `Tick` carry no
      input; `Sample` is one sensor read, with `None` for a failed
      temperature read. */
  datatype Event =
    | Press(key: Key)
    | FingerMatched(id: nat)
    | FingerNotFound
    | NoFinger
    | Sample(reading: Option<int>, light: int)
    | Sound
    | Tick

  /** Records handed to the remote audit log. */
  datatype AuditKind = DoorOpenRecord | SystemLockedRecord | FingerLockedRecord
  datatype AuditMethod = ByPassword | ByFingerprint | ByTwoFactor
  datatype Actor = AdminActor | UserActor | FingerActor(id: nat) | UnknownActor
  datatype AuditStatus = Success | SuccessAfterFingerLock | Failed | LockedAfterThreeAttempts
  datatype Audit = Audit(kind: AuditKind, via: AuditMethod, actor: Actor, status: AuditStatus)

  /** The typed digits and the two-factor session. */
  datatype Session = Session(
    buffer: string,
    highSecurity: bool,
    passwordVerified: bool,
    fingerprintVerified: bool,
    twoFactorStart: nat)

  /** Failure counters and the two lock flags. */
  datatype Lockout = Lockout(
    wrongAttempts: nat,
    systemLocked: bool,
    lockoutStart: nat,
    wrongFingerprintAttempts: nat,
    fingerprintLocked: bool)

  /** The door flag, its timer and the door indicator LED. */
  datatype Door = Door(unlocked: bool, openedAt: nat, led: bool)

  /** The last temperature and light readings with the overheat and fan flags. */
  datatype Climate = Climate(temperature: int, isDark: bool, overheated: bool, fanRunning: bool)

  /** The ambient lamp and the sound-triggered guest window. */
  datatype Ambient = Ambient(
    lamp: bool,
    soundLightOn: bool,
    soundLed: bool,
    soundLightStart: nat,
    guestDetected: bool)

  datatype State = State(
    admin: string,
    user: string,
    session: Session,
    lockout: Lockout,
    door: Door,
    climate: Climate,
    ambient: Ambient,
    display: Display,
    lastDisplayUpdate: nat,
    log: seq<Audit>)

  predicate AllDigits(p: string) {
    forall i :: 0 <= i < |p| ==> '0' <= p[i] <= '9'
  }

  predicate IsCredential(s: State, p: string) {
    p == s.admin || p == s.user
  }

  /** Every timestamp the state holds was taken from the clock at or before `now`. */
  predicate StampsAtMost(s: State, now: nat) {
    && s.lockout.lockoutStart <= now
    && s.door.openedAt <= now
    && s.ambient.soundLightStart <= now
    && s.session.twoFactorStart <= now
    && s.lastDisplayUpdate <= now
  }

  /** The second factor's window has run out. */
  predicate TwoFactorExpired(s: State, now: nat)
    requires StampsAtMost(s, now)
  {
    s.session.highSecurity && (s.session.passwordVerified || s.session.fingerprintVerified)
    && now - s.session.twoFactorStart > TWO_FACTOR_TIMEOUT
  }

  /** What holds of every state the arbiter can reach. */
  predicate Inv(s: State) {
    && |s.session.buffer| <= MAX_INPUT_LENGTH && AllDigits(s.session.buffer)
    && |s.admin| >= MIN_NEW_PASSWORD_LENGTH && AllDigits(s.admin)
    && |s.user| >= MIN_NEW_PASSWORD_LENGTH && AllDigits(s.user)
    && s.lockout.wrongAttempts <= MAX_WRONG_ATTEMPTS
    && (s.lockout.systemLocked <==> s.lockout.wrongAttempts == MAX_WRONG_ATTEMPTS)
    && s.lockout.wrongFingerprintAttempts <= MAX_FINGER_ATTEMPTS
    && (s.lockout.fingerprintLocked <==> s.lockout.wrongFingerprintAttempts == MAX_FINGER_ATTEMPTS)
    && (s.climate.temperature >= TEMP_WARNING_THRESHOLD ==> s.climate.overheated)
    && (s.climate.overheated ==> s.climate.temperature >= TEMP_RELEASE_THRESHOLD)
    && (s.climate.overheated ==> !s.door.unlocked && s.climate.fanRunning)
    && (s.door.unlocked ==> s.door.led)
    && s.ambient.soundLed == s.ambient.soundLightOn
    && (!s.session.highSecurity ==> !s.session.passwordVerified && !s.session.fingerprintVerified)
  }

  /** The state after power-up: default passwords, normal mode, all outputs off. */
  function Init(): (r: State)
    ensures Inv(r) && StampsAtMost(r, 0)
    ensures !r.session.highSecurity && !r.door.unlocked
    ensures !r.lockout.systemLocked && !r.lockout.fingerprintLocked
    ensures r.admin == DEFAULT_ADMIN_PASSWORD && r.user == DEFAULT_USER_PASSWORD
  {
    State(
      admin := DEFAULT_ADMIN_PASSWORD,
      user := DEFAULT_USER_PASSWORD,
      session := Session(buffer := "", highSecurity := false, passwordVerified := false,
                         fingerprintVerified := false, twoFactorStart := 0),
      lockout := Lockout(wrongAttempts := 0, systemLocked := false, lockoutStart := 0,
                         wrongFingerprintAttempts := 0, fingerprintLocked := false),
      door := Door(unlocked := false, openedAt := 0, led := false),
      climate := Climate(temperature := 0, isDark := false, overheated := false, fanRunning := false),
      ambient := Ambient(lamp := false, soundLightOn := false, soundLed := false,
                         soundLightStart := 0, guestDetected := false),
      display := Welcome,
      lastDisplayUpdate := 0,
      log := [])
  }
}
