/**
  The single-password door of main2.cpp: one master password typed on the
  keypad, fingerprint scanning that locks itself after three mismatches
  until the password is entered, and a door that closes itself after five
  seconds. One `Step` is one iteration of its loop.
 */
module PinDoor {
  const MASTER_PASSWORD: string := "123456"
  const MAX_FAILURES: nat := 3
  const DOOR_INTERVAL: nat := 5000

  /** What the fingerprint reader produced in one pass: no finger, an image
      that could not be converted, a match, or a search that found nothing. */
  datatype Scan = NoFinger | ImageError | Found | NotMatched

  /** The key, if any, read in one loop iteration. */
  datatype KeyRead = NoKey | Pressed(k: char)

  datatype State = State(
    buffer: string,
    failures: nat,
    lockedOut: bool,
    doorOpen: bool,
    openedAt: nat)

  function Init(): (r: State)
    ensures Inv(r) && !r.doorOpen && !r.lockedOut && r.buffer == []
  {
    State(buffer := "", failures := 0, lockedOut := false, doorOpen := false, openedAt := 0)
  }

  /** The fingerprint lock is set exactly when three mismatches have been
      counted since the door last opened. */
  predicate Inv(s: State) {
    s.failures <= MAX_FAILURES && (s.lockedOut <==> s.failures == MAX_FAILURES)
  }

  /** Opening clears both the failure count and the lock and empties the buffer. */
  function OpenDoor(s: State, now: nat): (r: State)
    ensures r.doorOpen && r.openedAt == now
    ensures r.failures == 0 && !r.lockedOut && r.buffer == []
  {
    State(buffer := "", failures := 0, lockedOut := false, doorOpen := true, openedAt := now)
  }

  /** Closing only lowers the door flag. */
  function CloseDoor(s: State): (r: State)
    ensures !r.doorOpen
    ensures r == s.(doorOpen := false)
  {
    s.(doorOpen := false)
  }

  /** One key: '#' checks the buffer against the master password, '*'
      empties it, and every other key (letters included) is appended with
      no bound on the length. A wrong password is not counted. */
  function ProcessKey(s: State, key: char, now: nat): (r: State)
    ensures key == '#' && s.buffer == MASTER_PASSWORD ==>
              r.doorOpen && r.openedAt == now && r.failures == 0 && !r.lockedOut
    ensures key == '#' && s.buffer != MASTER_PASSWORD ==> r == s.(buffer := [])
    ensures key == '*' ==> r == s.(buffer := [])
    ensures key != '#' && key != '*' ==> r == s.(buffer := s.buffer + [key])
    ensures key == '#' || key == '*' ==> r.buffer == []
  {
    if key == '#' then
      if s.buffer == MASTER_PASSWORD then OpenDoor(s, now) else s.(buffer := [])
    else if key == '*' then
      s.(buffer := [])
    else
      s.(buffer := s.buffer + [key])
  }

  /** One pass of the reader while it is not locked: a match opens the
      door, an unconvertible image is ignored, and a mismatch is counted,
      setting the lock at MAX_FAILURES. */
  function ProcessFingerprint(s: State, scan: Scan, now: nat): (r: State)
    ensures s.lockedOut ==> r == s
    ensures !s.lockedOut && scan == Found ==> r == OpenDoor(s, now)
    ensures !s.lockedOut && scan == NotMatched ==>
              && r.failures == s.failures + 1
              && (r.lockedOut <==> s.failures + 1 >= MAX_FAILURES)
              && r.doorOpen == s.doorOpen && r.buffer == s.buffer
    ensures scan == NoFinger || scan == ImageError ==> r == s
  {
    if s.lockedOut then s
    else
      match scan
      case NoFinger => s
      case ImageError => s
      case Found => OpenDoor(s, now)
      case NotMatched =>
        var n := s.failures + 1;
        s.(failures := n, lockedOut := n >= MAX_FAILURES)
  }

  /** The door closes once it has been open for DOOR_INTERVAL. */
  function CheckDoorTimeout(s: State, now: nat): (r: State)
    requires s.openedAt <= now
    ensures r.doorOpen <==> s.doorOpen && now - s.openedAt < DOOR_INTERVAL
    ensures r == s.(doorOpen := r.doorOpen)
  {
    if s.doorOpen && now - s.openedAt >= DOOR_INTERVAL then CloseDoor(s) else s
  }

  /** One loop iteration: an optional key, then the reader (only while not
      locked and with the door shut), then the door timer. */
  function Step(s: State, key: KeyRead, scan: Scan, now: nat): (r: State)
    requires s.openedAt <= now
    ensures r.openedAt <= now
    ensures r.doorOpen ==> now - r.openedAt < DOOR_INTERVAL
  {
    var s1 := match key
      case Pressed(k) => ProcessKey(s, k, now)
      case NoKey => s;
    var s2 := if !s1.lockedOut && !s1.doorOpen then ProcessFingerprint(s1, scan, now) else s1;
    CheckDoorTimeout(s2, now)
  }

  /** Every step keeps the lock in step with the failure count. */
  lemma StepPreservesInv(s: State, key: KeyRead, scan: Scan, now: nat)
    requires Inv(s) && s.openedAt <= now
    ensures Inv(Step(s, key, scan, now))
  {
  }

  /** Only the master password lifts the fingerprint lock, and no wrong
      password is ever counted. */
  lemma LockLiftsOnlyByPassword(s: State, key: KeyRead, scan: Scan, now: nat)
    requires Inv(s) && s.openedAt <= now && s.lockedOut
    ensures var r := Step(s, key, scan, now);
            && (!r.lockedOut <==> key == Pressed('#') && s.buffer == MASTER_PASSWORD)
            && (r.lockedOut ==> r.failures == s.failures)
  {
  }

  /** While locked the reader is never consulted: a match changes nothing. */
  lemma LockedIgnoresFinger(s: State, key: KeyRead, now: nat)
    requires Inv(s) && s.openedAt <= now && s.lockedOut
    ensures Step(s, key, Found, now) == Step(s, key, NotMatched, now)
  {
  }

  /** While the door is open the reader is never consulted either: whatever
      it would read, the step is the same as with no finger. */
  lemma OpenDoorIgnoresFinger(s: State, key: KeyRead, scan: Scan, now: nat)
    requires s.doorOpen && s.openedAt <= now
    ensures Step(s, key, scan, now) == Step(s, key, NoFinger, now)
  {
  }

  /** A wrong password never moves the failure count or the lock. */
  lemma WrongPasswordNotCounted(s: State, now: nat)
    requires s.openedAt <= now && s.buffer != MASTER_PASSWORD
    ensures var r := Step(s, Pressed('#'), NoFinger, now);
            r.failures == s.failures && r.lockedOut == s.lockedOut && r.buffer == []
  {
  }

  /** Three mismatches in a row from a fresh count set the lock. */
  lemma ThreeMismatchesLock(s: State, t1: nat, t2: nat, t3: nat)
    requires Inv(s) && !s.doorOpen && s.failures == 0
    requires s.openedAt <= t1 <= t2 <= t3
    ensures var r := Step(Step(Step(s, NoKey, NotMatched, t1), NoKey, NotMatched, t2), NoKey, NotMatched, t3);
            r.lockedOut && r.failures == MAX_FAILURES && !r.doorOpen
  {
  }

  // ---------------------------------------------------------------------
  // Traces

  datatype Input = Input(key: KeyRead, scan: Scan, at: nat)

  predicate Chronological(s: State, trace: seq<Input>) {
    && (|trace| > 0 ==> s.openedAt <= trace[0].at)
    && forall i :: 0 < i < |trace| ==> trace[i - 1].at <= trace[i].at
  }

  function Run(s: State, trace: seq<Input>): (r: State)
    requires Chronological(s, trace)
    ensures |trace| > 0 ==> r.openedAt <= trace[|trace| - 1].at
    decreases |trace|
  {
    if |trace| == 0 then s
    else
      var s1 := Step(s, trace[0].key, trace[0].scan, trace[0].at);
      assert Chronological(s1, trace[1..]) by {
        if |trace| > 1 {
          assert trace[0].at <= trace[1].at;
        }
        forall i | 0 < i < |trace[1..]|
          ensures trace[1..][i - 1].at <= trace[1..][i].at
        {
          assert trace[i].at <= trace[i + 1].at;
        }
      }
      Run(s1, trace[1..])
  }

  lemma {:induction false} RunPreservesInv(s: State, trace: seq<Input>)
    requires Inv(s) && Chronological(s, trace)
    ensures Inv(Run(s, trace))
    decreases |trace|
  {
    if |trace| > 0 {
      var s1 := Step(s, trace[0].key, trace[0].scan, trace[0].at);
      StepPreservesInv(s, trace[0].key, trace[0].scan, trace[0].at);
      RunPreservesInv(s1, trace[1..]);
    }
  }

  /** No sequence of fingerprint scans alone ever lifts the lock. */
  lemma {:induction false} LockPersistsWithoutKeys(s: State, trace: seq<Input>)
    requires Inv(s) && Chronological(s, trace) && s.lockedOut
    requires forall i :: 0 <= i < |trace| ==> trace[i].key == NoKey
    ensures Run(s, trace).lockedOut
    decreases |trace|
  {
    if |trace| > 0 {
      var s1 := Step(s, trace[0].key, trace[0].scan, trace[0].at);
      LockLiftsOnlyByPassword(s, trace[0].key, trace[0].scan, trace[0].at);
      assert forall i :: 0 <= i < |trace[1..]| ==> trace[1..][i].key == trace[i + 1].key;
      LockPersistsWithoutKeys(s1, trace[1..]);
    }
  }
}
