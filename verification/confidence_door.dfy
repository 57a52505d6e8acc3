/**
  The fingerprint-only door of main1.cpp: up to three capture attempts per
  finger placement with a confidence threshold, a failure counter that
  raises the alarm and starts over at three, a cooldown against duplicate
  scans, and the periodic timer and door-watchdog events.
 */
module ConfidenceDoor {
  const CONFIDENCE_THRESHOLD: nat := 60
  const MAX_RETRY_ATTEMPTS: nat := 3
  const MAX_CONSECUTIVE_FAILURES: nat := 3
  const DOOR_INTERVAL: nat := 15000
  const DUPLICATE_COOLDOWN: nat := 2000
  const CHECK_INTERVAL: nat := 500

  /** What one capture attempt produced: the image could not be taken or
      converted, the search found nothing, or it found an ID with a confidence. */
  datatype Attempt = ImageFail | ConvertFail | SearchMiss | Hit(id: nat, confidence: nat)

  datatype Verdict = Rejected | Accepted(id: nat, confidence: nat)

  /** The verdict of one authentication, the failure counter after it, and
      whether the alarm sounded. */
  datatype AuthOutcome = AuthOutcome(verdict: Verdict, failures: nat, alarm: bool)

  predicate Good(a: Attempt) {
    a.Hit? && a.confidence >= CONFIDENCE_THRESHOLD
  }

  /** A failure to take or convert the image: on the last attempt it ends
      the authentication without counting a failure. */
  predicate CaptureFailure(a: Attempt) {
    a.ImageFail? || a.ConvertFail?
  }

  /** The verdict of the attempts from `i` on: the first good hit, if any. */
  function FirstGood(attempts: seq<Attempt>, i: nat): (v: Verdict)
    requires i <= |attempts|
    ensures v.Accepted? <==> exists j :: i <= j < |attempts| && Good(attempts[j])
    ensures v.Accepted? ==>
              exists j :: && i <= j < |attempts| && Good(attempts[j])
                          && (forall k :: i <= k < j ==> !Good(attempts[k]))
                          && v == Accepted(attempts[j].id, attempts[j].confidence)
    decreases |attempts| - i
  {
    if i == |attempts| then Rejected
    else if Good(attempts[i]) then Accepted(attempts[i].id, attempts[i].confidence)
    else FirstGood(attempts, i + 1)
  }

  /** One authentication over the answers of the three attempts. The first
      hit at or above the threshold is accepted. Otherwise a capture failure
      on the last attempt rejects without counting, and anything else counts
      one failure; the third one sounds the alarm and resets the counter. */
  function Authenticate(attempts: seq<Attempt>, failures: nat): (o: AuthOutcome)
    requires |attempts| == MAX_RETRY_ATTEMPTS
    ensures o.verdict.Accepted? <==> exists i :: 0 <= i < |attempts| && Good(attempts[i])
    ensures o.verdict == FirstGood(attempts, 0)
    ensures o.verdict.Accepted? || CaptureFailure(attempts[|attempts| - 1]) ==>
              o.failures == failures && !o.alarm
    ensures !o.verdict.Accepted? && !CaptureFailure(attempts[|attempts| - 1]) ==>
              && (o.alarm <==> failures + 1 >= MAX_CONSECUTIVE_FAILURES)
              && (o.alarm ==> o.failures == 0)
              && (!o.alarm ==> o.failures == failures + 1)
    ensures failures < MAX_CONSECUTIVE_FAILURES ==> o.failures < MAX_CONSECUTIVE_FAILURES
  {
    var v := FirstGood(attempts, 0);
    if v.Accepted? || CaptureFailure(attempts[|attempts| - 1]) then
      AuthOutcome(v, failures, false)
    else if failures + 1 >= MAX_CONSECUTIVE_FAILURES then
      AuthOutcome(v, 0, true)
    else
      AuthOutcome(v, failures + 1, false)
  }

  /** The attempt loop as the firmware runs it: a failed attempt before the
      last is retried, a good hit returns at once, a capture failure on the
      last attempt returns at once, and only falling out of the loop counts
      a failure. */
  method AuthenticateLoop(attempts: seq<Attempt>, failures: nat)
    returns (verdict: Verdict, failures': nat, alarm: bool)
    requires |attempts| == MAX_RETRY_ATTEMPTS
    ensures AuthOutcome(verdict, failures', alarm) == Authenticate(attempts, failures)
    ensures verdict.Accepted? ==> failures' == failures && !alarm
  {
    var attempt := 0;
    while attempt < MAX_RETRY_ATTEMPTS
      invariant 0 <= attempt <= MAX_RETRY_ATTEMPTS
      invariant FirstGood(attempts, attempt) == FirstGood(attempts, 0)
      invariant attempt == MAX_RETRY_ATTEMPTS ==> !CaptureFailure(attempts[MAX_RETRY_ATTEMPTS - 1])
      decreases MAX_RETRY_ATTEMPTS - attempt
    {
      match attempts[attempt] {
        case Hit(id, confidence) =>
          if confidence >= CONFIDENCE_THRESHOLD {
            return Accepted(id, confidence), failures, false;
          }
        case SearchMiss =>
        case _ =>
          if attempt == MAX_RETRY_ATTEMPTS - 1 {
            assert FirstGood(attempts, attempt + 1) == Rejected;
            return Rejected, failures, false;
          }
      }
      attempt := attempt + 1;
    }
    failures' := failures + 1;
    alarm := false;
    if failures' >= MAX_CONSECUTIVE_FAILURES {
      alarm := true;
      failures' := 0;
    }
    verdict := Rejected;
  }

  datatype State = State(
    failures: nat,
    doorShouldOpen: bool,
    isDoorOpen: bool,
    openedAt: nat,
    lastValidatedId: nat,
    lastValidationTime: nat,
    isSendingData: bool,
    authInProgress: bool,
    lastCheck: nat,
    alarms: nat)

  function Init(): (r: State)
    ensures Inv(r) && StampsAtMost(r, 0) && !r.isDoorOpen && r.alarms == 0
  {
    State(failures := 0, doorShouldOpen := false, isDoorOpen := false, openedAt := 0,
          lastValidatedId := 0, lastValidationTime := 0, isSendingData := false,
          authInProgress := false, lastCheck := 0, alarms := 0)
  }

  predicate StampsAtMost(s: State, now: nat) {
    s.openedAt <= now && s.lastValidationTime <= now && s.lastCheck <= now
  }

  /** Between events: the counter is below three, both busy flags are down,
      and the two door flags agree. */
  predicate Inv(s: State) {
    && s.failures < MAX_CONSECUTIVE_FAILURES
    && !s.isSendingData && !s.authInProgress
    && (s.doorShouldOpen <==> s.isDoorOpen)
  }

  function OpenDoor(s: State, now: nat): (r: State)
    ensures r.failures == 0 && r.doorShouldOpen && r.isDoorOpen && r.openedAt == now
    ensures r.(failures := s.failures, doorShouldOpen := s.doorShouldOpen,
               isDoorOpen := s.isDoorOpen, openedAt := s.openedAt) == s
  {
    s.(failures := 0, doorShouldOpen := true, isDoorOpen := true, openedAt := now)
  }

  function CloseDoor(s: State): (r: State)
    ensures !r.doorShouldOpen && !r.isDoorOpen
    ensures r.(doorShouldOpen := s.doorShouldOpen, isDoorOpen := s.isDoorOpen) == s
  {
    s.(doorShouldOpen := false, isDoorOpen := false)
  }

  /** `id` is the ID validated last, less than DUPLICATE_COOLDOWN ago. */
  predicate Duplicate(s: State, id: nat, now: nat)
    requires s.lastValidationTime <= now
  {
    id == s.lastValidatedId && now - s.lastValidationTime < DUPLICATE_COOLDOWN
  }

  /** A validated ID opens the door unless it is the one validated less than
      DUPLICATE_COOLDOWN ago or a previous validation is still being sent. */
  function HandleAuthenticated(s: State, id: nat, now: nat): (r: State)
    requires StampsAtMost(s, now)
    ensures StampsAtMost(r, now)
    ensures Duplicate(s, id, now) || s.isSendingData ==> r == s
    ensures !Duplicate(s, id, now) && !s.isSendingData ==>
              && r.isDoorOpen && r.doorShouldOpen && r.openedAt == now && r.failures == 0
              && r.lastValidatedId == id && r.lastValidationTime == now && !r.isSendingData
    ensures r.authInProgress == s.authInProgress && r.lastCheck == s.lastCheck && r.alarms == s.alarms
    ensures r.isSendingData == s.isSendingData
  {
    if Duplicate(s, id, now) then
      s
    else if s.isSendingData then
      s
    else
      var s1 := OpenDoor(s.(isSendingData := true), now);
      s1.(lastValidatedId := id, lastValidationTime := now, isSendingData := false)
  }

  /** The periodic fingerprint check: skipped while an authentication is in
      progress or within CHECK_INTERVAL of the last check; otherwise, if a
      finger is on the sensor, one authentication runs with the in-progress
      flag raised and an accepted ID is handed on. */
  function TimerEvent(s: State, finger: bool, attempts: seq<Attempt>, now: nat): (r: State)
    requires StampsAtMost(s, now) && |attempts| == MAX_RETRY_ATTEMPTS
    ensures StampsAtMost(r, now)
    ensures s.authInProgress || now - s.lastCheck < CHECK_INTERVAL ==> r == s
    ensures !s.authInProgress && now - s.lastCheck >= CHECK_INTERVAL ==> r.lastCheck == now && !r.authInProgress
    ensures !s.authInProgress && now - s.lastCheck >= CHECK_INTERVAL && !finger ==> r == s.(lastCheck := now)
    ensures r.isDoorOpen != s.isDoorOpen || r.openedAt != s.openedAt ==>
              && finger && Authenticate(attempts, s.failures).verdict.Accepted?
              && r.isDoorOpen && r.openedAt == now
    ensures r.alarms == s.alarms || (r.alarms == s.alarms + 1 && r.failures == 0)
    ensures s.failures < MAX_CONSECUTIVE_FAILURES ==> r.failures < MAX_CONSECUTIVE_FAILURES
    ensures r.isSendingData == s.isSendingData
  {
    if s.authInProgress then
      s
    else if now - s.lastCheck < CHECK_INTERVAL then
      s
    else
      var s1 := s.(lastCheck := now);
      if !finger then
        s1
      else
        var s2 := s1.(authInProgress := true);
        var o := Authenticate(attempts, s2.failures);
        var s3 := s2.(failures := o.failures, alarms := if o.alarm then s2.alarms + 1 else s2.alarms);
        var s4 := if o.verdict.Accepted? then HandleAuthenticated(s3, o.verdict.id, now) else s3;
        s4.(authInProgress := false)
  }

  /** The door watchdog: it reopens a door that should be open but is not,
      and closes one that has been open for DOOR_INTERVAL. */
  function DoorControlEvent(s: State, now: nat): (r: State)
    requires StampsAtMost(s, now)
    ensures StampsAtMost(r, now)
    ensures r.isDoorOpen ==> now - r.openedAt < DOOR_INTERVAL
    ensures s.doorShouldOpen && !s.isDoorOpen ==> r.isDoorOpen && r.openedAt == now
    ensures s.isDoorOpen && now - s.openedAt >= DOOR_INTERVAL ==> !r.isDoorOpen && !r.doorShouldOpen
    ensures (s.doorShouldOpen <==> s.isDoorOpen) ==> (r.doorShouldOpen <==> r.isDoorOpen)
    ensures r.lastValidatedId == s.lastValidatedId && r.lastValidationTime == s.lastValidationTime
    ensures r.isSendingData == s.isSendingData && r.authInProgress == s.authInProgress
    ensures r.lastCheck == s.lastCheck && r.alarms == s.alarms
    ensures r.failures == s.failures || r.failures == 0
  {
    var s1 := if s.doorShouldOpen && !s.isDoorOpen then OpenDoor(s, now) else s;
    if s1.isDoorOpen && now - s1.openedAt >= DOOR_INTERVAL then CloseDoor(s1) else s1
  }

  /** The events of main1.cpp's scheduler: the 500 ms fingerprint timer (with
      whether a finger is present and what the three attempts would read)
      and the 100 ms door watchdog. */
  datatype Event = Timer(finger: bool, attempts: seq<Attempt>) | DoorCheck

  predicate WellFormed(e: Event) {
    e.Timer? ==> |e.attempts| == MAX_RETRY_ATTEMPTS
  }

  function Step(s: State, e: Event, now: nat): (r: State)
    requires StampsAtMost(s, now) && WellFormed(e)
    ensures StampsAtMost(r, now)
  {
    match e
    case Timer(finger, attempts) => TimerEvent(s, finger, attempts, now)
    case DoorCheck => DoorControlEvent(s, now)
  }

  /** Every event keeps the invariant. */
  lemma StepPreservesInv(s: State, e: Event, now: nat)
    requires Inv(s) && StampsAtMost(s, now) && WellFormed(e)
    ensures Inv(Step(s, e, now))
  {
    if e.Timer? && !s.authInProgress && now - s.lastCheck >= CHECK_INTERVAL && e.finger {
      var o := Authenticate(e.attempts, s.failures);
      var s3 := s.(lastCheck := now, authInProgress := true, failures := o.failures,
                   alarms := if o.alarm then s.alarms + 1 else s.alarms);
      if o.verdict.Accepted? {
        var s4 := HandleAuthenticated(s3, o.verdict.id, now);
        assert s4.doorShouldOpen <==> s4.isDoorOpen;
      }
    }
  }

  /** With the flags in step, the watchdog never has to force the door
      open: it only ever closes it, keeping the failure counter. */
  lemma WatchdogNeverReopens(s: State, now: nat)
    requires Inv(s) && StampsAtMost(s, now)
    ensures var r := DoorControlEvent(s, now);
            r.failures == s.failures && (r.isDoorOpen ==> r.openedAt == s.openedAt && s.isDoorOpen)
  {
  }

  /** A second validation of the same ID within the cooldown leaves the door
      timer alone. */
  lemma DuplicateScanKeepsTimer(s: State, id: nat, t1: nat, t2: nat)
    requires StampsAtMost(s, t1) && !s.isSendingData && !Duplicate(s, id, t1)
    requires t1 <= t2 < t1 + DUPLICATE_COOLDOWN
    ensures var s1 := HandleAuthenticated(s, id, t1);
            HandleAuthenticated(s1, id, t2) == s1
  {
  }

  /** The attempts of an authentication that counts as a failure: no hit
      reaches the threshold and the last attempt got as far as a search. */
  predicate CountedFailure(attempts: seq<Attempt>)
    requires |attempts| == MAX_RETRY_ATTEMPTS
  {
    && (forall i :: 0 <= i < |attempts| ==> !Good(attempts[i]))
    && !CaptureFailure(attempts[|attempts| - 1])
  }

  /** Three counted failures in a row, whatever each attempt read, sound the
      alarm once and start the counter over. */
  lemma ThirdFailureSoundsAlarm(a1: seq<Attempt>, a2: seq<Attempt>, a3: seq<Attempt>)
    requires |a1| == MAX_RETRY_ATTEMPTS && |a2| == MAX_RETRY_ATTEMPTS && |a3| == MAX_RETRY_ATTEMPTS
    requires CountedFailure(a1) && CountedFailure(a2) && CountedFailure(a3)
    ensures var o1 := Authenticate(a1, 0);
            var o2 := Authenticate(a2, o1.failures);
            var o3 := Authenticate(a3, o2.failures);
            && !o1.alarm && !o2.alarm && o3.alarm && o3.failures == 0
            && o1.failures == 1 && o2.failures == 2
            && !o1.verdict.Accepted? && !o2.verdict.Accepted? && !o3.verdict.Accepted?
  {
  }

  // ---------------------------------------------------------------------
  // Traces

  datatype Timed = Timed(event: Event, at: nat)

  predicate Chronological(s: State, trace: seq<Timed>) {
    && (|trace| > 0 ==> StampsAtMost(s, trace[0].at))
    && (forall i :: 0 < i < |trace| ==> trace[i - 1].at <= trace[i].at)
    && (forall i :: 0 <= i < |trace| ==> WellFormed(trace[i].event))
  }

  function Run(s: State, trace: seq<Timed>): (r: State)
    requires Chronological(s, trace)
    ensures r.alarms >= s.alarms
    decreases |trace|
  {
    if |trace| == 0 then s
    else
      var s1 := Step(s, trace[0].event, trace[0].at);
      assert Chronological(s1, trace[1..]) by {
        if |trace| > 1 {
          assert trace[0].at <= trace[1].at;
        }
        forall i | 0 < i < |trace[1..]|
          ensures trace[1..][i - 1].at <= trace[1..][i].at
        {
          assert trace[i].at <= trace[i + 1].at;
        }
        forall i | 0 <= i < |trace[1..]|
          ensures WellFormed(trace[1..][i].event)
        {
          assert WellFormed(trace[i + 1].event);
        }
      }
      Run(s1, trace[1..])
  }

  /** Between events the busy flags are always down and the counter below
      three, however the events interleave. */
  lemma {:induction false} RunPreservesInv(s: State, trace: seq<Timed>)
    requires Inv(s) && Chronological(s, trace)
    ensures Inv(Run(s, trace))
    decreases |trace|
  {
    if |trace| > 0 {
      StepPreservesInv(s, trace[0].event, trace[0].at);
      RunPreservesInv(Step(s, trace[0].event, trace[0].at), trace[1..]);
    }
  }
}
