/**
  The safety arbiter and the automation engine of src/main.cpp: sensor
  sampling, the overheat trip with its 5-degree release band, darkness
  lighting, fan hysteresis and the sound-triggered guest window.
 */
module Safety {
  import opened Options
  import opened ArbiterState

  /** One sensor read: a failed temperature read keeps the last value;
      the light level is always re-read. */
  function ReadSensors(s: State, reading: Option<int>, light: int): (r: State)
    ensures r.climate.isDark <==> light > LDR_DARK_THRESHOLD
    ensures reading.Some? ==> r.climate.temperature == reading.value
    ensures reading.None? ==> r.climate.temperature == s.climate.temperature
    ensures r.climate.overheated == s.climate.overheated && r.climate.fanRunning == s.climate.fanRunning
    ensures r.(climate := s.climate) == s
  {
    var t := match reading
      case Some(v) => v
      case None => s.climate.temperature;
    s.(climate := s.climate.(temperature := t, isDark := light > LDR_DARK_THRESHOLD))
  }

  /** Trips at TEMP_WARNING_THRESHOLD, forcing the door shut, the lamp off and
      the fan on; releases only below TEMP_RELEASE_THRESHOLD. */
  function OverheatProtection(s: State): (r: State)
    ensures r.climate.overheated <==>
              s.climate.temperature >= TEMP_WARNING_THRESHOLD
              || (s.climate.overheated && s.climate.temperature >= TEMP_RELEASE_THRESHOLD)
    ensures !s.climate.overheated && r.climate.overheated ==>
              !r.door.unlocked && r.climate.fanRunning && !r.ambient.lamp && r.display == OverheatWarning
    ensures s.climate.overheated && r.climate.overheated ==> r == s
    ensures s.climate.overheated && !r.climate.overheated ==>
              r == s.(climate := s.climate.(overheated := false), display := Welcome)
    ensures r.door.unlocked ==> s.door.unlocked
    ensures r.door.led == s.door.led && r.door.openedAt == s.door.openedAt
    ensures r.climate.temperature == s.climate.temperature && r.climate.isDark == s.climate.isDark
    ensures r.session == s.session && r.lockout == s.lockout && r.log == s.log
    ensures r.admin == s.admin && r.user == s.user && r.lastDisplayUpdate == s.lastDisplayUpdate
    ensures r.ambient == s.ambient.(lamp := r.ambient.lamp)
  {
    var s1 :=
      if s.climate.temperature >= TEMP_WARNING_THRESHOLD && !s.climate.overheated then
        s.(climate := s.climate.(overheated := true, fanRunning := true),
           ambient := s.ambient.(lamp := false),
           door := s.door.(unlocked := false),
           display := OverheatWarning)
      else
        s;
    if s1.climate.overheated && s1.climate.temperature < TEMP_RELEASE_THRESHOLD then
      s1.(climate := s1.climate.(overheated := false), display := Welcome)
    else
      s1
  }

  /** The lamp decision for darkness: on when dark, off when bright, but only
      while the guest window does not own the lamp, and never switched on
      for darkness while overheated. */
  function DarknessLamp(a: Ambient, c: Climate): (lamp: bool)
    ensures !a.soundLightOn && !c.overheated ==> (lamp <==> c.isDark)
    ensures a.soundLightOn ==> lamp == a.lamp
    ensures c.overheated && lamp ==> a.lamp
  {
    if c.isDark && !a.soundLightOn && !c.overheated then true
    else if !c.isDark && !a.soundLightOn then false
    else a.lamp
  }

  /** The fan starts at TEMP_FAN_THRESHOLD (unless the overheat trip already
      forced it) and stops only below TEMP_FAN_RELEASE. */
  function FanControl(c: Climate): (r: Climate)
    ensures r.fanRunning <==>
              (c.temperature >= TEMP_FAN_THRESHOLD && !c.overheated)
              || (c.fanRunning && c.temperature >= TEMP_FAN_RELEASE)
    ensures r == c.(fanRunning := r.fanRunning)
  {
    if c.temperature >= TEMP_FAN_THRESHOLD && !c.fanRunning && !c.overheated then
      c.(fanRunning := true)
    else if c.temperature < TEMP_FAN_RELEASE && c.fanRunning then
      c.(fanRunning := false)
    else
      c
  }

  /** Lighting, fan and the guest window for one loop iteration: a sound
      opens a SOUND_LIGHT_DURATION window (lighting the lamp when dark, even
      while overheated), which closes once that time has passed. */
  function Automation(s: State, sound: bool, now: nat): (r: State)
    requires StampsAtMost(s, now)
    ensures StampsAtMost(r, now)
    ensures r.climate.fanRunning <==>
              (s.climate.temperature >= TEMP_FAN_THRESHOLD && !s.climate.overheated)
              || (s.climate.fanRunning && s.climate.temperature >= TEMP_FAN_RELEASE)
    ensures sound ==>
              r.ambient.soundLightOn && r.ambient.soundLed && r.ambient.guestDetected
              && r.ambient.soundLightStart == now
    ensures sound && s.climate.isDark ==> r.ambient.lamp
    ensures !sound && s.ambient.soundLightOn ==>
              (r.ambient.soundLightOn <==> now - s.ambient.soundLightStart < SOUND_LIGHT_DURATION)
    ensures !sound && !s.ambient.soundLightOn ==>
              !r.ambient.soundLightOn && r.ambient.soundLed == s.ambient.soundLed
    ensures !sound && !s.ambient.soundLightOn && !s.climate.overheated ==>
              (r.ambient.lamp <==> s.climate.isDark)
    ensures s.climate.overheated && !sound && r.ambient.lamp ==> s.ambient.lamp
    ensures s.ambient.soundLed == s.ambient.soundLightOn ==> r.ambient.soundLed == r.ambient.soundLightOn
    ensures r.climate == s.climate.(fanRunning := r.climate.fanRunning)
    ensures r.door == s.door && r.session == s.session && r.lockout == s.lockout && r.log == s.log
    ensures r.admin == s.admin && r.user == s.user && r.lastDisplayUpdate == s.lastDisplayUpdate
    ensures r.display == SystemLockedScreen <==> s.display == SystemLockedScreen
  {
    var s1 := s.(ambient := s.ambient.(lamp := DarknessLamp(s.ambient, s.climate)));
    var s2 := s1.(climate := FanControl(s1.climate));
    var s3 :=
      if sound then
        s2.(ambient := s2.ambient.(soundLed := true, guestDetected := true, soundLightOn := true,
                                   soundLightStart := now,
                                   lamp := if s2.climate.isDark then true else s2.ambient.lamp),
            display := if s2.display == Welcome || s2.display == SensorInfo then GuestDetected
                       else s2.display)
      else
        s2;
    if s3.ambient.soundLightOn && now - s3.ambient.soundLightStart >= SOUND_LIGHT_DURATION then
      s3.(ambient := s3.ambient.(soundLightOn := false, soundLed := false,
                                 lamp := if !s3.climate.isDark then false else s3.ambient.lamp,
                                 guestDetected := if s3.display == GuestDetected then false
                                                  else s3.ambient.guestDetected),
          display := if s3.display == GuestDetected then Welcome else s3.display)
    else
      s3
  }
}
