// The DRV2605 haptics driver as values: what each routine does to the driver's data and to the chip. The names of the
// enumerators come from the driver; their numbers, and the two limits, are in a header that is not part of this model.
module Haptics {

  datatype WorkMode = WorkIdle | Vibrator | PatternOn | PatternOff | SeqOn | SeqOff | Rtp | SeqPlayback | Audio2Haptic | Calibration

  datatype DevMode = DevIdle | DevStandby | DevReady

  // The values the driver writes to the chip's MODE register.
  datatype ChipMode = ModeStandby | ModeRealTime | ModeAudio | ModeCalibration | ModeInternal

  // What the chip and the timer get to see.
  datatype Event =
    | ModeReg(mode: ChipMode)
    | RtpReg(value: nat)
    | GoReg(go: bool)
    | AcCouple(on: bool)
    | AnalogInput(on: bool)
    | Waveforms(sequence: seq<nat>)
    | Arm(milliseconds: nat)

  // struct drv2605_data, the chip's MODE register and GO bit, and the events so far.
  datatype Dev = Dev(
    work: WorkMode, dev: DevMode, playing: bool, shouldStop: bool, audioEnabled: bool,
    repeatTimes: int, vibrationTime: nat, silenceTime: nat,
    sequence: seq<nat>, rtpData: seq<nat>, rtpCounts: nat, rtpIndex: nat,
    mode: ChipMode, go: bool, log: seq<Event>)

  // MAX_TIMEOUT and MAX_RTP_SEQ.
  datatype Limits = Limits(timeout: nat, sequence: nat)

  // How a critical section ends: it may start the timer or schedule the work item.
  datatype Arming = NoArming | StartTimer(milliseconds: nat) | ScheduleWork

  datatype Command =
    | PlayEffect(copied: bool, sequence: seq<nat>)
    | PlayTimed(low: nat, high: nat)
    | PlayPattern(vibration: nat, silence: nat, strength: nat, repeat: nat)
    | PlaySequence(copied: bool, payload: seq<nat>)
    | StopPlaying
    | AudioEnable
    | AudioDisable
    | UnknownCommand
    | VibratorEnable(value: int)
    | Suspend

  function Logged(d: Dev, e: Event): Dev
  {
    d.(log := d.log + [e])
  }

  function WithMode(d: Dev, m: ChipMode): Dev
  {
    Logged(d, ModeReg(m)).(mode := m)
  }

  function WithGo(d: Dev, go: bool): Dev
  {
    Logged(d, GoReg(go)).(go := go)
  }

  // The MODE register value that belongs to a work mode.
  function ModeFor(w: WorkMode): ChipMode
  {
    match w
    case Vibrator | PatternOn | SeqOn | Rtp => ModeRealTime
    case Audio2Haptic => ModeAudio
    case Calibration => ModeCalibration
    case _ => ModeInternal
  }

  // The end of a critical section, as the timer sees it.
  function Armed(d: Dev, arm: Arming): Dev
  {
    if arm.StartTimer? then Logged(d, Arm(arm.milliseconds)) else d
  }

  // drv2605_change_mode
  function ChangeMode(d: Dev, w: WorkMode, m: DevMode): Dev
  {
    match m
    case DevIdle => d.(dev := DevIdle, work := w)
    case DevStandby => (if d.dev != DevStandby then WithMode(d.(dev := DevStandby), ModeStandby) else d).(work := WorkIdle)
    case DevReady =>
      if w != d.work || d.dev != DevReady then WithMode(d.(work := w, dev := DevReady), ModeFor(w)) else d
  }

  // The mode changes of drv2605_probe.
  function Probed(d: Dev, calibrate: bool): Dev
  {
    var d1 := ChangeMode(d, WorkIdle, DevReady);
    var d2 := if calibrate then ChangeMode(d1, Calibration, DevReady) else d1;
    ChangeMode(d2, WorkIdle, DevStandby)
  }

  // setAudioHapticsEnabled
  function SetAudio(d: Dev, enable: bool): Dev
  {
    if enable then
      if d.work != Audio2Haptic then
        ChangeMode(Logged(Logged(ChangeMode(d.(playing := true), WorkIdle, DevReady), AcCouple(true)), AnalogInput(true)),
                   Audio2Haptic, DevReady)
      else d
    else
      if d.work == Audio2Haptic then
        ChangeMode(Logged(Logged(ChangeMode(d.(playing := false), WorkIdle, DevReady), AcCouple(false)), AnalogInput(false)),
                   WorkIdle, DevStandby)
      else d
  }

  // vibrator_off
  function VibratorOff(d: Dev): Dev
  {
    if !d.playing then d
    else if d.audioEnabled then SetAudio(d, true)
    else ChangeMode(WithGo(d.(playing := false), false), WorkIdle, DevStandby)
  }

  // The work modes that drv2605_stop hands to vibrator_off.
  predicate Vibrates(w: WorkMode)
  {
    w in {Vibrator, PatternOn, PatternOff, SeqOn, SeqOff, Rtp}
  }

  // drv2605_stop
  function Stop(d: Dev): Dev
  {
    if !d.playing then d
    else if d.work == Audio2Haptic then SetAudio(d, false)
    else if Vibrates(d.work) then VibratorOff(d)
    else d
  }

  // play_effect up to the wait for the GO bit, and from its end.
  function EffectStart(d: Dev): Dev
  {
    var d1 := ChangeMode(d, SeqPlayback, DevReady);
    WithGo(Logged(d1, Waveforms(d1.sequence)).(playing := true), true)
  }

  function EffectEnd(d: Dev): Dev
  {
    var d1 := if d.shouldStop then WithGo(d, false) else d;
    if d1.audioEnabled then SetAudio(d1, true)
    else ChangeMode(d1, WorkIdle, DevStandby).(playing := false)
  }

  // play_Pattern_RTP
  function PatternWork(d: Dev): (Dev, Arming)
  {
    if d.work == PatternOn then
      var d1 := ChangeMode(d, PatternOff, DevReady);
      if d1.repeatTimes == 0 then (ChangeMode(d1, WorkIdle, DevStandby).(playing := false), NoArming)
      else (d1, StartTimer(d1.silenceTime))
    else if d.work == PatternOff then
      (ChangeMode(d.(repeatTimes := d.repeatTimes - 1), PatternOn, DevReady),
       StartTimer(d.vibrationTime))
    else (d, NoArming)
  }

  // RTPData[i]; what lies behind the data sent is zero.
  function RtpWord(d: Dev, i: nat): nat
  {
    if i < |d.rtpData| then d.rtpData[i] else 0
  }

  // play_Seq_RTP
  function SequenceWork(d: Dev): (Dev, Arming)
  {
    if d.rtpIndex < d.rtpCounts then
      var word := RtpWord(d, d.rtpIndex);
      (Logged(ChangeMode(d.(playing := true, rtpIndex := d.rtpIndex + 1), SeqOn, DevReady), RtpReg(word % 256)),
       StartTimer(word / 256))
    else
      (ChangeMode(d, WorkIdle, DevStandby).(playing := false), NoArming)
  }

  // vibrator_work_routine, except that play_effect goes on for longer (EffectStart, EffectEnd).
  function WorkSection(d: Dev): (Dev, Arming)
    requires d.work != SeqPlayback
  {
    match d.work
    case Vibrator | Rtp => (VibratorOff(d), NoArming)
    case PatternOn | PatternOff => PatternWork(d)
    case SeqOn | SeqOff => SequenceWork(d)
    case _ => (d, NoArming)
  }

  function Min(a: nat, b: nat): (r: nat)
    ensures r <= a && r <= b && (r == a || r == b)
  {
    if a < b then a else b
  }

  // The 16-bit words of an RTP sequence, low byte first.
  function Words(payload: seq<nat>): (w: seq<nat>)
    ensures |w| == |payload| / 2
  {
    if |payload| < 2 then [] else [payload[0] + 256 * payload[1]] + Words(payload[2..])
  }

  // HAPTIC_CMDID_PATTERN_RTP
  function StartPattern(d: Dev, vibration: nat, silence: nat, strength: nat, repeat: nat, lim: Limits): (Dev, Arming)
  {
    var d1 := d.(vibrationTime := vibration, silenceTime := silence, repeatTimes := repeat);
    if vibration > 0 then
      var d2 := d1.(playing := true, repeatTimes := if repeat > 0 then repeat - 1 else repeat,
                    vibrationTime := Min(vibration, lim.timeout));
      (Logged(ChangeMode(d2, PatternOn, DevReady), RtpReg(strength)), StartTimer(d2.vibrationTime))
    else (d1, NoArming)
  }

  // HAPTIC_CMDID_RTP_SEQUENCE
  function StartSequence(d: Dev, copied: bool, payload: seq<nat>, lim: Limits): (Dev, Arming)
  {
    var d1 := d.(rtpData := [], rtpCounts := 0, rtpIndex := 0);
    if |payload| % 2 == 0 then
      var d2 := d1.(rtpCounts := |payload| / 2);
      if 0 < d2.rtpCounts <= lim.sequence && copied then
        (ChangeMode(d2.(rtpData := Words(payload)), SeqOff, DevIdle), ScheduleWork)
      else (d2, NoArming)
    else (d1, NoArming)
  }

  // What a command does once drv2605_stop has been called.
  function Perform(d: Dev, cmd: Command, lim: Limits): (Dev, Arming)
  {
    match cmd
    case PlayEffect(copied, sequence) =>
      if copied then (ChangeMode(d.(sequence := sequence, shouldStop := false), SeqPlayback, DevIdle), ScheduleWork)
      else (d.(sequence := []), NoArming)
    case PlayTimed(low, high) =>
      var value := low + 256 * high;
      if value > 0 then (ChangeMode(d.(playing := true), Rtp, DevReady), StartTimer(Min(value, lim.timeout)))
      else (d, NoArming)
    case PlayPattern(vibration, silence, strength, repeat) => StartPattern(d, vibration, silence, strength, repeat, lim)
    case PlaySequence(copied, payload) => StartSequence(d, copied, payload, lim)
    case AudioEnable => (SetAudio(d.(audioEnabled := true), true), NoArming)
    case AudioDisable => (d.(audioEnabled := false), NoArming)
    case VibratorEnable(value) =>
      if value > 0 then (ChangeMode(d, Vibrator, DevReady).(playing := true), StartTimer(Min(value, lim.timeout)))
      else (d, NoArming)
    case _ => (d, NoArming)
  }

  // The critical section of a command, of vibrator_enable, or of suspending.
  function Section(d: Dev, cmd: Command, lim: Limits): (Dev, Arming)
  {
    Perform(Stop(d), cmd, lim)
  }

  // drv2605_late_resume
  function Resume(d: Dev): Dev
  {
    if d.audioEnabled then SetAudio(d, true) else d
  }

  // The mode cache is right: a mode that change_mode may skip writing is the mode the chip is in.
  predicate CachedMode(work: WorkMode, dev: DevMode, mode: ChipMode)
  {
    && (dev == DevReady ==> mode == ModeFor(work))
    && (dev == DevStandby ==> mode == ModeStandby && work == WorkIdle)
  }

  predicate Cached(d: Dev)
  {
    CachedMode(d.work, d.dev, d.mode)
  }

  predicate CoherentModes(work: WorkMode, dev: DevMode, playing: bool, mode: ChipMode)
  {
    && CachedMode(work, dev, mode)
    && (dev == DevIdle ==> mode != ModeRealTime && (work == SeqPlayback || work == SeqOff))
    && (dev == DevReady && Vibrates(work) ==> playing)
    && (work == Audio2Haptic ==> dev == DevReady)
    && (mode == ModeAudio ==> playing)
    && work != Calibration
    && (dev == DevReady ==> work != WorkIdle)
  }

  // What holds whenever nobody is inside a critical section.
  predicate Coherent(d: Dev)
  {
    CoherentModes(d.work, d.dev, d.playing, d.mode)
  }

  // drv2605_change_mode keeps the cache right and, whether or not it writes, leaves the chip in the mode asked for.
  lemma ChangeModeIsSound(d: Dev, w: WorkMode, m: DevMode)
    requires Cached(d)
    ensures Cached(ChangeMode(d, w, m))
    ensures m == DevReady ==> ChangeMode(d, w, m).mode == ModeFor(w)
    ensures m == DevStandby ==> ChangeMode(d, w, m).mode == ModeStandby
    ensures m == DevIdle ==> ChangeMode(d, w, m).mode == d.mode
  {
  }

  // After drv2605_probe, whatever the zeroed fields mean and whatever mode the chip woke up in, cache and chip agree.
  lemma ProbeIsCoherent(d: Dev, calibrate: bool)
    ensures Coherent(Probed(d, calibrate)) && Probed(d, calibrate).mode == ModeStandby
  {
  }

  lemma SetAudioIsCoherent(d: Dev, enable: bool)
    requires Coherent(d)
    ensures Coherent(SetAudio(d, enable))
    ensures enable ==> SetAudio(d, enable).mode == ModeAudio
    ensures !enable && d.work == Audio2Haptic ==> SetAudio(d, enable).mode == ModeStandby
    ensures SetAudio(d, enable).go == d.go && SetAudio(d, enable).audioEnabled == d.audioEnabled
    ensures SetAudio(d, enable).dev == DevReady ==> SetAudio(d, enable).work == Audio2Haptic || SetAudio(d, enable) == d
  {
    if enable && d.work != Audio2Haptic {
      var d1 := ChangeMode(d.(playing := true), WorkIdle, DevReady);
      var d2 := ChangeMode(Logged(Logged(d1, AcCouple(true)), AnalogInput(true)), Audio2Haptic, DevReady);
      assert d1.work == WorkIdle && d1.playing && d1.go == d.go && d1.audioEnabled == d.audioEnabled;
      assert d2.work == Audio2Haptic && d2.dev == DevReady && d2.mode == ModeAudio && d2.playing;
      assert SetAudio(d, enable) == d2;
    } else if !enable && d.work == Audio2Haptic {
      var d1 := ChangeMode(d.(playing := false), WorkIdle, DevReady);
      var d2 := ChangeMode(Logged(Logged(d1, AcCouple(false)), AnalogInput(false)), WorkIdle, DevStandby);
      assert d1.dev == DevReady && d1.go == d.go && d1.audioEnabled == d.audioEnabled;
      assert d2.work == WorkIdle && d2.dev == DevStandby && d2.mode == ModeStandby;
      assert SetAudio(d, enable) == d2;
    }
  }

  // Ending a vibration leaves the chip in standby, or back in audio-to-haptics when that is on.
  lemma VibratorOffIsCoherent(d: Dev)
    requires Coherent(d) && d.playing
    ensures Coherent(VibratorOff(d))
    ensures VibratorOff(d).mode == if d.audioEnabled then ModeAudio else ModeStandby
    ensures VibratorOff(d).go ==> d.go
    ensures VibratorOff(d).dev == DevReady ==> VibratorOff(d).work == Audio2Haptic
  {
    if d.audioEnabled {
      SetAudioIsCoherent(d, true);
    }
  }

  // Stopping always ends real-time playback.
  lemma StopIsCoherent(d: Dev)
    requires Coherent(d)
    ensures Coherent(Stop(d)) && Stop(d).mode != ModeRealTime
    ensures Stop(d).dev == DevReady ==> Stop(d).work == Audio2Haptic || (d == Stop(d) && d.work == SeqPlayback)
    ensures Stop(d).go ==> d.go
  {
    if d.playing && d.work == Audio2Haptic {
      SetAudioIsCoherent(d, false);
    } else if d.playing && Vibrates(d.work) {
      VibratorOffIsCoherent(d);
    }
  }

  lemma PatternStartIsCoherent(d: Dev, vibration: nat, silence: nat, strength: nat, repeat: nat, lim: Limits)
    requires Coherent(d) && d.mode != ModeRealTime
    ensures
      var (e, arm) := StartPattern(d, vibration, silence, strength, repeat, lim);
      Coherent(e) && (e.mode == ModeRealTime ==> arm.StartTimer?) && e.go == d.go
  {
  }

  lemma SequenceStartIsCoherent(d: Dev, copied: bool, payload: seq<nat>, lim: Limits)
    requires Coherent(d) && d.mode != ModeRealTime
    ensures
      var (e, arm) := StartSequence(d, copied, payload, lim);
      Coherent(e) && e.mode == d.mode && e.go == d.go
  {
  }

  lemma EffectRequestIsCoherent(d: Dev, copied: bool, sequence: seq<nat>, lim: Limits)
    requires Coherent(d) && d.mode != ModeRealTime
    ensures
      var (e, arm) := Perform(d, PlayEffect(copied, sequence), lim);
      Coherent(e) && e.mode == d.mode && e.go == d.go
  {
  }

  lemma TimedStartIsCoherent(d: Dev, low: nat, high: nat, lim: Limits)
    requires Coherent(d) && d.mode != ModeRealTime
    ensures
      var (e, arm) := Perform(d, PlayTimed(low, high), lim);
      Coherent(e) && (e.mode == ModeRealTime ==> arm.StartTimer?) && e.go == d.go
  {
  }

  lemma EnableStartIsCoherent(d: Dev, value: int, lim: Limits)
    requires Coherent(d) && d.mode != ModeRealTime
    ensures
      var (e, arm) := Perform(d, VibratorEnable(value), lim);
      Coherent(e) && (e.mode == ModeRealTime ==> arm.StartTimer?) && e.go == d.go
  {
  }

  lemma AudioStartIsCoherent(d: Dev, lim: Limits)
    requires Coherent(d)
    ensures
      var (e, arm) := Perform(d, AudioEnable, lim);
      Coherent(e) && e.mode == ModeAudio && e.go == d.go
  {
    SetAudioIsCoherent(d.(audioEnabled := true), true);
  }

  // What a command may leave: the invariant, and no vibration without its timer.
  predicate Started(d: Dev, e: Dev, arm: Arming)
  {
    Coherent(e) && (e.mode == ModeRealTime ==> arm.StartTimer?) && e.go == d.go
  }

  lemma PerformIsCoherent(d: Dev, cmd: Command, lim: Limits)
    requires Coherent(d) && d.mode != ModeRealTime
    ensures Started(d, Perform(d, cmd, lim).0, Perform(d, cmd, lim).1)
  {
    match cmd
    case PlayEffect(copied, sequence) => EffectRequestIsCoherent(d, copied, sequence, lim);
    case PlayTimed(low, high) => TimedStartIsCoherent(d, low, high, lim);
    case PlayPattern(vibration, silence, strength, repeat) => PatternStartIsCoherent(d, vibration, silence, strength, repeat, lim);
    case PlaySequence(copied, payload) => SequenceStartIsCoherent(d, copied, payload, lim);
    case AudioEnable => AudioStartIsCoherent(d, lim);
    case VibratorEnable(value) => EnableStartIsCoherent(d, value, lim);
    case _ =>
  }

  // A command's section keeps the invariant, and a motor it starts has its timer started with it.
  lemma SectionIsCoherent(d: Dev, cmd: Command, lim: Limits)
    requires Coherent(d)
    ensures Coherent(Section(d, cmd, lim).0)
    ensures Section(d, cmd, lim).0.mode == ModeRealTime ==> Section(d, cmd, lim).1.StartTimer?
    ensures Section(d, cmd, lim).0.go ==> d.go
  {
    StopIsCoherent(d);
    PerformIsCoherent(Stop(d), cmd, lim);
  }

  lemma PatternWorkIsCoherent(d: Dev)
    requires Coherent(d) && (d.work == PatternOn || d.work == PatternOff)
    ensures Coherent(PatternWork(d).0)
    ensures PatternWork(d).0.mode == ModeRealTime ==> PatternWork(d).1.StartTimer?
    ensures PatternWork(d).0.go == d.go
  {
  }

  lemma SequenceWorkIsCoherent(d: Dev)
    requires Coherent(d) && (d.work == SeqOn || d.work == SeqOff)
    ensures Coherent(SequenceWork(d).0)
    ensures SequenceWork(d).0.mode == ModeRealTime ==> SequenceWork(d).1.StartTimer?
    ensures SequenceWork(d).0.go == d.go
  {
    if d.rtpIndex < d.rtpCounts {
      var e := ChangeMode(d.(playing := true, rtpIndex := d.rtpIndex + 1), SeqOn, DevReady);
      assert e.work == SeqOn && e.dev == DevReady && e.playing && e.mode == ModeRealTime && e.go == d.go;
    }
  }

  // So does a run of the work item.
  lemma WorkSectionIsCoherent(d: Dev)
    requires Coherent(d) && d.work != SeqPlayback
    ensures Coherent(WorkSection(d).0)
    ensures WorkSection(d).0.mode == ModeRealTime ==> WorkSection(d).1.StartTimer?
    ensures WorkSection(d).0.go ==> d.go
  {
    match d.work
    case Vibrator | Rtp =>
      if d.playing {
        VibratorOffIsCoherent(d);
      }
    case PatternOn | PatternOff => PatternWorkIsCoherent(d);
    case SeqOn | SeqOff => SequenceWorkIsCoherent(d);
    case _ =>
  }

  lemma EffectIsCoherent(d: Dev)
    requires Coherent(d) && d.work == SeqPlayback
    ensures Coherent(EffectStart(d)) && EffectStart(d).mode == ModeInternal
    ensures EffectStart(d).work == SeqPlayback && EffectStart(d).dev == DevReady
    ensures EffectStart(d).go && EffectStart(d).playing
    ensures d.dev == DevIdle ==> EffectStart(d).log == d.log + [ModeReg(ModeInternal), Waveforms(d.sequence), GoReg(true)]
    ensures d.dev == DevReady ==> Coherent(EffectEnd(d)) && EffectEnd(d).mode != ModeRealTime
    ensures d.shouldStop || !d.go ==> !EffectEnd(d).go
  {
    if d.dev == DevReady && d.audioEnabled {
      SetAudioIsCoherent(if d.shouldStop then WithGo(d, false) else d, true);
    }
  }

  // The state in which play_effect stops waiting: the chip has finished or a stop was asked for, and nothing else changed.
  predicate EffectWaited(d: Dev, finished: Dev)
  {
    && finished == EffectStart(d).(go := finished.go, shouldStop := finished.shouldStop)
    && (!finished.go || finished.shouldStop)
  }

  lemma WaitedIsCoherent(d: Dev, finished: Dev)
    requires Coherent(d) && d.work == SeqPlayback && EffectWaited(d, finished)
    ensures Coherent(EffectEnd(finished)) && EffectEnd(finished).mode != ModeRealTime && !EffectEnd(finished).go
  {
    EffectIsCoherent(d);
    EffectIsCoherent(finished);
  }

  lemma ResumeIsCoherent(d: Dev)
    requires Coherent(d)
    ensures Coherent(Resume(d))
    ensures Resume(d).mode == ModeRealTime ==> Resume(d) == d
    ensures Resume(d).go == d.go
  {
  }

  // Turning audio-to-haptics off does take the chip out of that mode, except in two situations: a vibration was playing
  // with audio-to-haptics on, which stopping it switches back to; or an effect was waiting to be played over it.
  lemma AudioDisableLeavesAudio(d: Dev, lim: Limits)
    requires Coherent(d)
    ensures Section(d, AudioDisable, lim).0.mode == ModeAudio
            <==> (d.playing && d.audioEnabled && Vibrates(d.work)) || (d.work == SeqPlayback && d.mode == ModeAudio)
  {
    StopIsCoherent(d);
    if d.playing && Vibrates(d.work) {
      VibratorOffIsCoherent(d);
    } else if d.playing && d.work == Audio2Haptic {
      SetAudioIsCoherent(d, false);
    }
  }
}
