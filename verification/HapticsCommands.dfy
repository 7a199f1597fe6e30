// What each command makes the chip do, said outright: the registers written, the timers started, and where it all ends.
module HapticsCommands {
  import opened Haptics
  import opened HapticsTraces
  import opened HapticsSystem
  import opened HapticsPlayback

  // The chip is in audio-to-haptics, and this is what happened.
  predicate InAudio(d: Dev, log: seq<Event>)
  {
    d.dev == DevReady && d.work == Audio2Haptic && d.mode == ModeAudio && d.playing && d.log == log
  }

  // Switching audio-to-haptics on, seen from the chip: out of the mode it is in, the two settings, and into the new mode.
  const AudioOn: seq<Event> := [ModeReg(ModeInternal), AcCouple(true), AnalogInput(true), ModeReg(ModeAudio)]

  // Playback is over: back in audio-to-haptics if that is enabled, and otherwise, after `closing`, in standby.
  predicate Rested(d: Dev, audio: bool, before: seq<Event>, closing: seq<Event>)
  {
    if audio then InAudio(d, before + AudioOn) else Over(d, before + closing)
  }

  lemma AudioSwitchedOn(d: Dev)
    requires Coherent(d)
    ensures InAudio(SetAudio(d, true), if d.work == Audio2Haptic then d.log else d.log + AudioOn)
    ensures SetAudio(d, true).go == d.go && SetAudio(d, true).audioEnabled == d.audioEnabled
  {
    if d.work != Audio2Haptic {
      var d1 := ChangeMode(d.(playing := true), WorkIdle, DevReady);
      assert d1.log == d.log + [ModeReg(ModeInternal)];
      var d2 := Logged(Logged(d1, AcCouple(true)), AnalogInput(true));
      assert d2.log == d.log + [ModeReg(ModeInternal), AcCouple(true), AnalogInput(true)];
      var d3 := ChangeMode(d2, Audio2Haptic, DevReady);
      assert d3.log == d.log + AudioOn;
      assert SetAudio(d, true) == d3;
    }
  }

  lemma AudioSwitchedOff(d: Dev)
    requires Coherent(d) && d.work == Audio2Haptic
    ensures Over(SetAudio(d, false),
                 d.log + [ModeReg(ModeInternal), AcCouple(false), AnalogInput(false), ModeReg(ModeStandby)])
  {
    var d1 := ChangeMode(d.(playing := false), WorkIdle, DevReady);
    assert d1.log == d.log + [ModeReg(ModeInternal)];
    var d2 := Logged(Logged(d1, AcCouple(false)), AnalogInput(false));
    assert d2.log == d.log + [ModeReg(ModeInternal), AcCouple(false), AnalogInput(false)];
    var d3 := ChangeMode(d2, WorkIdle, DevStandby);
    assert SetAudio(d, false) == d3;
  }

  // What stopping shows the chip. A vibration ends in standby, or in audio-to-haptics if that is enabled; audio-to-haptics
  // itself ends in standby; a waveform is left to the work item.
  lemma StopTrace(d: Dev)
    requires Coherent(d)
    ensures !d.playing || (d.work != Audio2Haptic && !Vibrates(d.work)) ==> Stop(d) == d
    ensures d.playing && d.work == Audio2Haptic ==>
              Over(Stop(d), d.log + [ModeReg(ModeInternal), AcCouple(false), AnalogInput(false), ModeReg(ModeStandby)])
    ensures d.playing && Vibrates(d.work) && d.audioEnabled ==>
              InAudio(Stop(d), d.log + [ModeReg(ModeInternal), AcCouple(true), AnalogInput(true), ModeReg(ModeAudio)])
    ensures d.playing && Vibrates(d.work) && !d.audioEnabled ==>
              Over(Stop(d), d.log + [GoReg(false), ModeReg(ModeStandby)])
    ensures Stop(d).audioEnabled == d.audioEnabled
  {
    if d.playing && d.work == Audio2Haptic {
      AudioSwitchedOff(d);
    } else if d.playing && Vibrates(d.work) && d.audioEnabled {
      AudioSwitchedOn(d);
    }
  }

  // A late resume brings audio-to-haptics back if it is enabled, and does nothing otherwise.
  lemma ResumeTrace(d: Dev)
    requires Coherent(d)
    ensures d.audioEnabled && d.work != Audio2Haptic ==>
              InAudio(Resume(d), d.log + [ModeReg(ModeInternal), AcCouple(true), AnalogInput(true), ModeReg(ModeAudio)])
    ensures d.audioEnabled && d.work == Audio2Haptic ==> InAudio(d, d.log) && Resume(d) == d
    ensures !d.audioEnabled ==> Resume(d) == d
  {
    if d.audioEnabled {
      AudioSwitchedOn(d);
    }
  }

  // Suspending takes the chip out of audio-to-haptics and resuming puts it back, if nothing else was going on.
  lemma AudioSurvivesSuspend(d: Dev, lim: Limits)
    requires Coherent(d) && d.audioEnabled && d.work == Audio2Haptic
    ensures
      var asleep := Section(d, Suspend, lim).0;
      && asleep.mode == ModeStandby
      && Resume(asleep).mode == ModeAudio && Resume(asleep).work == Audio2Haptic && Resume(asleep).audioEnabled
  {
    StopTrace(d);
    StopIsCoherent(d);
    ResumeTrace(Stop(d));
  }

  // Enabling audio-to-haptics ends in it; disabling is remembered.
  lemma AudioCommandTrace(d: Dev, lim: Limits)
    requires Coherent(d)
    ensures
      var (on, arm) := Section(d, AudioEnable, lim);
      && arm == NoArming && on.audioEnabled
      && InAudio(on, Stop(d).log + if Stop(d).work == Audio2Haptic then []
                                   else [ModeReg(ModeInternal), AcCouple(true), AnalogInput(true), ModeReg(ModeAudio)])
    ensures !Section(d, AudioDisable, lim).0.audioEnabled
  {
    StopIsCoherent(d);
    AudioSwitchedOn(Stop(d).(audioEnabled := true));
  }

  // The mode changes of drv2605_probe: awake, calibrating if need be, and standby. The first write may be skipped only if the
  // zeroed fields happen to say that the chip is awake.
  lemma ProbeTrace(d: Dev, calibrate: bool)
    ensures Probed(d, calibrate).log
            == d.log + (if d.work == WorkIdle && d.dev == DevReady then [] else [ModeReg(ModeInternal)])
                     + (if calibrate then [ModeReg(ModeCalibration)] else [])
                     + [ModeReg(ModeStandby)]
    ensures Probed(d, calibrate).dev == DevStandby && Probed(d, calibrate).work == WorkIdle
  {
    var d1 := ChangeMode(d, WorkIdle, DevReady);
    assert d1.log == d.log + if d.work == WorkIdle && d.dev == DevReady then [] else [ModeReg(ModeInternal)];
    var d2 := if calibrate then ChangeMode(d1, Calibration, DevReady) else d1;
    assert d2.log == d1.log + if calibrate then [ModeReg(ModeCalibration)] else [];
  }

  // The commands that start nothing: those that only stop, and those that ask for nothing or cannot be read.
  predicate Refused(cmd: Command, lim: Limits)
  {
    match cmd
    case PlayEffect(copied, _) => !copied
    case PlayTimed(low, high) => low == 0 && high == 0
    case PlayPattern(vibration, _, _, _) => vibration == 0
    case PlaySequence(copied, payload) =>
      !copied || |payload| % 2 == 1 || |payload| == 0 || |payload| > 2 * lim.sequence
    case AudioEnable => false
    case VibratorEnable(value) => value <= 0
    case _ => true
  }

  // They do what stopping does and no more; every other one starts the timer, the work item or audio-to-haptics.
  lemma OnlyStops(d: Dev, cmd: Command, lim: Limits)
    requires Coherent(d)
    ensures
      var (e, arm) := Section(d, cmd, lim);
      && (arm == NoArming <==> Refused(cmd, lim) || cmd == AudioEnable)
      && (Refused(cmd, lim) ==>
            && e.log == Stop(d).log && e.mode == Stop(d).mode && e.go == Stop(d).go
            && e.work == Stop(d).work && e.dev == Stop(d).dev && e.playing == Stop(d).playing)
  {
  }

  // How a caller gets to its section while the work item sleeps: the request, and the two cancellations, after which neither
  // the timer nor the work item of an earlier command can come between.
  lemma CallerGetsIn(s: State, i: nat, cmd: Command, lim: Limits)
    requires Safe(s) && Alone(s) && s.worker.Asleep? && i < |s.callers|
    ensures Enabled(s, Request(i, cmd))
    ensures
      var asked := Next(s, Request(i, cmd), lim);
      && Enabled(asked, CancelTimer(i))
      && Enabled(Next(asked, CancelTimer(i), lim), CancelWork(i))
      && var cancelled := Next(Next(asked, CancelTimer(i), lim), CancelWork(i), lim);
         Entering(cancelled, i, cmd) && cancelled.d == s.d.(shouldStop := true)
  {
    var asked := Next(s, Request(i, cmd), lim);
    StepIsSafe(s, Request(i, cmd), lim);
    var untimed := Next(asked, CancelTimer(i), lim);
    StepIsSafe(asked, CancelTimer(i), lim);
    StepIsSafe(untimed, CancelWork(i), lim);
  }

  // A timed vibration k steps after it was begun: it vibrates, the timer fires, the work item is picked, ends the vibration,
  // and leaves.
  predicate VibratesAt(s: State, before: seq<Event>, ms: nat, audio: bool, k: nat)
  {
    var log := before + [ModeReg(ModeRealTime), Arm(ms)];
    && Alone(s) && !s.d.go && k <= 4
    && s.armed == (k == 0) && s.pending == (k == 1)
    && s.worker == (if k == 2 then Picked else if k == 3 then Concluding(NoArming) else Asleep)
    && if k <= 2 then Vibration(s.d, audio, log) else Rested(s.d, audio, log, [GoReg(false), ModeReg(ModeStandby)])
  }

  predicate Vibration(d: Dev, audio: bool, log: seq<Event>)
  {
    && (d.work == Rtp || d.work == Vibrator) && d.dev == DevReady && d.mode == ModeRealTime && d.playing
    && d.audioEnabled == audio && d.log == log
  }

  lemma VibrationEnds(d: Dev)
    requires Vibration(d, d.audioEnabled, d.log) && !d.go
    ensures WorkSection(d).1 == NoArming && !WorkSection(d).0.go
    ensures Rested(WorkSection(d).0, d.audioEnabled, d.log, [GoReg(false), ModeReg(ModeStandby)])
  {
    if d.audioEnabled {
      AudioSwitchedOn(d);
    } else {
      assert VibratorOff(d).log == d.log + [GoReg(false), ModeReg(ModeStandby)];
    }
  }

  lemma VibratesOn(s: State, t: Step, lim: Limits, before: seq<Event>, ms: nat, audio: bool, k: nat)
    requires VibratesAt(s, before, ms, audio, k) && Inner(t) && Enabled(s, t)
    ensures VibratesAt(Next(s, t, lim), before, ms, audio, k + 1)
  {
    if t.WorkerEnters? {
      VibrationEnds(s.d);
    }
  }

  lemma {:induction false} VibratesUntil(states: seq<State>, steps: seq<Step>, lim: Limits, before: seq<Event>, ms: nat, audio: bool, k: nat)
    requires Undisturbed(states, steps, lim) && VibratesAt(states[0], before, ms, audio, 0) && k < |states|
    ensures VibratesAt(states[k], before, ms, audio, k)
  {
    if k > 0 {
      VibratesUntil(states, steps, lim, before, ms, audio, k - 1);
      assert Inner(steps[k - 1]);
      VibratesOn(states[k - 1], steps[k - 1], lim, before, ms, audio, k - 1);
    }
  }

  // The commands that ask for a vibration of `t` milliseconds.
  predicate AsksFor(cmd: Command, t: nat)
  {
    match cmd
    case PlayTimed(low, high) => t == low + 256 * high
    case VibratorEnable(value) => t == value
    case _ => false
  }

  lemma VibrationBegins(s: State, i: nat, cmd: Command, t: nat, lim: Limits) returns (ms: nat)
    requires Entering(s, i, cmd) && AsksFor(cmd, t) && t > 0
    requires Enabled(s, Enter(i)) && Enabled(Next(s, Enter(i), lim), Leave(i))
    ensures VibratesAt(Issued(s, i, lim), Stop(s.d).log, ms, s.d.audioEnabled, 0)
    ensures (ms == t <= lim.timeout) || (ms == lim.timeout < t)
  {
    EnteringIssues(s, i, cmd, lim);
    StopIsCoherent(s.d);
    StopTrace(s.d);
    ms := Min(t, lim.timeout);
    var (e, arm) := Section(s.d, cmd, lim);
    assert e.log == Stop(s.d).log + [ModeReg(ModeRealTime)];
    assert arm == StartTimer(ms);
    assert Armed(e, arm).log == Stop(s.d).log + [ModeReg(ModeRealTime), Arm(ms)];
  }

  lemma VibrationTold(s: State, before: seq<Event>, ms: nat, audio: bool, k: nat)
    requires VibratesAt(s, before, ms, audio, k)
    ensures k <= 4 && (Quiet(s) <==> k == 4)
    ensures k <= 2 ==> s.d.mode == ModeRealTime && s.d.playing && s.d.log == before + [ModeReg(ModeRealTime), Arm(ms)]
    ensures k >= 3 && !audio ==>
              Over(s.d, before + [ModeReg(ModeRealTime), Arm(ms), GoReg(false), ModeReg(ModeStandby)])
    ensures k >= 3 && audio ==>
              InAudio(s.d, before + [ModeReg(ModeRealTime), Arm(ms),
                                     ModeReg(ModeInternal), AcCouple(true), AnalogInput(true), ModeReg(ModeAudio)])
  {
    var log := before + [ModeReg(ModeRealTime), Arm(ms)];
    assert log + [GoReg(false), ModeReg(ModeStandby)]
        == before + [ModeReg(ModeRealTime), Arm(ms), GoReg(false), ModeReg(ModeStandby)];
    assert log + AudioOn
        == before + [ModeReg(ModeRealTime), Arm(ms), ModeReg(ModeInternal), AcCouple(true), AnalogInput(true), ModeReg(ModeAudio)];
  }

  lemma VibrationPlays(s: State, i: nat, cmd: Command, t: nat, lim: Limits, states: seq<State>, steps: seq<Step>, k: nat)
    returns (ms: nat)
    requires Entering(s, i, cmd) && AsksFor(cmd, t) && t > 0
    requires Undisturbed(states, steps, lim) && k < |states|
    requires Enabled(s, Enter(i)) && Enabled(Next(s, Enter(i), lim), Leave(i)) && states[0] == Issued(s, i, lim)
    ensures ms == t <= lim.timeout || ms == lim.timeout < t
    ensures VibratesAt(states[k], Stop(s.d).log, ms, s.d.audioEnabled, k)
  {
    ms := VibrationBegins(s, i, cmd, t, lim);
    VibratesUntil(states, steps, lim, Stop(s.d).log, ms, s.d.audioEnabled, k);
  }

  // The timer that such a command starts.
  lemma TimedArms(d: Dev, low: nat, high: nat, lim: Limits)
    requires low < 256 && high < 256 && (low != 0 || high != 0)
    ensures
      var arm := Section(d, PlayTimed(low, high), lim).1;
      && arm.StartTimer?
      && ((arm.milliseconds <= lim.timeout && arm.milliseconds % 256 == low && arm.milliseconds / 256 == high)
          || (arm.milliseconds == lim.timeout < low + 256 * high))
  {
  }

  // A PLAY_TIMED_EFFECT command: it vibrates for the time whose bytes the command holds, or for the longest time allowed if
  // that is shorter; every undisturbed run then comes to rest after four steps, in standby or back in audio-to-haptics.
  lemma {:induction false} TimedPlays(s: State, i: nat, low: nat, high: nat, lim: Limits, states: seq<State>, steps: seq<Step>, k: nat)
    returns (ms: nat)
    requires Entering(s, i, PlayTimed(low, high)) && low < 256 && high < 256 && (low != 0 || high != 0)
    requires Undisturbed(states, steps, lim) && k < |states|
    requires Enabled(s, Enter(i)) && Enabled(Next(s, Enter(i), lim), Leave(i)) && states[0] == Issued(s, i, lim)
    ensures (ms <= lim.timeout && ms % 256 == low && ms / 256 == high) || (ms == lim.timeout < low + 256 * high)
    ensures k <= 4 && (Quiet(states[k]) <==> k == 4)
    ensures k <= 2 ==>
              states[k].d.mode == ModeRealTime && states[k].d.playing
              && states[k].d.log == Stop(s.d).log + [ModeReg(ModeRealTime), Arm(ms)]
    ensures k >= 3 && !s.d.audioEnabled ==>
              Over(states[k].d, Stop(s.d).log + [ModeReg(ModeRealTime), Arm(ms), GoReg(false), ModeReg(ModeStandby)])
    ensures k >= 3 && s.d.audioEnabled ==>
              InAudio(states[k].d, Stop(s.d).log + [ModeReg(ModeRealTime), Arm(ms),
                                                    ModeReg(ModeInternal), AcCouple(true), AnalogInput(true), ModeReg(ModeAudio)])
  {
    ms := VibrationPlays(s, i, PlayTimed(low, high), low + 256 * high, lim, states, steps, k);
    VibrationTold(states[k], Stop(s.d).log, ms, s.d.audioEnabled, k);
  }

  // vibrator_enable with a positive value likewise.
  lemma {:induction false} EnablePlays(s: State, i: nat, value: int, lim: Limits, states: seq<State>, steps: seq<Step>, k: nat)
    returns (ms: nat)
    requires Entering(s, i, VibratorEnable(value)) && value > 0
    requires Undisturbed(states, steps, lim) && k < |states|
    requires Enabled(s, Enter(i)) && Enabled(Next(s, Enter(i), lim), Leave(i)) && states[0] == Issued(s, i, lim)
    ensures ms == value <= lim.timeout || ms == lim.timeout < value
    ensures k <= 4 && (Quiet(states[k]) <==> k == 4)
    ensures k <= 2 ==>
              states[k].d.mode == ModeRealTime && states[k].d.playing
              && states[k].d.log == Stop(s.d).log + [ModeReg(ModeRealTime), Arm(ms)]
    ensures k >= 3 && !s.d.audioEnabled ==>
              Over(states[k].d, Stop(s.d).log + [ModeReg(ModeRealTime), Arm(ms), GoReg(false), ModeReg(ModeStandby)])
    ensures k >= 3 && s.d.audioEnabled ==>
              InAudio(states[k].d, Stop(s.d).log + [ModeReg(ModeRealTime), Arm(ms),
                                                    ModeReg(ModeInternal), AcCouple(true), AnalogInput(true), ModeReg(ModeAudio)])
  {
    ms := VibrationPlays(s, i, VibratorEnable(value), value, lim, states, steps, k);
    VibrationTold(states[k], Stop(s.d).log, ms, s.d.audioEnabled, k);
  }

  // A waveform k steps after it was asked for: the work item is scheduled, is picked, starts the chip and waits, sees it
  // finished, and is done.
  predicate EffectAt(s: State, before: seq<Event>, sequence: seq<nat>, audio: bool, k: nat)
  {
    var log := before + [ModeReg(ModeInternal), Waveforms(sequence), GoReg(true)];
    && Alone(s) && k <= 4 && !s.armed && s.pending == (k == 0)
    && s.worker == (if k == 1 then Picked else if k == 2 || k == 3 then Polling else Asleep)
    && s.d.go == (k == 2)
    && if k <= 1 then EffectWaits(s.d, audio, sequence, before)
       else if k <= 3 then EffectGoes(s.d, audio, log)
       else Rested(s.d, audio, log, [ModeReg(ModeStandby)])
  }

  predicate EffectWaits(d: Dev, audio: bool, sequence: seq<nat>, log: seq<Event>)
  {
    d.work == SeqPlayback && d.dev == DevIdle && !d.shouldStop && d.sequence == sequence && d.audioEnabled == audio && d.log == log
  }

  predicate EffectGoes(d: Dev, audio: bool, log: seq<Event>)
  {
    && d.work == SeqPlayback && d.dev == DevReady && d.mode == ModeInternal && d.playing && !d.shouldStop
    && d.audioEnabled == audio && d.log == log
  }

  lemma EffectStarts(d: Dev)
    requires d.work == SeqPlayback && d.dev == DevIdle && !d.shouldStop
    ensures EffectStart(d).go
    ensures EffectGoes(EffectStart(d), d.audioEnabled, d.log + [ModeReg(ModeInternal), Waveforms(d.sequence), GoReg(true)])
  {
    var d1 := ChangeMode(d, SeqPlayback, DevReady);
    assert d1.log == d.log + [ModeReg(ModeInternal)];
    assert Logged(d1, Waveforms(d1.sequence)).log == d.log + [ModeReg(ModeInternal), Waveforms(d.sequence)];
  }

  // What the end of a waveform shows the chip: GO is cleared first if a stop was asked for; then comes standby, or
  // audio-to-haptics if that is enabled.
  lemma EffectEndTrace(d: Dev)
    requires Coherent(d) && d.work == SeqPlayback && d.dev == DevReady
    ensures EffectEnd(d).go == (d.go && !d.shouldStop)
    ensures !d.audioEnabled ==>
              Over(EffectEnd(d), d.log + (if d.shouldStop then [GoReg(false)] else []) + [ModeReg(ModeStandby)])
    ensures d.audioEnabled ==>
              InAudio(EffectEnd(d), d.log + (if d.shouldStop then [GoReg(false)] else [])
                                    + [ModeReg(ModeInternal), AcCouple(true), AnalogInput(true), ModeReg(ModeAudio)])
  {
    var d1 := if d.shouldStop then WithGo(d, false) else d;
    assert d1.log == d.log + if d.shouldStop then [GoReg(false)] else [];
    if d1.audioEnabled {
      AudioSwitchedOn(d1);
    }
  }

  lemma EffectOn(s: State, t: Step, lim: Limits, before: seq<Event>, sequence: seq<nat>, audio: bool, k: nat)
    requires EffectAt(s, before, sequence, audio, k) && Inner(t) && Enabled(s, t)
    ensures EffectAt(Next(s, t, lim), before, sequence, audio, k + 1)
  {
    if t.WorkerEnters? {
      EffectStarts(s.d);
    } else if t.EffectOver? {
      EffectEndTrace(s.d);
      assert s.d.log + [] == s.d.log;
    }
  }

  lemma {:induction false} EffectUntil(states: seq<State>, steps: seq<Step>, lim: Limits,
                                       before: seq<Event>, sequence: seq<nat>, audio: bool, k: nat)
    requires Undisturbed(states, steps, lim) && EffectAt(states[0], before, sequence, audio, 0) && k < |states|
    ensures EffectAt(states[k], before, sequence, audio, k)
  {
    if k > 0 {
      EffectUntil(states, steps, lim, before, sequence, audio, k - 1);
      assert Inner(steps[k - 1]);
      EffectOn(states[k - 1], steps[k - 1], lim, before, sequence, audio, k - 1);
    }
  }

  lemma EffectBegins(s: State, i: nat, sequence: seq<nat>, lim: Limits)
    requires Entering(s, i, PlayEffect(true, sequence))
    requires Enabled(s, Enter(i)) && Enabled(Next(s, Enter(i), lim), Leave(i))
    ensures EffectAt(Issued(s, i, lim), Stop(s.d).log, sequence, s.d.audioEnabled, 0)
  {
    EnteringIssues(s, i, PlayEffect(true, sequence), lim);
    StopTrace(s.d);
  }

  // A PLAY_SINGLE_EFFECT or PLAY_EFFECT_SEQUENCE command: in every undisturbed run the chip is loaded with the waveforms and
  // told to go; the work item waits until it has finished; and after four steps all is at rest, in standby or back in
  // audio-to-haptics.
  lemma {:induction false} EffectPlays(s: State, i: nat, sequence: seq<nat>, lim: Limits, states: seq<State>, steps: seq<Step>, k: nat)
    requires Entering(s, i, PlayEffect(true, sequence))
    requires Undisturbed(states, steps, lim) && k < |states|
    requires Enabled(s, Enter(i)) && Enabled(Next(s, Enter(i), lim), Leave(i)) && states[0] == Issued(s, i, lim)
    ensures k <= 4 && (Quiet(states[k]) <==> k == 4)
    ensures k == 2 || k == 3 ==>
              && states[k].worker.Polling? && (states[k].d.go <==> k == 2) && !states[k].d.shouldStop
              && states[k].d.mode == ModeInternal
              && states[k].d.log == Stop(s.d).log + [ModeReg(ModeInternal), Waveforms(sequence), GoReg(true)]
    ensures k == 4 && !s.d.audioEnabled ==>
              Over(states[k].d, Stop(s.d).log + [ModeReg(ModeInternal), Waveforms(sequence), GoReg(true), ModeReg(ModeStandby)])
    ensures k == 4 && s.d.audioEnabled ==>
              InAudio(states[k].d, Stop(s.d).log + [ModeReg(ModeInternal), Waveforms(sequence), GoReg(true),
                                                    ModeReg(ModeInternal), AcCouple(true), AnalogInput(true), ModeReg(ModeAudio)])
  {
    EffectBegins(s, i, sequence, lim);
    EffectUntil(states, steps, lim, Stop(s.d).log, sequence, s.d.audioEnabled, k);
    EffectTold(states[k], Stop(s.d).log, sequence, s.d.audioEnabled, k);
  }

  lemma EffectTold(s: State, before: seq<Event>, sequence: seq<nat>, audio: bool, k: nat)
    requires EffectAt(s, before, sequence, audio, k)
    ensures Quiet(s) <==> k == 4
    ensures k == 4 && !audio ==>
              Over(s.d, before + [ModeReg(ModeInternal), Waveforms(sequence), GoReg(true), ModeReg(ModeStandby)])
    ensures k == 4 && audio ==>
              InAudio(s.d, before + [ModeReg(ModeInternal), Waveforms(sequence), GoReg(true),
                                     ModeReg(ModeInternal), AcCouple(true), AnalogInput(true), ModeReg(ModeAudio)])
  {
    var log := before + [ModeReg(ModeInternal), Waveforms(sequence), GoReg(true)];
    assert log + [ModeReg(ModeStandby)]
        == before + [ModeReg(ModeInternal), Waveforms(sequence), GoReg(true), ModeReg(ModeStandby)];
    assert log + AudioOn
        == before + [ModeReg(ModeInternal), Waveforms(sequence), GoReg(true),
                     ModeReg(ModeInternal), AcCouple(true), AnalogInput(true), ModeReg(ModeAudio)];
  }

  // All that play_effect shows the chip, however long it waits and whatever ends the wait.
  lemma WholeEffect(d: Dev, finished: Dev)
    requires Coherent(d) && d.work == SeqPlayback && d.dev == DevIdle && EffectWaited(d, finished)
    ensures EffectEnd(finished).log
            == d.log + [ModeReg(ModeInternal), Waveforms(d.sequence), GoReg(true)]
                     + (if finished.shouldStop then [GoReg(false)] else [])
                     + if d.audioEnabled then [ModeReg(ModeInternal), AcCouple(true), AnalogInput(true), ModeReg(ModeAudio)]
                       else [ModeReg(ModeStandby)]
    ensures !EffectEnd(finished).go
  {
    EffectIsCoherent(d);
    EffectEndTrace(finished);
  }

  // Both kinds of playback go on until they are at rest.
  lemma CommandGoesOn(s: State, before: seq<Event>, ms: nat, sequence: seq<nat>, audio: bool, k: nat)
    requires VibratesAt(s, before, ms, audio, k) || EffectAt(s, before, sequence, audio, k)
    requires k < 4
    ensures exists t :: Inner(t) && Enabled(s, t)
  {
    var t := if s.armed then TimerFires else if s.pending then WorkerPicked else if s.worker.Picked? then WorkerEnters
             else if s.worker.Concluding? then WorkerLeaves else if s.d.go then EffectDone else EffectOver;
    assert Inner(t) && Enabled(s, t);
  }

  // A waveform that has been asked to stop.
  lemma StoppedEffectEnds(d: Dev)
    requires Coherent(d) && d.work == SeqPlayback && d.dev == DevReady && d.shouldStop
    ensures !EffectEnd(d).go
    ensures !d.audioEnabled ==> Over(EffectEnd(d), d.log + [GoReg(false), ModeReg(ModeStandby)])
    ensures d.audioEnabled ==>
              InAudio(EffectEnd(d), d.log + [GoReg(false), ModeReg(ModeInternal), AcCouple(true), AnalogInput(true), ModeReg(ModeAudio)])
  {
    EffectEndTrace(d);
    assert d.log + [GoReg(false)] + [ModeReg(ModeStandby)] == d.log + [GoReg(false), ModeReg(ModeStandby)];
    assert d.log + [GoReg(false)] + [ModeReg(ModeInternal), AcCouple(true), AnalogInput(true), ModeReg(ModeAudio)]
        == d.log + [GoReg(false), ModeReg(ModeInternal), AcCouple(true), AnalogInput(true), ModeReg(ModeAudio)];
  }

  // Any caller cuts a waveform short. While the chip plays, the work item waits for it; as soon as somebody has made a
  // request, it need not, and then it clears GO before anything else.
  lemma RequestStopsEffect(s: State, j: nat, cmd: Command, lim: Limits)
    requires Safe(s) && s.worker.Polling? && s.d.go && Enabled(s, Request(j, cmd))
    ensures !s.d.shouldStop ==> !Enabled(s, EffectOver)
    ensures Enabled(Next(s, Request(j, cmd), lim), EffectOver)
    ensures
      var over := Next(Next(s, Request(j, cmd), lim), EffectOver, lim);
      && over.worker.Asleep? && !over.d.go && over.callers[j] == Requested(cmd)
      && (!s.d.audioEnabled ==> Over(over.d, s.d.log + [GoReg(false), ModeReg(ModeStandby)]))
      && (s.d.audioEnabled ==>
            InAudio(over.d, s.d.log + [GoReg(false), ModeReg(ModeInternal), AcCouple(true), AnalogInput(true), ModeReg(ModeAudio)]))
  {
    StoppedEffectEnds(s.d.(shouldStop := true));
  }

  // Until then no caller gets any further than that: it waits for the work item.
  lemma CallerAwaitsEffect(s: State, j: nat)
    requires Safe(s) && s.worker.Polling? && j < |s.callers|
    ensures !Enabled(s, CancelWork(j)) && !Enabled(s, Enter(j)) && !Enabled(s, Leave(j))
  {
  }

  // A work run that comes too late, after the playback it belonged to was stopped, shows the chip nothing.
  lemma LateWorkDoesNothing(s: State, lim: Limits)
    requires Safe(s) && Enabled(s, WorkerEnters)
    requires s.d.work == WorkIdle || s.d.work == Audio2Haptic
    ensures Next(s, WorkerEnters, lim).d == s.d && Next(s, WorkerEnters, lim).worker == Concluding(NoArming)
  {
  }
}
