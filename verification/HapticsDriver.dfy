// The DRV2605 driver's routines as the driver runs them: they change the fields of struct drv2605_data and write chip
// registers, one after the other. Each is proved to do what the functions of module Haptics say.
module HapticsDriver {
  import opened Haptics
  import HapticsCommands

  class Drv2605 {
    var work: WorkMode
    var dev: DevMode
    var playing: bool
    var shouldStop: bool
    var audioEnabled: bool
    var repeatTimes: int
    var vibrationTime: nat
    var silenceTime: nat
    var sequence: seq<nat>
    var rtpData: seq<nat>
    var rtpCounts: nat
    var rtpIndex: nat
    // The chip.
    var mode: ChipMode
    var go: bool
    var log: seq<Event>

    function View(): Dev
      reads this
    {
      Dev(work, dev, playing, shouldStop, audioEnabled, repeatTimes, vibrationTime, silenceTime,
          sequence, rtpData, rtpCounts, rtpIndex, mode, go, log)
    }

    method Log(e: Event)
      modifies this`log
      ensures View() == Logged(old(View()), e)
    {
      log := log + [e];
    }

    // drv2605_reg_write of MODE_REG
    method WriteMode(m: ChipMode)
      modifies this`mode, this`log
      ensures View() == WithMode(old(View()), m)
    {
      Log(ModeReg(m));
      mode := m;
    }

    // drv2605_set_go_bit
    method SetGoBit(value: bool)
      modifies this`go, this`log
      ensures View() == WithGo(old(View()), value)
    {
      Log(GoReg(value));
      go := value;
    }

    // drv2605_change_mode
    method ChangeMode(workMode: WorkMode, devMode: DevMode)
      modifies this`work, this`dev, this`mode, this`log
      ensures View() == Haptics.ChangeMode(old(View()), workMode, devMode)
    {
      if devMode == DevIdle {
        dev := devMode;
        work := workMode;
      } else if devMode == DevStandby {
        if dev != DevStandby {
          dev := DevStandby;
          WriteMode(ModeStandby);
        }
        work := WorkIdle;
      } else {
        GetReady(workMode);
      }
    }

    // The change to ready, which skips the register write when the mode is the one in force.
    method GetReady(workMode: WorkMode)
      modifies this`work, this`dev, this`mode, this`log
      ensures View() == Haptics.ChangeMode(old(View()), workMode, DevReady)
    {
      if workMode != work || dev != DevReady {
        work := workMode;
        dev := DevReady;
        WriteModeFor();
      }
    }

    // The MODE register write that goes with a change to ready.
    method WriteModeFor()
      modifies this`mode, this`log
      ensures View() == WithMode(old(View()), ModeFor(work))
    {
      if work == Vibrator || work == PatternOn || work == SeqOn || work == Rtp {
        WriteMode(ModeRealTime);
      } else if work == Audio2Haptic {
        WriteMode(ModeAudio);
      } else if work == Calibration {
        WriteMode(ModeCalibration);
      } else {
        WriteMode(ModeInternal);
      }
    }

    // The mode changes of drv2605_probe: wake up, calibrate if the chip has not been programmed, go to standby.
    method Probe(otp: bool)
      modifies this
      ensures View() == Probed(old(View()), !otp) && Coherent(View()) && mode == ModeStandby
    {
      ProbeIsCoherent(View(), !otp);
      ChangeMode(WorkIdle, DevReady);
      if !otp {
        ChangeMode(Calibration, DevReady);
      }
      ChangeMode(WorkIdle, DevStandby);
    }

    // setAudioHapticsEnabled
    method SetAudioHaptics(enable: bool)
      modifies this
      ensures View() == SetAudio(old(View()), enable)
    {
      if enable {
        if work != Audio2Haptic {
          playing := true;
          ChangeMode(WorkIdle, DevReady);
          Log(AcCouple(true));
          Log(AnalogInput(true));
          ChangeMode(Audio2Haptic, DevReady);
        }
      } else {
        if work == Audio2Haptic {
          playing := false;
          ChangeMode(WorkIdle, DevReady);
          Log(AcCouple(false));
          Log(AnalogInput(false));
          ChangeMode(WorkIdle, DevStandby);
        }
      }
    }

    // vibrator_off
    method VibratorOff()
      modifies this
      ensures View() == Haptics.VibratorOff(old(View()))
    {
      if playing {
        if audioEnabled {
          SetAudioHaptics(true);
        } else {
          playing := false;
          SetGoBit(false);
          ChangeMode(WorkIdle, DevStandby);
        }
      }
    }

    // drv2605_stop
    method Stop()
      modifies this
      ensures View() == Haptics.Stop(old(View()))
    {
      if playing {
        if work == Audio2Haptic {
          SetAudioHaptics(false);
        } else if work == Vibrator || work == PatternOn || work == PatternOff || work == SeqOn || work == SeqOff || work == Rtp {
          VibratorOff();
        }
      }
    }

    // play_effect up to its wait.
    method StartEffect()
      modifies this
      ensures View() == EffectStart(old(View()))
    {
      ChangeMode(SeqPlayback, DevReady);
      Log(Waveforms(sequence));
      playing := true;
      SetGoBit(true);
    }

    // play_effect from the end of its wait.
    method EndEffect()
      modifies this
      ensures View() == EffectEnd(old(View()))
    {
      if shouldStop {
        SetGoBit(false);
      }
      if audioEnabled {
        SetAudioHaptics(true);
      } else {
        ChangeMode(WorkIdle, DevStandby);
        playing := false;
      }
    }

    // play_effect. While it waits, the chip may finish and other callers may set should_stop; `polls` bounds how often it
    // looks before one of the two has happened.
    method PlayEffect(polls: nat) returns (ghost finished: Dev)
      modifies this
      ensures View() == EffectEnd(finished)
      ensures EffectWaited(old(View()), finished)
      ensures old(Coherent(View()) && work == SeqPlayback && dev == DevIdle) ==>
                log == old(log) + [ModeReg(ModeInternal), Waveforms(old(sequence)), GoReg(true)]
                                + (if finished.shouldStop then [GoReg(false)] else [])
                                + if old(audioEnabled) then [ModeReg(ModeInternal), AcCouple(true), AnalogInput(true), ModeReg(ModeAudio)]
                                  else [ModeReg(ModeStandby)]
    {
      ghost var d := View();
      StartEffect();
      var left: nat := polls;
      while go && !shouldStop
        invariant View() == EffectStart(old(View())).(go := go, shouldStop := shouldStop)
        decreases left, go && !shouldStop
      {
        var played: bool := *;
        var stop: bool := *;
        go := go && !played && left > 0;
        shouldStop := shouldStop || stop;
        left := if left > 0 then left - 1 else 0;
      }
      finished := View();
      EndEffect();
      if Coherent(d) && d.work == SeqPlayback && d.dev == DevIdle {
        HapticsCommands.WholeEffect(d, finished);
      }
    }

    // play_Pattern_RTP
    method PlayPatternRtp() returns (arm: Arming)
      modifies this
      ensures (View(), arm) == PatternWork(old(View()))
    {
      arm := NoArming;
      if work == PatternOn {
        ChangeMode(PatternOff, DevReady);
        if repeatTimes == 0 {
          ChangeMode(WorkIdle, DevStandby);
          playing := false;
        } else {
          arm := StartTimer(silenceTime);
        }
      } else if work == PatternOff {
        repeatTimes := repeatTimes - 1;
        ChangeMode(PatternOn, DevReady);
        arm := StartTimer(vibrationTime);
      }
    }

    // play_Seq_RTP
    method PlaySeqRtp() returns (arm: Arming)
      modifies this
      ensures (View(), arm) == SequenceWork(old(View()))
    {
      if rtpIndex < rtpCounts {
        var word := RtpWord(View(), rtpIndex);
        var rtpTime := word / 256;
        var rtpVal := word % 256;
        playing := true;
        rtpIndex := rtpIndex + 1;
        ChangeMode(SeqOn, DevReady);
        Log(RtpReg(rtpVal));
        arm := StartTimer(rtpTime);
      } else {
        ChangeMode(WorkIdle, DevStandby);
        playing := false;
        arm := NoArming;
      }
    }

    // vibrator_work_routine. `finished` is the state in which play_effect stopped waiting. If cache and chip agreed, they still
    // do afterwards, and a vibration is left on only together with its timer.
    method WorkRoutine(polls: nat) returns (arm: Arming, ghost finished: Dev)
      modifies this
      ensures old(work) != SeqPlayback ==> (View(), arm) == WorkSection(old(View()))
      ensures old(work) == SeqPlayback ==> arm == NoArming && View() == EffectEnd(finished) && EffectWaited(old(View()), finished)
      ensures old(Coherent(View())) ==> Coherent(View()) && (mode == ModeRealTime ==> arm.StartTimer?)
      ensures old(Coherent(View())) && old(work) == SeqPlayback ==> !go
    {
      ghost var d := View();
      arm, finished := NoArming, d;
      if work == SeqPlayback {
        finished := PlayEffect(polls);
        if Coherent(d) {
          WaitedIsCoherent(d, finished);
        }
        return;
      }
      arm := WorkItem();
      if Coherent(d) {
        WorkSectionIsCoherent(d);
      }
    }

    // The other modes.
    method WorkItem() returns (arm: Arming)
      requires work != SeqPlayback
      modifies this
      ensures (View(), arm) == WorkSection(old(View()))
    {
      arm := NoArming;
      if work == Vibrator || work == Rtp {
        VibratorOff();
      } else if work == PatternOn || work == PatternOff {
        arm := PlayPatternRtp();
      } else if work == SeqOn || work == SeqOff {
        arm := PlaySeqRtp();
      }
    }

    // HAPTIC_CMDID_PATTERN_RTP
    method PatternCommand(vibration: nat, silence: nat, strength: nat, repeat: nat, lim: Limits) returns (arm: Arming)
      modifies this
      ensures (View(), arm) == StartPattern(old(View()), vibration, silence, strength, repeat, lim)
    {
      SetPattern(vibration, silence, repeat);
      if vibrationTime == 0 {
        return NoArming;
      }
      LimitPattern(lim);
      arm := BeginPattern(strength);
    }

    method SetPattern(vibration: nat, silence: nat, repeat: nat)
      modifies this`vibrationTime, this`silenceTime, this`repeatTimes
      ensures View() == old(View()).(vibrationTime := vibration, silenceTime := silence, repeatTimes := repeat)
    {
      vibrationTime := vibration;
      silenceTime := silence;
      repeatTimes := repeat;
    }

    method LimitPattern(lim: Limits)
      modifies this`playing, this`repeatTimes, this`vibrationTime
      ensures View() == old(View()).(playing := true, vibrationTime := Min(old(vibrationTime), lim.timeout),
                                     repeatTimes := if old(repeatTimes) > 0 then old(repeatTimes) - 1 else old(repeatTimes))
    {
      playing := true;
      if repeatTimes > 0 {
        repeatTimes := repeatTimes - 1;
      }
      if vibrationTime > lim.timeout {
        vibrationTime := lim.timeout;
      }
    }

    method BeginPattern(strength: nat) returns (arm: Arming)
      modifies this`work, this`dev, this`mode, this`log
      ensures View() == Logged(Haptics.ChangeMode(old(View()), PatternOn, DevReady), RtpReg(strength))
      ensures arm == StartTimer(vibrationTime)
    {
      ChangeMode(PatternOn, DevReady);
      Log(RtpReg(strength));
      arm := StartTimer(vibrationTime);
    }

    // HAPTIC_CMDID_RTP_SEQUENCE
    method SequenceCommand(copied: bool, payload: seq<nat>, lim: Limits) returns (arm: Arming)
      modifies this
      ensures (View(), arm) == StartSequence(old(View()), copied, payload, lim)
    {
      arm := NoArming;
      rtpData, rtpCounts, rtpIndex := [], 0, 0;
      if |payload| % 2 == 0 {
        rtpCounts := |payload| / 2;
        if rtpCounts <= lim.sequence && rtpCounts > 0 {
          if copied {
            rtpData := Words(payload);
            ChangeMode(SeqOff, DevIdle);
            arm := ScheduleWork;
          }
        }
      }
    }

    // HAPTIC_CMDID_PLAY_SINGLE_EFFECT and HAPTIC_CMDID_PLAY_EFFECT_SEQUENCE
    method EffectCommand(copied: bool, bytes: seq<nat>, ghost lim: Limits) returns (arm: Arming)
      modifies this
      ensures (View(), arm) == Perform(old(View()), Command.PlayEffect(copied, bytes), lim)
    {
      sequence := [];
      if !copied {
        return NoArming;
      }
      sequence := bytes;
      shouldStop := false;
      ChangeMode(SeqPlayback, DevIdle);
      arm := ScheduleWork;
    }

    // HAPTIC_CMDID_PLAY_TIMED_EFFECT
    method TimedCommand(low: nat, high: nat, lim: Limits) returns (arm: Arming)
      modifies this
      ensures (View(), arm) == Perform(old(View()), PlayTimed(low, high), lim)
    {
      var value := low + 256 * high;
      if value == 0 {
        return NoArming;
      }
      playing := true;
      if value > lim.timeout {
        value := lim.timeout;
      }
      ChangeMode(Rtp, DevReady);
      arm := StartTimer(value);
    }

    // vibrator_enable, once it has stopped what was playing
    method EnableCommand(value: int, lim: Limits) returns (arm: Arming)
      modifies this
      ensures (View(), arm) == Perform(old(View()), VibratorEnable(value), lim)
    {
      if value <= 0 {
        return NoArming;
      }
      ChangeMode(Vibrator, DevReady);
      playing := true;
      arm := StartTimer(Min(value, lim.timeout));
    }

    // HAPTIC_CMDID_AUDIOHAPTIC_ENABLE
    method AudioCommand(ghost lim: Limits)
      modifies this
      ensures (View(), NoArming) == Perform(old(View()), AudioEnable, lim)
    {
      audioEnabled := true;
      SetAudioHaptics(true);
    }

    // The command switch.
    method Switch(cmd: Command, lim: Limits) returns (arm: Arming)
      modifies this
      ensures (View(), arm) == Perform(old(View()), cmd, lim)
    {
      arm := NoArming;
      match cmd {
        case PlayEffect(copied, bytes) => arm := EffectCommand(copied, bytes, lim);
        case PlayTimed(low, high) => arm := TimedCommand(low, high, lim);
        case PlayPattern(vibration, silence, strength, repeat) =>
          arm := PatternCommand(vibration, silence, strength, repeat, lim);
        case PlaySequence(copied, payload) => arm := SequenceCommand(copied, payload, lim);
        case AudioEnable => AudioCommand(lim);
        case AudioDisable =>
          if audioEnabled {
            audioEnabled := false;
          }
        case VibratorEnable(value) => arm := EnableCommand(value, lim);
        case _ =>
      }
    }

    // What dev2605_write, vibrator_enable and drv2605_early_suspend do under the mutex. If cache and chip agreed, they still
    // do, no waveform has been started, and a vibration is left on only together with its timer.
    method RunCommand(cmd: Command, lim: Limits) returns (arm: Arming)
      modifies this
      ensures (View(), arm) == Section(old(View()), cmd, lim)
      ensures old(Coherent(View())) ==> Coherent(View()) && (go ==> old(go)) && (mode == ModeRealTime ==> arm.StartTimer?)
      ensures cmd.PlayTimed? && cmd.low < 256 && cmd.high < 256 && (cmd.low != 0 || cmd.high != 0) ==>
                && arm.StartTimer?
                && ((arm.milliseconds <= lim.timeout && arm.milliseconds % 256 == cmd.low && arm.milliseconds / 256 == cmd.high)
                    || (arm.milliseconds == lim.timeout < cmd.low + 256 * cmd.high))
    {
      ghost var d := View();
      Stop();
      arm := Switch(cmd, lim);
      if cmd.PlayTimed? && cmd.low < 256 && cmd.high < 256 && (cmd.low != 0 || cmd.high != 0) {
        HapticsCommands.TimedArms(d, cmd.low, cmd.high, lim);
      }
      if Coherent(d) {
        SectionIsCoherent(d, cmd, lim);
      }
    }

    // drv2605_late_resume
    method LateResume()
      modifies this
      ensures View() == Resume(old(View()))
      ensures old(Coherent(View())) ==> Coherent(View()) && (mode == ModeRealTime ==> View() == old(View()))
    {
      ghost var d := View();
      if Coherent(d) {
        ResumeIsCoherent(d);
      }
      if audioEnabled {
        SetAudioHaptics(true);
      }
    }
  }
}
