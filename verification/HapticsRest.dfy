// When callers leave the vibrator driver alone, it comes to rest: from every state a run can reach, for whatever was going
// on, after a bounded number of steps of the timer, the chip and the work item.
module HapticsRest {
  import opened Haptics
  import opened HapticsSystem
  import opened HapticsPlayback

  // A pattern is never in a phase it has no repetitions for.
  predicate Bounded(d: Dev)
  {
    (d.work == PatternOn ==> 0 <= d.repeatTimes) && (d.work == PatternOff ==> 0 < d.repeatTimes)
  }

  lemma StopEndsPatterns(d: Dev)
    requires Coherent(d)
    ensures Stop(d).work != PatternOn && Stop(d).work != PatternOff
  {
  }

  lemma PerformIsBounded(d: Dev, cmd: Command, lim: Limits)
    requires d.work != PatternOn && d.work != PatternOff
    ensures Bounded(Perform(d, cmd, lim).0)
  {
  }

  lemma SectionIsBounded(d: Dev, cmd: Command, lim: Limits)
    requires Coherent(d)
    ensures Bounded(Section(d, cmd, lim).0)
  {
    StopEndsPatterns(d);
    PerformIsBounded(Stop(d), cmd, lim);
  }

  // How many runs of the work item may still find something to do.
  function Jobs(d: Dev): nat
  {
    if d.work == Vibrator || d.work == Rtp || d.work == SeqPlayback then 1 else Left(d)
  }

  // A run that starts the timer again leaves fewer.
  lemma JobsFall(d: Dev)
    requires Bounded(d) && d.work != SeqPlayback
    ensures
      var (e, arm) := WorkSection(d);
      && Bounded(e) && Jobs(e) <= Jobs(d) && (arm.StartTimer? ==> Jobs(e) < Jobs(d)) && !arm.ScheduleWork? && (e.go ==> d.go)
  {
    if Left(d) > 0 {
      LeftFalls(d);
      RunKeepsBounds(d);
    } else {
      OffDoesNothingMore(d);
    }
  }

  lemma RunKeepsBounds(d: Dev)
    requires Bounded(d) && Left(d) > 0
    ensures Bounded(WorkSection(d).0) && Jobs(WorkSection(d).0) == Left(WorkSection(d).0)
  {
    if d.work == PatternOn {
      var d1 := ChangeMode(d, PatternOff, DevReady);
      assert d1.work == PatternOff && d1.repeatTimes == d.repeatTimes;
      assert WorkSection(d).0.work == if d.repeatTimes == 0 then WorkIdle else PatternOff;
    } else if d.work == PatternOff {
      assert WorkSection(d).0.work == PatternOn;
    } else {
      assert WorkSection(d) == SequenceWork(d);
      assert WorkSection(d).0.work == if d.rtpIndex < d.rtpCounts then SeqOn else WorkIdle;
    }
  }

  lemma OffDoesNothingMore(d: Dev)
    requires Bounded(d) && Left(d) == 0 && d.work != SeqPlayback
    ensures
      var (e, arm) := WorkSection(d);
      && Bounded(e) && Jobs(e) <= Jobs(d) && arm == NoArming && (e.go ==> d.go)
  {
  }

  lemma EffectStartIsBounded(d: Dev)
    requires d.work == SeqPlayback
    ensures Bounded(EffectStart(d)) && Jobs(EffectStart(d)) == Jobs(d)
  {
    assert EffectStart(d).work == SeqPlayback;
  }

  lemma EffectEndIsBounded(d: Dev)
    requires d.work == SeqPlayback
    ensures Bounded(EffectEnd(d)) && Jobs(EffectEnd(d)) < Jobs(d) && (EffectEnd(d).go ==> d.go)
  {
    var d1 := if d.shouldStop then WithGo(d, false) else d;
    assert d1.work == SeqPlayback && (d1.go ==> d.go);
    if d.audioEnabled {
      var e := SetAudio(d1, true);
      assert e.work == Audio2Haptic && e.go == d1.go;
    } else {
      var e := ChangeMode(d1, WorkIdle, DevStandby);
      assert e.work == WorkIdle && e.go == d1.go;
    }
  }

  lemma ResumeIsBounded(d: Dev)
    requires Bounded(d)
    ensures Bounded(Resume(d))
  {
  }

  lemma StepIsBounded(s: State, t: Step, lim: Limits)
    requires Safe(s) && Bounded(s.d) && Enabled(s, t)
    ensures Bounded(Next(s, t, lim).d)
  {
    match t
    case Enter(i) => SectionIsBounded(s.d, s.callers[i].cmd, lim);
    case LateResume => ResumeIsBounded(s.d);
    case WorkerEnters =>
      if s.d.work == SeqPlayback {
        EffectStartIsBounded(s.d);
      } else {
        JobsFall(s.d);
      }
    case EffectOver => EffectEndIsBounded(s.d);
    case _ =>
  }

  lemma {:induction false} AlwaysBounded(states: seq<State>, steps: seq<Step>, lim: Limits, k: nat)
    requires Run(states, steps, lim) && k < |states|
    ensures Safe(states[k]) && Bounded(states[k].d)
  {
    NeverUnattended(states, steps, lim, k);
    if k > 0 {
      AlwaysBounded(states, steps, lim, k - 1);
      assert Enabled(states[k - 1], steps[k - 1]);
      StepIsBounded(states[k - 1], steps[k - 1], lim);
    }
  }

  function WorkerWeight(w: Worker): nat
  {
    match w
    case Asleep => 0
    case Picked => 2
    case Polling => 0
    case Concluding(arm) => 1 + if arm.StartTimer? then 4 else if arm.ScheduleWork? then 3 else 0
  }

  // What every step of the timer, the chip and the work item makes smaller.
  function Weight(s: State): nat
  {
    8 * Jobs(s.d) + (if s.armed then 4 else 0) + (if s.pending then 3 else 0) + (if s.d.go then 1 else 0) + WorkerWeight(s.worker)
  }

  lemma InnerFalls(s: State, t: Step, lim: Limits)
    requires Safe(s) && Bounded(s.d) && Alone(s) && Inner(t) && Enabled(s, t)
    ensures Weight(Next(s, t, lim)) < Weight(s)
    ensures Alone(Next(s, t, lim))
  {
    match t
    case WorkerEnters => EnteringFalls(s, lim);
    case EffectOver => EffectEndIsBounded(s.d);
    case _ =>
  }

  lemma EnteringFalls(s: State, lim: Limits)
    requires Safe(s) && Bounded(s.d) && Enabled(s, WorkerEnters)
    ensures Weight(Next(s, WorkerEnters, lim)) < Weight(s) && Next(s, WorkerEnters, lim).callers == s.callers
  {
    if s.d.work == SeqPlayback {
      EffectStartIsBounded(s.d);
    } else {
      JobsFall(s.d);
    }
  }

  lemma GoesOnUntilQuiet(s: State)
    requires Safe(s) && Alone(s) && !Quiet(s)
    ensures exists t :: Inner(t) && Enabled(s, t)
  {
    var t :=
      if s.armed then TimerFires
      else match s.worker
        case Asleep => WorkerPicked
        case Picked => WorkerEnters
        case Polling => if s.d.go then EffectDone else EffectOver
        case Concluding(_) => WorkerLeaves;
    assert Inner(t) && Enabled(s, t);
  }

  lemma {:induction false} WeightRunsOut(states: seq<State>, steps: seq<Step>, lim: Limits, k: nat)
    requires Undisturbed(states, steps, lim) && k < |states|
    requires Safe(states[0]) && Bounded(states[0].d) && Alone(states[0])
    ensures Safe(states[k]) && Bounded(states[k].d) && Alone(states[k])
    ensures Weight(states[k]) + k <= Weight(states[0])
  {
    if k > 0 {
      WeightRunsOut(states, steps, lim, k - 1);
      assert Inner(steps[k - 1]);
      StepIsSafe(states[k - 1], steps[k - 1], lim);
      StepIsBounded(states[k - 1], steps[k - 1], lim);
      InnerFalls(states[k - 1], steps[k - 1], lim);
    }
  }

  // However a run has gone, once its last caller is gone: there are at most so many steps to come, there is always one to be
  // taken until all is quiet, and when all is quiet the motor is still and no waveform plays.
  lemma ComesToRest(run: seq<State>, ran: seq<Step>, states: seq<State>, steps: seq<Step>, lim: Limits, k: nat)
    requires Run(run, ran, lim) && Alone(run[|ran|])
    requires Undisturbed(states, steps, lim) && states[0] == run[|ran|] && k < |states|
    ensures k <= Weight(states[0])
    ensures !Quiet(states[k]) ==> exists t :: Inner(t) && Enabled(states[k], t)
    ensures Quiet(states[k]) ==> states[k].d.mode != ModeRealTime && !states[k].d.go
  {
    AlwaysBounded(run, ran, lim, |ran|);
    WeightRunsOut(states, steps, lim, k);
    if !Quiet(states[k]) {
      GoesOnUntilQuiet(states[k]);
    }
  }

  // One more step of a run.
  lemma RunOn(states: seq<State>, steps: seq<Step>, t: Step, lim: Limits) returns (states': seq<State>, steps': seq<Step>)
    requires Run(states, steps, lim) && Enabled(states[|steps|], t)
    ensures Run(states', steps', lim) && |steps'| == |steps| + 1 && states'[|steps'|] == Next(states[|steps|], t, lim)
    ensures states'[0] == states[0]
  {
    states', steps' := states + [Next(states[|steps|], t, lim)], steps + [t];
    forall k | 0 <= k < |steps'|
      ensures Enabled(states'[k], steps'[k]) && states'[k + 1] == Next(states'[k], steps'[k], lim)
    {
      if k < |steps| {
        assert Enabled(states[k], steps[k]) && states[k + 1] == Next(states[k], steps[k], lim);
      }
    }
  }

  // A run that goes on with a command of caller 0, alone and while the work item is asleep.
  lemma CommandRun(states: seq<State>, steps: seq<Step>, cmd: Command, lim: Limits)
    returns (states': seq<State>, steps': seq<Step>, last: State)
    requires Run(states, steps, lim)
    requires
      var s := states[|steps|];
      Alone(s) && |s.callers| > 0 && s.worker.Asleep?
    ensures Run(states', steps', lim) && last == states'[|steps'|] && states'[0] == states[0]
    ensures
      var s := states[|steps|];
      var (d, arm) := Section(s.d.(shouldStop := true), cmd, lim);
      last == State(Armed(d, arm), arm.StartTimer?, arm.ScheduleWork?, Asleep, s.callers)
  {
    var s := states[|steps|];
    states', steps' := RunOn(states, steps, Request(0, cmd), lim);
    states', steps' := RunOn(states', steps', CancelTimer(0), lim);
    states', steps' := RunOn(states', steps', CancelWork(0), lim);
    states', steps' := RunOn(states', steps', Enter(0), lim);
    states', steps' := RunOn(states', steps', Leave(0), lim);
    last := states'[|steps'|];
    assert last.callers == s.callers;
  }

  predicate InAudio(d: Dev)
  {
    d.audioEnabled && d.work == Audio2Haptic && d.dev == DevReady && d.playing && d.mode == ModeAudio
  }

  lemma EnablingAudio(d: Dev, lim: Limits)
    requires d.dev == DevStandby && d.work == WorkIdle && !d.playing
    ensures InAudio(Section(d, AudioEnable, lim).0) && Section(d, AudioEnable, lim).1 == NoArming
  {
  }

  predicate VibratingOverAudio(d: Dev)
  {
    d.audioEnabled && d.work == Rtp && d.dev == DevReady && d.playing && d.mode == ModeRealTime
  }

  lemma VibrationOverAudio(d: Dev, lim: Limits)
    requires InAudio(d)
    ensures VibratingOverAudio(Section(d, PlayTimed(232, 3), lim).0) && Section(d, PlayTimed(232, 3), lim).1.StartTimer?
  {
    var e := Stop(d);
    assert e == SetAudio(d, false) && e.dev == DevStandby && e.audioEnabled;
  }

  lemma DisablingBringsAudioBack(d: Dev, lim: Limits)
    requires VibratingOverAudio(d)
    ensures
      var (e, arm) := Section(d, AudioDisable, lim);
      e.mode == ModeAudio && !e.audioEnabled && arm == NoArming
  {
    assert Stop(d) == SetAudio(d, true);
  }

  // Switching audio-to-haptics on, vibrating for a second, and switching it off again while that lasts: a run that ends with
  // the chip in audio mode, audio-to-haptics off, and nothing left to happen.
  lemma AudioModeIsLeftOn(first: State, lim: Limits) returns (states: seq<State>, steps: seq<Step>)
    requires Initial(first) && |first.callers| > 0 && lim.timeout > 0
    ensures Run(states, steps, lim) && states[0] == first
    ensures
      var last := states[|steps|];
      last.d.mode == ModeAudio && !last.d.audioEnabled && Quiet(last)
  {
    states, steps := [first], [];
    var s1, s2, s3;
    EnablingAudio(first.d.(shouldStop := true), lim);
    states, steps, s1 := CommandRun(states, steps, AudioEnable, lim);
    VibrationOverAudio(s1.d.(shouldStop := true), lim);
    states, steps, s2 := CommandRun(states, steps, PlayTimed(232, 3), lim);
    DisablingBringsAudioBack(s2.d.(shouldStop := true), lim);
    states, steps, s3 := CommandRun(states, steps, AudioDisable, lim);
  }
}
