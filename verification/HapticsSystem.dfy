// The DRV2605 driver with its concurrency: any number of callers, the timer and the work item, interleaved at every point
// where they can meet. Callers cancel the timer and the work item without the mutex; critical sections exclude each other,
// but the start of the timer that ends one can be raced by a cancelling caller.
module HapticsSystem {
  import opened Haptics

  // Where a caller is. A section leaves what it still has to start; until then it holds the mutex.
  datatype Caller =
    | Outside
    | Requested(cmd: Command)         // should_stop is set
    | TimerCancelled(cmd: Command)    // hrtimer_cancel has returned
    | WorkCancelled(cmd: Command)     // cancel_work_sync has returned; next is drv2605_stop, under the mutex
    | Finishing(arm: Arming)          // about to start the timer or the work item, then to unlock

  // Where the work item is. Polling and Concluding are inside the mutex.
  datatype Worker = Asleep | Picked | Polling | Concluding(arm: Arming)

  datatype State = State(d: Dev, armed: bool, pending: bool, worker: Worker, callers: seq<Caller>)

  predicate MutexFree(s: State)
  {
    && !s.worker.Polling? && !s.worker.Concluding?
    && forall i :: 0 <= i < |s.callers| ==> !s.callers[i].Finishing?
  }

  function At(s: State, i: nat, c: Caller): State
    requires i < |s.callers|
  {
    s.(callers := s.callers[i := c])
  }

  // hrtimer_start or schedule_work, if the section asked for it.
  function Start(s: State, arm: Arming): State
  {
    s.(d := Armed(s.d, arm), armed := s.armed || arm.StartTimer?, pending := s.pending || arm.ScheduleWork?)
  }

  datatype Step =
    | Request(i: nat, cmd: Command)
    | CancelTimer(i: nat)
    | CancelWork(i: nat)
    | Enter(i: nat)
    | Leave(i: nat)
    | LateResume
    | TimerFires
    | WorkerPicked
    | WorkerEnters
    | EffectDone       // the chip has played its waveform
    | EffectOver       // play_effect sees that, or should_stop
    | WorkerLeaves

  // When a step can happen.
  predicate Enabled(s: State, t: Step)
  {
    match t
    case Request(i, cmd) => i < |s.callers| && s.callers[i].Outside?
    case CancelTimer(i) => i < |s.callers| && s.callers[i].Requested?
    case CancelWork(i) => i < |s.callers| && s.callers[i].TimerCancelled? && s.worker.Asleep?
    case Enter(i) => i < |s.callers| && s.callers[i].WorkCancelled? && MutexFree(s)
    case Leave(i) => i < |s.callers| && s.callers[i].Finishing?
    case LateResume => MutexFree(s)
    case TimerFires => s.armed
    case WorkerPicked => s.pending && s.worker.Asleep?
    case WorkerEnters => s.worker.Picked? && MutexFree(s)
    case EffectDone => s.d.go
    case EffectOver => s.worker.Polling? && (!s.d.go || s.d.shouldStop)
    case WorkerLeaves => s.worker.Concluding?
  }

  function Next(s: State, t: Step, lim: Limits): State
    requires Enabled(s, t)
  {
    match t
    case Request(i, cmd) => At(s, i, Requested(cmd)).(d := s.d.(shouldStop := true))
    case CancelTimer(i) => At(s, i, TimerCancelled(s.callers[i].cmd)).(armed := false)
    case CancelWork(i) => At(s, i, WorkCancelled(s.callers[i].cmd)).(pending := false)
    case Enter(i) =>
      var (d, arm) := Section(s.d, s.callers[i].cmd, lim);
      At(s, i, Finishing(arm)).(d := d)
    case Leave(i) => Start(At(s, i, Outside), s.callers[i].arm)
    case LateResume => s.(d := Resume(s.d))
    case TimerFires => s.(armed := false, pending := true)
    case WorkerPicked => s.(pending := false, worker := Picked)
    case WorkerEnters =>
      if s.d.work == SeqPlayback then s.(d := EffectStart(s.d), worker := Polling)
      else
        var (d, arm) := WorkSection(s.d);
        s.(d := d, worker := Concluding(arm))
    case EffectDone => s.(d := s.d.(go := false))
    case EffectOver => s.(d := EffectEnd(s.d), worker := Asleep)
    case WorkerLeaves => Start(s.(worker := Asleep), s.worker.arm)
  }

  // A caller that will end the vibration, or that is just starting its timer.
  predicate Attends(c: Caller)
  {
    c.TimerCancelled? || c.WorkCancelled? || (c.Finishing? && c.arm.StartTimer?)
  }

  predicate SomeoneAttends(callers: seq<Caller>)
  {
    exists i :: 0 <= i < |callers| && Attends(callers[i])
  }

  // Somebody is bound to end the vibration that goes on.
  predicate Attended(s: State)
  {
    || s.armed
    || s.pending
    || s.worker.Picked?
    || (s.worker.Concluding? && s.worker.arm.StartTimer?)
    || SomeoneAttends(s.callers)
  }

  // At most one holder of the mutex.
  predicate Excluded(s: State)
  {
    && (s.worker.Polling? || s.worker.Concluding? ==> forall i :: 0 <= i < |s.callers| ==> !s.callers[i].Finishing?)
    && (forall i, j :: 0 <= i < |s.callers| && 0 <= j < |s.callers| && s.callers[i].Finishing? && s.callers[j].Finishing? ==> i == j)
  }

  // The invariant: the mode cache is right; a motor in real-time playback is attended; a waveform is playing only while
  // the work item waits for its end.
  predicate Safe(s: State)
  {
    && Coherent(s.d)
    && Excluded(s)
    && (s.d.mode == ModeRealTime ==> Attended(s))
    && (s.d.go ==> s.worker.Polling?)
    && (s.worker.Polling? ==> s.d.work == SeqPlayback && s.d.dev == DevReady)
  }

  // The state after probe.
  predicate Initial(s: State)
  {
    && s.d.dev == DevStandby && s.d.work == WorkIdle && s.d.mode == ModeStandby && !s.d.playing && !s.d.go
    && !s.armed && !s.pending && s.worker.Asleep?
    && forall i :: 0 <= i < |s.callers| ==> s.callers[i].Outside?
  }

  lemma InitiallySafe(s: State)
    requires Initial(s)
    ensures Safe(s)
  {
  }

  // Moving one caller on, for the attendance of the motor.
  lemma CallerMoves(callers: seq<Caller>, i: nat, c: Caller)
    requires i < |callers|
    ensures Attends(c) ==> SomeoneAttends(callers[i := c])
    ensures SomeoneAttends(callers) && !Attends(callers[i]) ==> SomeoneAttends(callers[i := c])
  {
    if Attends(c) {
      assert Attends(callers[i := c][i]);
    }
    if SomeoneAttends(callers) && !Attends(callers[i]) {
      var k :| 0 <= k < |callers| && Attends(callers[k]);
      assert callers[i := c][k] == callers[k];
    }
  }

  lemma EnterIsSafe(s: State, i: nat, lim: Limits)
    requires Safe(s) && Enabled(s, Enter(i))
    ensures Safe(Next(s, Enter(i), lim))
  {
    SectionIsCoherent(s.d, s.callers[i].cmd, lim);
    var (d, arm) := Section(s.d, s.callers[i].cmd, lim);
    CallerMoves(s.callers, i, Finishing(arm));
  }

  lemma LeaveIsSafe(s: State, i: nat, lim: Limits)
    requires Safe(s) && Enabled(s, Leave(i))
    ensures Safe(Next(s, Leave(i), lim))
  {
    CallerMoves(s.callers, i, Outside);
  }

  lemma WorkerEntersIsSafe(s: State, lim: Limits)
    requires Safe(s) && Enabled(s, WorkerEnters)
    ensures Safe(Next(s, WorkerEnters, lim))
  {
    if s.d.work == SeqPlayback {
      EffectIsCoherent(s.d);
    } else {
      WorkSectionIsCoherent(s.d);
    }
  }

  // Every step of every interleaving keeps the invariant.
  lemma StepIsSafe(s: State, t: Step, lim: Limits)
    requires Safe(s) && Enabled(s, t)
    ensures Safe(Next(s, t, lim))
  {
    match t
    case Request(i, cmd) => CallerMoves(s.callers, i, Requested(cmd));
    case CancelTimer(i) => CallerMoves(s.callers, i, TimerCancelled(s.callers[i].cmd));
    case CancelWork(i) => CallerMoves(s.callers, i, WorkCancelled(s.callers[i].cmd));
    case Enter(i) => EnterIsSafe(s, i, lim);
    case Leave(i) => LeaveIsSafe(s, i, lim);
    case LateResume => ResumeIsCoherent(s.d);
    case WorkerEnters => WorkerEntersIsSafe(s, lim);
    case EffectOver => EffectIsCoherent(s.d);
    case _ =>
  }

  // A run: a sequence of states, each reached from the one before by some step.
  ghost predicate Run(states: seq<State>, steps: seq<Step>, lim: Limits)
  {
    && |states| == |steps| + 1 && Initial(states[0])
    && forall k :: 0 <= k < |steps| ==> Enabled(states[k], steps[k]) && states[k + 1] == Next(states[k], steps[k], lim)
  }

  // In every state of every run: the chip is in the mode the driver believes it is in, and a vibrating motor is attended.
  lemma {:induction false} NeverUnattended(states: seq<State>, steps: seq<Step>, lim: Limits, k: nat)
    requires Run(states, steps, lim) && k < |states|
    ensures Safe(states[k])
    ensures states[k].d.mode == ModeRealTime ==> Attended(states[k])
  {
    if k == 0 {
      InitiallySafe(states[0]);
    } else {
      NeverUnattended(states, steps, lim, k - 1);
      assert Enabled(states[k - 1], steps[k - 1]);
      StepIsSafe(states[k - 1], steps[k - 1], lim);
    }
  }

  // Nothing is left that could still happen by itself.
  predicate Quiet(s: State)
  {
    && !s.armed && !s.pending && s.worker.Asleep?
    && forall i :: 0 <= i < |s.callers| ==> s.callers[i].Outside?
  }

  // So once a run has come to rest, the motor is still, and no waveform plays.
  lemma RestMeansStill(states: seq<State>, steps: seq<Step>, lim: Limits, k: nat)
    requires Run(states, steps, lim) && k < |states| && Quiet(states[k])
    ensures states[k].d.mode != ModeRealTime && !states[k].d.go
  {
    NeverUnattended(states, steps, lim, k);
  }
}
