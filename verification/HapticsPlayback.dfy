// Playback that no caller disturbs, in the interleaved system: the timer and the work item take turns until all has been
// played, in exactly one way, and what the chip sees is what module HapticsTraces says.
module HapticsPlayback {
  import opened Haptics
  import opened HapticsTraces
  import opened HapticsSystem

  // How many work runs are left.
  function Left(d: Dev): nat
  {
    if d.work == PatternOn && 0 <= d.repeatTimes then 2 * d.repeatTimes + 1
    else if d.work == PatternOff && 0 < d.repeatTimes then 2 * d.repeatTimes
    else if d.work == SeqOn || d.work == SeqOff then 1 + if d.rtpIndex < d.rtpCounts then d.rtpCounts - d.rtpIndex else 0
    else 0
  }

  // Each work run is one fewer, and the timer is started again exactly when there are more to come.
  lemma LeftFalls(d: Dev)
    requires Left(d) > 0
    ensures var (e, arm) := WorkSection(d);
            Left(e) == Left(d) - 1 && !arm.ScheduleWork? && (arm.StartTimer? <==> Left(e) > 0) && e.go == d.go
  {
    if d.work == PatternOn || d.work == PatternOff {
      assert WorkSection(d) == PatternWork(d);
      PatternLeftFalls(d);
    } else {
      assert WorkSection(d) == SequenceWork(d);
      SequenceLeftFalls(d);
    }
  }

  lemma PatternLeftFalls(d: Dev)
    requires Left(d) > 0 && (d.work == PatternOn || d.work == PatternOff)
    ensures var (e, arm) := PatternWork(d);
            Left(e) == Left(d) - 1 && !arm.ScheduleWork? && (arm.StartTimer? <==> Left(e) > 0) && e.go == d.go
  {
    var d1 := ChangeMode(d, PatternOff, DevReady);
    assert d1.work == PatternOff && d1.repeatTimes == d.repeatTimes && d1.go == d.go;
    var d2 := ChangeMode(d.(repeatTimes := d.repeatTimes - 1), PatternOn, DevReady);
    assert d2.work == PatternOn && d2.repeatTimes == d.repeatTimes - 1 && d2.go == d.go;
  }

  lemma SequenceLeftFalls(d: Dev)
    requires d.work == SeqOn || d.work == SeqOff
    ensures var (e, arm) := SequenceWork(d);
            Left(e) == Left(d) - 1 && !arm.ScheduleWork? && (arm.StartTimer? <==> Left(e) > 0) && e.go == d.go
  {
    if d.rtpIndex < d.rtpCounts {
      var e := ChangeMode(d.(playing := true, rtpIndex := d.rtpIndex + 1), SeqOn, DevReady);
      assert e.work == SeqOn && e.rtpIndex == d.rtpIndex + 1 && e.rtpCounts == d.rtpCounts && e.go == d.go;
    } else {
      var e := ChangeMode(d, WorkIdle, DevStandby);
      assert e.work == WorkIdle && e.go == d.go;
    }
  }

  predicate Alone(s: State)
  {
    forall i :: 0 <= i < |s.callers| ==> s.callers[i].Outside?
  }

  // The steps that are not a caller's or the system's resuming.
  predicate Inner(t: Step)
  {
    t.TimerFires? || t.WorkerPicked? || t.WorkerEnters? || t.EffectDone? || t.EffectOver? || t.WorkerLeaves?
  }

  // One thing is due, and it leads to `last`.
  predicate OnTrack(s: State, last: Dev)
  {
    && Alone(s) && !s.d.go && !(s.armed && s.pending)
    && match s.worker
       case Asleep =>
         if s.armed || s.pending then Left(s.d) > 0 && Runs(s.d, Left(s.d)) == last else s.d == last && Left(s.d) == 0
       case Picked => !s.armed && !s.pending && Left(s.d) > 0 && Runs(s.d, Left(s.d)) == last
       case Concluding(arm) =>
         && !s.armed && !s.pending && !arm.ScheduleWork? && (arm.StartTimer? <==> Left(s.d) > 0)
         && Runs(Armed(s.d, arm), Left(s.d)) == last
       case Polling => false
  }

  // How many steps there are to go.
  function Distance(s: State): int
  {
    match s.worker
    case Asleep => if s.pending then 4 * Left(s.d) - 1 else 4 * Left(s.d)
    case Picked => 4 * Left(s.d) - 2
    case Concluding(_) => 4 * Left(s.d) + 1
    case Polling => 0
  }

  // Every step keeps to the track and brings its end one step nearer.
  lemma TrackStep(s: State, t: Step, lim: Limits, last: Dev)
    requires OnTrack(s, last) && Inner(t) && Enabled(s, t)
    ensures OnTrack(Next(s, t, lim), last)
    ensures Distance(Next(s, t, lim)) == Distance(s) - 1
  {
    if t.WorkerEnters? {
      EntersOnTrack(s, lim, last);
    }
  }

  lemma EntersOnTrack(s: State, lim: Limits, last: Dev)
    requires OnTrack(s, last) && s.worker.Picked? && Enabled(s, WorkerEnters)
    ensures OnTrack(Next(s, WorkerEnters, lim), last)
    ensures Distance(Next(s, WorkerEnters, lim)) == Distance(s) - 1
  {
    LeftFalls(s.d);
    RunsUnfold(s.d, Left(s.d));
  }

  // A stretch of a run in which callers do nothing.
  ghost predicate Undisturbed(states: seq<State>, steps: seq<Step>, lim: Limits)
  {
    && |states| == |steps| + 1
    && forall k :: 0 <= k < |steps| ==>
         Inner(steps[k]) && Enabled(states[k], steps[k]) && states[k + 1] == Next(states[k], steps[k], lim)
  }

  lemma RestAtDistanceZero(s: State, last: Dev)
    requires OnTrack(s, last)
    ensures 0 <= Distance(s) && (Quiet(s) <==> Distance(s) == 0)
    ensures Quiet(s) ==> s.d == last
  {
  }

  // On the track to `last`, with so many steps to go.
  predicate OnTrackAt(s: State, last: Dev, distance: int)
  {
    OnTrack(s, last) && Distance(s) == distance
  }

  lemma TrackTaken(s: State, t: Step, s': State, lim: Limits, last: Dev, distance: int)
    requires OnTrackAt(s, last, distance) && Inner(t) && Enabled(s, t) && s' == Next(s, t, lim)
    ensures OnTrackAt(s', last, distance - 1)
  {
    TrackStep(s, t, lim, last);
  }

  lemma {:induction false} TrackKept(states: seq<State>, steps: seq<Step>, lim: Limits, last: Dev, distance: int, k: nat)
    requires Undisturbed(states, steps, lim) && OnTrackAt(states[0], last, distance) && k < |states|
    ensures OnTrackAt(states[k], last, distance - k)
  {
    if k > 0 {
      TrackKept(states, steps, lim, last, distance, k - 1);
      assert Inner(steps[k - 1]);
      TrackTaken(states[k - 1], steps[k - 1], states[k], lim, last, distance - (k - 1));
    }
  }

  // It ends after exactly so many steps, and it ends with `last`.
  lemma TrackEnds(states: seq<State>, steps: seq<Step>, lim: Limits, last: Dev, k: nat)
    requires Undisturbed(states, steps, lim) && OnTrack(states[0], last) && k < |states|
    ensures OnTrack(states[k], last) && Distance(states[k]) == Distance(states[0]) - k
    ensures Quiet(states[k]) <==> k == Distance(states[0])
    ensures Quiet(states[k]) ==> states[k].d == last
  {
    TrackKept(states, steps, lim, last, Distance(states[0]), k);
    RestAtDistanceZero(states[k], last);
  }

  // Until then there is always a step that can be taken.
  lemma TrackGoesOn(s: State, last: Dev)
    requires OnTrack(s, last) && !Quiet(s)
    ensures exists t :: Inner(t) && Enabled(s, t)
  {
    var t := if s.armed then TimerFires else if s.pending then WorkerPicked else if s.worker.Picked? then WorkerEnters else WorkerLeaves;
    assert Inner(t) && Enabled(s, t);
  }

  // A caller alone in the system, about to enter its critical section.
  predicate Entering(s: State, i: nat, cmd: Command)
  {
    && Safe(s) && i < |s.callers| && s.callers[i] == WorkCancelled(cmd)
    && (forall j :: 0 <= j < |s.callers| && j != i ==> s.callers[j].Outside?)
    && s.worker.Asleep? && !s.armed && !s.pending
  }

  function Issued(s: State, i: nat, lim: Limits): State
    requires Enabled(s, Enter(i)) && Enabled(Next(s, Enter(i), lim), Leave(i))
  {
    Next(Next(s, Enter(i), lim), Leave(i), lim)
  }

  lemma EnteringIssues(s: State, i: nat, cmd: Command, lim: Limits)
    requires Entering(s, i, cmd)
    ensures Enabled(s, Enter(i)) && Enabled(Next(s, Enter(i), lim), Leave(i))
    ensures var (d, arm) := Section(s.d, cmd, lim);
            Issued(s, i, lim)
            == State(Issue(s.d, cmd, lim), arm.StartTimer?, arm.ScheduleWork?, Asleep, s.callers[i := Outside])
    ensures !Issue(s.d, cmd, lim).go && Alone(Issued(s, i, lim))
  {
    SectionIsCoherent(s.d, cmd, lim);
    var c := Finishing(Section(s.d, cmd, lim).1);
    assert s.callers[i := c][i := Outside] == s.callers[i := Outside];
  }

  // A PATTERN_RTP command: whatever the timing of timer and work item, every undisturbed run comes to rest after the same
  // number of steps, and then exactly the pattern has been played.
  lemma PatternPlays(s: State, i: nat, vibration: nat, silence: nat, strength: nat, repeat: nat, lim: Limits,
                     states: seq<State>, steps: seq<Step>, k: nat)
    requires Entering(s, i, PlayPattern(vibration, silence, strength, repeat)) && vibration > 0
    requires Undisturbed(states, steps, lim) && k < |states|
    requires Enabled(s, Enter(i)) && Enabled(Next(s, Enter(i), lim), Leave(i)) && states[0] == Issued(s, i, lim)
    ensures
      var n := if repeat > 0 then repeat else 1;
      && (Quiet(states[k]) <==> k == 4 * (2 * n - 1))
      && (Quiet(states[k]) ==>
            Over(states[k].d, Stop(s.d).log + [ModeReg(ModeRealTime), RtpReg(strength)]
                              + Phases(n, Min(vibration, lim.timeout), silence) + [ModeReg(ModeStandby)]))
  {
    var cmd := PlayPattern(vibration, silence, strength, repeat);
    var n := if repeat > 0 then repeat else 1;
    var last := PatternBegins(s, i, cmd, lim, n);
    TrackEnds(states, steps, lim, last, k);
  }

  lemma PatternBegins(s: State, i: nat, cmd: Command, lim: Limits, n: nat) returns (last: Dev)
    requires cmd.PlayPattern? && Entering(s, i, cmd) && cmd.vibration > 0 && n == (if cmd.repeat > 0 then cmd.repeat else 1)
    requires Enabled(s, Enter(i)) && Enabled(Next(s, Enter(i), lim), Leave(i))
    ensures OnTrack(Issued(s, i, lim), last) && Distance(Issued(s, i, lim)) == 4 * (2 * n - 1)
    ensures Over(last, Stop(s.d).log + [ModeReg(ModeRealTime), RtpReg(cmd.strength)]
                       + Phases(n, Min(cmd.vibration, lim.timeout), cmd.silence) + [ModeReg(ModeStandby)])
  {
    EnteringIssues(s, i, cmd, lim);
    last := Runs(Issue(s.d, cmd, lim), 2 * n - 1);
    PatternOnTrack(s, cmd, lim, Issued(s, i, lim), n);
    PatternTrace(s.d, cmd.vibration, cmd.silence, cmd.strength, cmd.repeat, lim);
  }

  lemma PatternOnTrack(s: State, cmd: Command, lim: Limits, first: State, n: nat)
    requires Safe(s) && cmd.PlayPattern? && cmd.vibration > 0 && n == (if cmd.repeat > 0 then cmd.repeat else 1)
    requires Alone(first) && !first.d.go && first.d == Issue(s.d, cmd, lim)
    requires first.worker.Asleep? && first.armed == Section(s.d, cmd, lim).1.StartTimer? && !first.pending
    ensures OnTrack(first, Runs(first.d, 2 * n - 1)) && Distance(first) == 4 * (2 * n - 1)
  {
    PatternIssued(s.d, cmd.vibration, cmd.silence, cmd.strength, cmd.repeat, lim);
  }

  // An RTP_SEQUENCE command likewise.
  lemma {:induction false} SequencePlays(s: State, i: nat, payload: seq<nat>, lim: Limits, states: seq<State>, steps: seq<Step>, k: nat)
    requires Entering(s, i, PlaySequence(true, payload))
    requires |payload| % 2 == 0 && 0 < |payload| / 2 <= lim.sequence
    requires Undisturbed(states, steps, lim) && k < |states|
    requires Enabled(s, Enter(i)) && Enabled(Next(s, Enter(i), lim), Leave(i)) && states[0] == Issued(s, i, lim)
    ensures Quiet(states[k]) <==> k == 4 * (|payload| / 2 + 1) - 1
    ensures Quiet(states[k]) ==>
              Over(states[k].d, Stop(s.d).log + [ModeReg(ModeRealTime)] + SequenceEvents(Words(payload)) + [ModeReg(ModeStandby)])
  {
    var last := SequenceBegins(s, i, payload, lim);
    TrackEnds(states, steps, lim, last, k);
  }

  lemma SequenceBegins(s: State, i: nat, payload: seq<nat>, lim: Limits) returns (last: Dev)
    requires Entering(s, i, PlaySequence(true, payload))
    requires |payload| % 2 == 0 && 0 < |payload| / 2 <= lim.sequence
    requires Enabled(s, Enter(i)) && Enabled(Next(s, Enter(i), lim), Leave(i))
    ensures OnTrack(Issued(s, i, lim), last) && Distance(Issued(s, i, lim)) == 4 * (|payload| / 2 + 1) - 1
    ensures Over(last, Stop(s.d).log + [ModeReg(ModeRealTime)] + SequenceEvents(Words(payload)) + [ModeReg(ModeStandby)])
  {
    var cmd := PlaySequence(true, payload);
    EnteringIssues(s, i, cmd, lim);
    SequenceIssued(s.d, payload, lim);
    last := Runs(Issue(s.d, cmd, lim), |payload| / 2 + 1);
    SequenceOnTrack(Issued(s, i, lim), Words(payload));
    SequenceTrace(s.d, payload, lim);
  }

  lemma SequenceOnTrack(first: State, words: seq<nat>)
    requires Alone(first) && !first.d.go && first.worker.Asleep? && first.pending && !first.armed
    requires Sequencing(first.d, words, 0) && 0 < |words|
    ensures OnTrack(first, Runs(first.d, |words| + 1)) && Distance(first) == 4 * (|words| + 1) - 1
  {
  }
}
