// What an uninterrupted playback does, from the command to the standby mode: every register write and timer start.
module HapticsTraces {
  import opened Haptics

  function Issue(d: Dev, cmd: Command, lim: Limits): Dev
  {
    var (e, arm) := Section(d, cmd, lim);
    Armed(e, arm)
  }

  // One run of the work item, and k runs one after the other, each when the timer of the one before has fired.
  function RunWork(d: Dev): Dev
    requires d.work != SeqPlayback
  {
    var (e, arm) := WorkSection(d);
    Armed(e, arm)
  }

  function Runs(d: Dev, k: nat): Dev
    requires k > 0 ==> d.work != SeqPlayback
    decreases k
  {
    if k == 0 then d
    else
      var e := RunWork(d);
      if e.work == SeqPlayback then e else Runs(e, k - 1)
  }

  // From the n-th last vibration of a pattern on: n vibrations with silences between them.
  function Phases(n: nat, vibration: nat, silence: nat): seq<Event>
    requires n > 0
  {
    if n == 1 then [Arm(vibration), ModeReg(ModeInternal)]
    else [Arm(vibration), ModeReg(ModeInternal), Arm(silence), ModeReg(ModeRealTime)] + Phases(n - 1, vibration, silence)
  }

  // How often an event occurs.
  function Count(log: seq<Event>, e: Event): nat
  {
    if log == [] then 0 else (if log[0] == e then 1 else 0) + Count(log[1..], e)
  }

  lemma {:induction false} CountConcat(a: seq<Event>, b: seq<Event>, e: Event)
    ensures Count(a + b, e) == Count(a, e) + Count(b, e)
  {
    if a == [] {
      assert a + b == b;
    } else {
      CountConcat(a[1..], b, e);
      assert (a + b)[1..] == a[1..] + b;
    }
  }

  lemma CountFour(a: Event, b: Event, c: Event, d: Event, e: Event)
    ensures Count([a, b, c, d], e)
            == (if a == e then 1 else 0) + (if b == e then 1 else 0) + (if c == e then 1 else 0) + (if d == e then 1 else 0)
  {
    assert [a, b, c, d][1..] == [b, c, d] && [b, c, d][1..] == [c, d] && [c, d][1..] == [d] && [d][1..] == [];
    assert Count([c, d], e) == (if c == e then 1 else 0) + Count([d], e);
    assert Count([b, c, d], e) == (if b == e then 1 else 0) + Count([c, d], e);
  }

  // In the phases of n vibrations, each is timed once and switched off once, and the n - 1 silences between them are timed
  // too.
  lemma {:induction false} PhasesCount(n: nat, vibration: nat, silence: nat, e: Event)
    requires n > 0
    ensures Count(Phases(n, vibration, silence), e)
            == (if e == Arm(vibration) then n else 0) + (if e == ModeReg(ModeInternal) then n else 0)
               + (if e == Arm(silence) then n - 1 else 0) + (if e == ModeReg(ModeRealTime) then n - 1 else 0)
  {
    if n == 1 {
      assert [Arm(vibration), ModeReg(ModeInternal)][1..] == [ModeReg(ModeInternal)];
      assert [ModeReg(ModeInternal)][1..] == [];
      assert Count([ModeReg(ModeInternal)], e) == (if ModeReg(ModeInternal) == e then 1 else 0) + Count([], e);
    } else {
      PhasesCount(n - 1, vibration, silence, e);
      CountFour(Arm(vibration), ModeReg(ModeInternal), Arm(silence), ModeReg(ModeRealTime), e);
      CountConcat([Arm(vibration), ModeReg(ModeInternal), Arm(silence), ModeReg(ModeRealTime)],
                  Phases(n - 1, vibration, silence), e);
    }
  }

  // How many work runs a pattern still needs.
  function PatternMeasure(d: Dev): int
  {
    if d.work == PatternOn then 2 * d.repeatTimes + 1 else if d.work == PatternOff then 2 * d.repeatTimes else 0
  }

  // A pattern in its vibrating phase.
  predicate Vibrating(d: Dev, repeat: nat)
  {
    d.work == PatternOn && d.dev == DevReady && d.mode == ModeRealTime && d.playing && d.repeatTimes == repeat
  }

  // Every work run of a pattern brings it one step nearer to its end.
  lemma PatternMeasureFalls(d: Dev)
    requires d.dev == DevReady && ((d.work == PatternOn && 0 <= d.repeatTimes) || (d.work == PatternOff && 0 < d.repeatTimes))
    ensures PatternMeasure(RunWork(d)) == PatternMeasure(d) - 1
    ensures PatternMeasure(d) == 1 <==> RunWork(d).dev == DevStandby
  {
  }

  lemma PatternTwoRuns(d: Dev, repeat: nat)
    requires Vibrating(d, repeat) && repeat > 0
    ensures
      var e := RunWork(RunWork(d));
      && RunWork(d).work == PatternOff
      && Vibrating(e, repeat - 1)
      && e.vibrationTime == d.vibrationTime && e.silenceTime == d.silenceTime
      && e.log == d.log + [ModeReg(ModeInternal), Arm(d.silenceTime), ModeReg(ModeRealTime), Arm(d.vibrationTime)]
  {
    var off := RunWork(d);
    assert off.log == d.log + [ModeReg(ModeInternal), Arm(d.silenceTime)];
    var on := RunWork(off);
    assert on.log == off.log + [ModeReg(ModeRealTime), Arm(d.vibrationTime)];
  }

  // Playback is over, and this is what happened.
  predicate Over(d: Dev, log: seq<Event>)
  {
    d.dev == DevStandby && d.work == WorkIdle && d.mode == ModeStandby && !d.playing && d.log == log
  }

  lemma PatternLastRun(d: Dev)
    requires Vibrating(d, 0)
    ensures Over(RunWork(d), d.log + [ModeReg(ModeInternal), ModeReg(ModeStandby)])
  {
  }

  // The log of a pattern from `before` on, up to the end.
  function PatternEnd(before: seq<Event>, n: nat, vibration: nat, silence: nat): seq<Event>
    requires n > 0
  {
    before + Phases(n, vibration, silence) + [ModeReg(ModeStandby)]
  }

  lemma PatternEndUnfold(before: seq<Event>, n: nat, vibration: nat, silence: nat)
    requires n > 1
    ensures PatternEnd(before, n, vibration, silence)
            == PatternEnd(before + [Arm(vibration), ModeReg(ModeInternal), Arm(silence), ModeReg(ModeRealTime)],
                          n - 1, vibration, silence)
  {
    var head := [Arm(vibration), ModeReg(ModeInternal), Arm(silence), ModeReg(ModeRealTime)];
    assert before + (head + Phases(n - 1, vibration, silence)) == before + head + Phases(n - 1, vibration, silence);
  }

  // From the start of a vibration (its timer already running) to the end of the pattern.
  lemma {:induction false} PatternRuns(d: Dev, repeat: nat, before: seq<Event>)
    requires Vibrating(d, repeat) && d.log == before + [Arm(d.vibrationTime)]
    ensures Over(Runs(d, 2 * repeat + 1), PatternEnd(before, repeat + 1, d.vibrationTime, d.silenceTime))
    decreases repeat
  {
    if repeat == 0 {
      PatternFinish(d, before);
    } else {
      PatternEndUnfold(before, repeat + 1, d.vibrationTime, d.silenceTime);
      var e := PatternNext(d, repeat, before);
      PatternRuns(e, repeat - 1,
                  before + [Arm(d.vibrationTime), ModeReg(ModeInternal), Arm(d.silenceTime), ModeReg(ModeRealTime)]);
    }
  }

  lemma PatternFinish(d: Dev, before: seq<Event>)
    requires Vibrating(d, 0) && d.log == before + [Arm(d.vibrationTime)]
    ensures Over(Runs(d, 1), PatternEnd(before, 1, d.vibrationTime, d.silenceTime))
  {
    PatternLastRun(d);
    RunsUnfold(d, 1);
    PatternTail(before, d.vibrationTime, d.silenceTime);
  }

  // The next vibration after this one.
  lemma PatternNext(d: Dev, repeat: nat, before: seq<Event>) returns (e: Dev)
    requires Vibrating(d, repeat) && repeat > 0 && d.log == before + [Arm(d.vibrationTime)]
    ensures Vibrating(e, repeat - 1) && e.vibrationTime == d.vibrationTime && e.silenceTime == d.silenceTime
    ensures e.log == before + [Arm(d.vibrationTime), ModeReg(ModeInternal), Arm(d.silenceTime), ModeReg(ModeRealTime)]
                     + [Arm(d.vibrationTime)]
    ensures Runs(d, 2 * repeat + 1) == Runs(e, 2 * (repeat - 1) + 1)
  {
    PatternTwoRuns(d, repeat);
    e := RunWork(RunWork(d));
    PatternHead(d.log, e.log, before, d.vibrationTime, d.silenceTime);
    RunsUnfoldTwice(d, 2 * repeat + 1);
  }

  lemma RunsUnfold(d: Dev, k: nat)
    requires k >= 1 && d.work != SeqPlayback && RunWork(d).work != SeqPlayback
    ensures Runs(d, k) == Runs(RunWork(d), k - 1)
  {
  }

  lemma RunsUnfoldTwice(d: Dev, k: nat)
    requires k >= 2 && d.work != SeqPlayback && RunWork(d).work != SeqPlayback && RunWork(RunWork(d)).work != SeqPlayback
    ensures Runs(d, k) == Runs(RunWork(RunWork(d)), k - 2)
  {
  }

  lemma PatternTail(before: seq<Event>, vibration: nat, silence: nat)
    ensures before + [Arm(vibration)] + [ModeReg(ModeInternal), ModeReg(ModeStandby)]
            == PatternEnd(before, 1, vibration, silence)
  {
  }

  lemma PatternHead(log: seq<Event>, after: seq<Event>, before: seq<Event>, vibration: nat, silence: nat)
    requires log == before + [Arm(vibration)]
    requires after == log + [ModeReg(ModeInternal), Arm(silence), ModeReg(ModeRealTime), Arm(vibration)]
    ensures after == before + [Arm(vibration), ModeReg(ModeInternal), Arm(silence), ModeReg(ModeRealTime)] + [Arm(vibration)]
  {
  }

  // A pattern command that nothing interrupts: exactly max(1, repeat) vibrations of the strength asked for, with silences
  // between them, then standby; 2 * max(1, repeat) - 1 runs of the work item.
  lemma PatternTrace(d: Dev, vibration: nat, silence: nat, strength: nat, repeat: nat, lim: Limits)
    requires Coherent(d) && vibration > 0
    ensures
      var n := if repeat > 0 then repeat else 1;
      Over(Runs(Issue(d, PlayPattern(vibration, silence, strength, repeat), lim), 2 * n - 1),
           Stop(d).log + [ModeReg(ModeRealTime), RtpReg(strength)]
           + Phases(n, Min(vibration, lim.timeout), silence) + [ModeReg(ModeStandby)])
  {
    var n := if repeat > 0 then repeat else 1;
    PatternIssued(d, vibration, silence, strength, repeat, lim);
    PatternRuns(Issue(d, PlayPattern(vibration, silence, strength, repeat), lim), n - 1,
                Stop(d).log + [ModeReg(ModeRealTime), RtpReg(strength)]);
  }

  lemma PatternIssued(d: Dev, vibration: nat, silence: nat, strength: nat, repeat: nat, lim: Limits)
    requires Coherent(d) && vibration > 0
    ensures
      var e := Issue(d, PlayPattern(vibration, silence, strength, repeat), lim);
      var v := Min(vibration, lim.timeout);
      && Vibrating(e, (if repeat > 0 then repeat else 1) - 1)
      && e.vibrationTime == v && e.silenceTime == silence
      && e.log == Stop(d).log + [ModeReg(ModeRealTime), RtpReg(strength)] + [Arm(v)]
  {
    StopIsCoherent(d);
  }

  // The register values and times of a sequence, word by word.
  function SequenceEvents(words: seq<nat>): seq<Event>
  {
    if words == [] then [] else [RtpReg(words[0] % 256), Arm(words[0] / 256)] + SequenceEvents(words[1..])
  }

  lemma {:induction false} SequenceEventsSnoc(words: seq<nat>, w: nat)
    ensures SequenceEvents(words + [w]) == SequenceEvents(words) + [RtpReg(w % 256), Arm(w / 256)]
  {
    if words == [] {
      assert words + [w] == [w];
      assert SequenceEvents([w]) == [RtpReg(w % 256), Arm(w / 256)] + SequenceEvents([w][1..]);
    } else {
      SequenceEventsSnoc(words[1..], w);
      assert (words + [w])[1..] == words[1..] + [w];
    }
  }

  // A sequence of which `index` words have been played.
  predicate Sequencing(d: Dev, words: seq<nat>, index: nat)
  {
    && d.rtpData == words && d.rtpCounts == |words| && d.rtpIndex == index <= |words|
    && if index == 0 then d.work == SeqOff && d.dev == DevIdle
       else d.work == SeqOn && d.dev == DevReady && d.mode == ModeRealTime && d.playing
  }

  // One work run plays the next word, never one beyond the end, with the chip in real-time mode, whether or not
  // change_mode had to write it.
  lemma SequenceOneRun(d: Dev, words: seq<nat>, index: nat)
    requires Sequencing(d, words, index) && index < |words|
    ensures
      var e := RunWork(d);
      && Sequencing(e, words, index + 1) && e.mode == ModeRealTime
      && e.log == d.log + (if index == 0 then [ModeReg(ModeRealTime)] else []) + [RtpReg(words[index] % 256), Arm(words[index] / 256)]
  {
  }

  // The log of a sequence from `before` on, with `index` words played.
  function SequenceLog(before: seq<Event>, words: seq<nat>, index: nat): seq<Event>
    requires index <= |words|
  {
    before + (if index == 0 then [] else [ModeReg(ModeRealTime)]) + SequenceEvents(words[..index])
  }

  lemma SequenceLogStarts(before: seq<Event>, words: seq<nat>)
    ensures SequenceLog(before, words, 0) == before
  {
    assert words[..0] == [] && SequenceEvents([]) == [];
  }

  lemma SequenceLogGrows(before: seq<Event>, words: seq<nat>, index: nat)
    requires index < |words|
    ensures SequenceLog(before, words, index + 1)
            == SequenceLog(before, words, index) + (if index == 0 then [ModeReg(ModeRealTime)] else [])
               + [RtpReg(words[index] % 256), Arm(words[index] / 256)]
  {
    assert words[..index + 1] == words[..index] + [words[index]];
    SequenceEventsSnoc(words[..index], words[index]);
    if index == 0 {
      assert SequenceEvents(words[..0]) == [];
    }
  }

  lemma {:induction false} SequenceRuns(d: Dev, words: seq<nat>, index: nat, before: seq<Event>)
    requires Sequencing(d, words, index) && 0 < |words|
    requires d.log == SequenceLog(before, words, index)
    ensures
      var e := Runs(d, |words| - index + 1);
      e.rtpIndex == |words| && Over(e, SequenceLog(before, words, |words|) + [ModeReg(ModeStandby)])
    decreases |words| - index
  {
    if index == |words| {
      assert Runs(d, 1) == Runs(RunWork(d), 0);
    } else {
      SequenceOneRun(d, words, index);
      SequenceLogGrows(before, words, index);
      SequenceRuns(RunWork(d), words, index + 1, before);
    }
  }

  // The words of a command's payload: byte pairs, value first, time second.
  lemma {:induction false} WordsAt(payload: seq<nat>, i: nat)
    requires |payload| % 2 == 0 && i < |payload| / 2
    requires forall k :: 0 <= k < |payload| ==> payload[k] < 256
    ensures Words(payload)[i] % 256 == payload[2 * i] && Words(payload)[i] / 256 == payload[2 * i + 1]
  {
    if i > 0 {
      WordsAt(payload[2..], i - 1);
    }
  }

  lemma SequenceIssued(d: Dev, payload: seq<nat>, lim: Limits)
    requires Coherent(d) && |payload| % 2 == 0 && 0 < |payload| / 2 <= lim.sequence
    ensures Sequencing(Issue(d, PlaySequence(true, payload), lim), Words(payload), 0)
    ensures Issue(d, PlaySequence(true, payload), lim).log == Stop(d).log
  {
  }

  // A sequence command that nothing interrupts: its words are played in order, one a work run, and then comes standby.
  lemma {:induction false} SequenceTrace(d: Dev, payload: seq<nat>, lim: Limits)
    requires Coherent(d)
    requires |payload| % 2 == 0 && 0 < |payload| / 2 <= lim.sequence
    ensures
      Over(Runs(Issue(d, PlaySequence(true, payload), lim), |payload| / 2 + 1),
           Stop(d).log + [ModeReg(ModeRealTime)] + SequenceEvents(Words(payload)) + [ModeReg(ModeStandby)])
  {
    SequenceIssued(d, payload, lim);
    SequenceToEnd(Issue(d, PlaySequence(true, payload), lim), Words(payload), Stop(d).log);
  }

  lemma SequenceToEnd(d: Dev, words: seq<nat>, before: seq<Event>)
    requires Sequencing(d, words, 0) && 0 < |words| && d.log == before
    ensures Over(Runs(d, |words| + 1), before + [ModeReg(ModeRealTime)] + SequenceEvents(words) + [ModeReg(ModeStandby)])
  {
    SequenceLogStarts(before, words);
    SequenceRuns(d, words, 0, before);
    assert words[..|words|] == words;
  }
}
