// Any sequence of calls to the accelerometer driver after its probe: switching on and off, suspending and resuming, and
// changing settings at any time, with the registers lost or kept while the chip is off.
module AccelerometerSessions {
  import opened Accelerometer

  // `noise` is what the registers hold if the call cuts the supply.
  datatype Call =
    | SwitchOn(noise: seq<bv8>)
    | SwitchOff(noise: seq<bv8>)
    | Suspend(noise: seq<bv8>)
    | Resume(noise: seq<bv8>)
    | Range(gravities: nat)
    | Rate(interval: nat)
    | Interrupt(place: nat, value: bv8, mask: bv8)

  predicate Meant(c: Call)
  {
    match c
    case SwitchOn(noise) => |noise| == REGISTERS
    case SwitchOff(noise) => |noise| == REGISTERS
    case Suspend(noise) => |noise| == REGISTERS
    case Resume(noise) => |noise| == REGISTERS
    case Range(_) => true
    case Rate(_) => true
    case Interrupt(place, _, _) => IsInterrupt(place)
  }

  predicate AllMeant(calls: seq<Call>)
  {
    forall i :: 0 <= i < |calls| ==> Meant(calls[i])
  }

  predicate Accepted(gravities: nat)
  {
    gravities in {2, 4, 8}
  }

  // What has been asked for after a call.
  ghost function Asked(s: Settings, c: Call, minInterval: nat): Settings
    requires Meant(c) && |s.interrupts| == 5
  {
    match c
    case Range(g) => if Accepted(g) then WithRange(s, RangeBits(g)) else s
    case Rate(interval) =>
      if interval == 0 then s else WithRate(s, RateFor(if interval < minInterval then minInterval else interval))
    case Interrupt(place, value, mask) => WithInterrupt(s, place, value & mask)
    case _ => s
  }

  ghost function AskedFor(s: Settings, calls: seq<Call>, minInterval: nat): (t: Settings)
    requires AllMeant(calls) && |s.interrupts| == 5
    ensures |t.interrupts| == 5
  {
    if calls == [] then s else Asked(AskedFor(s, calls[..|calls| - 1], minInterval), calls[|calls| - 1], minInterval)
  }

  // What becomes of CTRL4.
  function After(g: Gist, c: Call, answers: bool, loses: bool): Gist
    requires Meant(c)
  {
    match c
    case SwitchOn(noise) => SwitchedOn(g, answers, loses, noise)
    case SwitchOff(noise) => SwitchedOff(g, loses, noise)
    case Suspend(noise) => SwitchedOff(g, loses, noise).(before := g.on)
    case Resume(noise) => if g.before then SwitchedOn(g, answers, loses, noise) else g
    case Range(gravities) => if Accepted(gravities) then Ranged(g, RangeBits(gravities)) else g
    case _ => g
  }

  function AfterAll(g: Gist, calls: seq<Call>, answers: bool, loses: bool): Gist
    requires AllMeant(calls)
  {
    if calls == [] then g else After(AfterAll(g, calls[..|calls| - 1], answers, loses), calls[|calls| - 1], answers, loses)
  }

  // The last range change decides: whether the shadow's CTRL4 is right is whether the chip's was when that was made.
  lemma {:induction false} LastRangeDecides(g: Gist, calls: seq<Call>, answers: bool, loses: bool, k: nat)
    requires AllMeant(calls) && k < |calls| && calls[k].Range? && Accepted(calls[k].gravities)
    requires forall i :: k < i < |calls| && calls[i].Range? ==> !Accepted(calls[i].gravities)
    ensures Others(AfterAll(g, calls, answers, loses).kept) == Others(AfterAll(g, calls[..k], answers, loses).chip)
  {
    var n := |calls| - 1;
    var before := AfterAll(g, calls[..n], answers, loses);
    if k == n {
      MergeRangeExactly(RangeBits(calls[k].gravities), before.chip);
    } else {
      LastRangeDecides(g, calls[..n], answers, loses, k);
      assert calls[..n][..k] == calls[..k];
      assert After(before, calls[n], answers, loses).kept == before.kept;
    }
  }

  lemma {:induction false} NoRangeKeeps(g: Gist, calls: seq<Call>, answers: bool, loses: bool)
    requires AllMeant(calls) && forall i :: 0 <= i < |calls| && calls[i].Range? ==> !Accepted(calls[i].gravities)
    ensures AfterAll(g, calls, answers, loses).kept == g.kept
  {
    if calls != [] {
      NoRangeKeeps(g, calls[..|calls| - 1], answers, loses);
    }
  }

  // A range change that a caller knows to be harmless: the registers are never lost, or the chip is on.
  predicate Harmless(g: Gist, calls: seq<Call>, answers: bool, loses: bool, k: nat)
    requires AllMeant(calls) && k < |calls|
  {
    calls[k].Range? && Accepted(calls[k].gravities) && loses ==> AfterAll(g, calls[..k], answers, loses).on
  }

  // With harmless changes only, the shadow stays right.
  lemma {:induction false} HarmlessRangesKeep(g: Gist, calls: seq<Call>, answers: bool, loses: bool)
    requires AllMeant(calls) && forall k :: 0 <= k < |calls| ==> Harmless(g, calls, answers, loses, k)
    requires Others(g.kept) == 0x04 && (g.on || !loses ==> g.chip == g.kept)
    ensures
      var h := AfterAll(g, calls, answers, loses);
      Others(h.kept) == 0x04 && (h.on || !loses ==> h.chip == h.kept)
  {
    if calls != [] {
      var n := |calls| - 1;
      forall k | 0 <= k < n ensures Harmless(g, calls[..n], answers, loses, k) {
        assert Harmless(g, calls, answers, loses, k) && calls[..n][..k] == calls[..k];
      }
      HarmlessRangesKeep(g, calls[..n], answers, loses);
      assert Harmless(g, calls, answers, loses, n);
      var before := AfterAll(g, calls[..n], answers, loses);
      if calls[n].Range? && Accepted(calls[n].gravities) {
        MergeRangeExactly(RangeBits(calls[n].gravities), before.chip);
      }
    }
  }

  method Perform(s: Sensor, c: Call)
    requires s.Tracked() && Meant(c)
    modifies s, s.resume, s.chip
    ensures s.Tracked()
    ensures s.settings == Asked(old(s.settings), c, s.minInterval)
    ensures s.Summary() == After(old(s.Summary()), c, s.identity == WHOAMI, s.losesRegisters)
  {
    var err;
    match c {
      case SwitchOn(noise) => err := s.Enable(noise);
      case SwitchOff(noise) => s.Disable(noise);
      case Suspend(noise) => s.Suspend(noise);
      case Resume(noise) => err := s.Resume(noise);
      case Range(gravities) => err := s.SetRange(gravities);
      case Rate(interval) => err := s.SetPollingRate(interval);
      case Interrupt(place, value, mask) => s.WriteReg(place, value, mask);
    }
  }

  // Whatever is called, in whatever order: while the chip is off, it is powered down; while it is on, every managed register holds what the shadow says; and what
  // the user has asked for, exactly if the other bits of CTRL4 have come through as AfterAll says.
  method Session(s: Sensor, calls: seq<Call>)
    requires s.Tracked() && AllMeant(calls)
    modifies s, s.resume, s.chip
    ensures s.Tracked()
    ensures s.settings == AskedFor(old(s.settings), calls, s.minInterval)
    ensures s.Summary() == AfterAll(old(s.Summary()), calls, s.identity == WHOAMI, s.losesRegisters)
    ensures s.enabled ==> ChipMatches(s.chip[..], s.resume[..], NONE)
    ensures s.enabled == AfterAll(old(s.Summary()), calls, s.identity == WHOAMI, s.losesRegisters).on
    ensures !s.enabled && !s.losesRegisters ==> s.chip[CTRL1] == 0
    ensures s.enabled ==>
              (s.Configured() <==> Others(AfterAll(old(s.Summary()), calls, s.identity == WHOAMI, s.losesRegisters).kept) == 0x04)
  {
    ghost var settings, gist := s.settings, s.Summary();
    var i := 0;
    while i < |calls|
      invariant 0 <= i <= |calls| && s.Tracked()
      invariant s.settings == AskedFor(settings, calls[..i], s.minInterval)
      invariant s.Summary() == AfterAll(gist, calls[..i], s.identity == WHOAMI, s.losesRegisters)
    {
      Perform(s, calls[i]);
      assert calls[..i + 1][..i] == calls[..i];
      i := i + 1;
    }
    assert calls[..i] == calls;
    if s.enabled {
      s.ShowConfigured();
      s.ValidExactly();
    }
  }

  // A probed chip whose registers come up as zeros when it is off: a range change before it is switched on loses the address
  // increment bit of CTRL4, and the chip is then on with a register the driver did not mean.
  method LostRegistersBreakRange() returns (s: Sensor)
    ensures fresh(s) && s.Tracked() && s.enabled && s.settings.control.fs == RangeBits(4)
    ensures s.chip[CTRL4] == 0x20 && !s.Configured()
  {
    var chip := new bv8[REGISTERS](_ => 0);
    s := new Sensor(chip, WHOAMI, false, true, 0x00, 100, 10);
    var noise := seq(REGISTERS, _ => 0);
    var err := s.Probe(noise);
    err := s.SetRange(4);
    err := s.Enable(noise);
    s.ValidExactly();
    s.ShowConfigured();
  }
}
