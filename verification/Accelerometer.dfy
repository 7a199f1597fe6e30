// The LSM303C accelerometer driver: its shadow of the chip's registers (resume_state) across power cycles, suspends and
// settings changed while the chip is off.
module Accelerometer {
  import opened Errno

  // Chip registers.
  const FIFO_CTRL := 0x2E
  const CTRL1 := 0x20
  const CTRL2 := 0x21
  const CTRL4 := 0x23
  const INT_CFG1 := 0x30
  const INT_THSX1 := 0x32
  const INT_THSY1 := 0x33
  const INT_THSZ1 := 0x34
  const INT_DUR1 := 0x35
  const REGISTERS := 0x40

  // Places in the shadow.
  const RES_CTRL1 := 0
  const RES_CTRL2 := 1
  const RES_CTRL3 := 2
  const RES_CTRL4 := 3
  const RES_CTRL7 := 6
  const RES_INT_CFG1 := 7
  const RES_INT_THSX1 := 8
  const RES_INT_THSY1 := 9
  const RES_INT_THSZ1 := 10
  const RES_INT_DUR1 := 11
  const RES_FIFO_CTRL := 17
  const RESUME_ENTRIES := 18

  const WHOAMI: bv8 := 0x41
  const FS_MASK: bv8 := 0x30
  const ODR_MASK: bv8 := 0x70

  // What the user has asked for: range and rate bits; whether the interrupt pin is connected; and the interrupt
  // registers, in the order of their places in the shadow.
  datatype Control = Control(fs: bv8, odr: bv8, pin: bool)
  datatype Settings = Settings(control: Control, interrupts: seq<bv8>)

  predicate WellFormedControl(c: Control)
  {
    c.fs & !FS_MASK == 0 && c.odr & !ODR_MASK == 0
  }

  predicate WellFormed(s: Settings)
  {
    |s.interrupts| == 5 && WellFormedControl(s.control)
  }

  // The places that belong to a chip register the driver restores.
  predicate Managed(i: nat)
  {
    i <= RES_INT_DUR1 || i == RES_FIFO_CTRL
  }

  function RegisterOf(i: nat): (r: nat)
    requires Managed(i)
    ensures r < REGISTERS
  {
    if i <= 6 then CTRL1 + i
    else if i == RES_INT_CFG1 then INT_CFG1
    else if i == RES_FIFO_CTRL then FIFO_CTRL
    else INT_THSX1 + (i - RES_INT_THSX1)
  }

  // Which shadow entry belongs to which chip register.
  lemma RegisterMap(i: nat)
    requires Managed(i)
    ensures 0 <= i <= 6 ==> RegisterOf(i) == 0x20 + i
    ensures 7 <= i <= 11 ==> RegisterOf(i) == if i == 7 then 0x30 else 0x32 + (i - 8)
    ensures i > 11 ==> i == 17 && RegisterOf(i) == 0x2E
  {
  }

  lemma RegistersDiffer(i: nat, j: nat)
    requires Managed(i) && Managed(j) && i != j
    ensures RegisterOf(i) != RegisterOf(j)
  {
  }

  // What the settings mean for each managed register.
  function ControlImage(c: Control, i: nat): bv8
  {
    if i == RES_CTRL1 then 0x0F | c.odr
    else if i == RES_CTRL3 then (if c.pin then 0x08 else 0)
    else if i == RES_CTRL4 then 0x04 | c.fs
    else if i == RES_CTRL7 then 0x0C
    else 0
  }

  predicate IsInterrupt(i: nat)
  {
    RES_INT_CFG1 <= i <= RES_INT_DUR1
  }

  function Image(s: Settings, i: nat): bv8
    requires Managed(i) && |s.interrupts| == 5
  {
    if IsInterrupt(i) then s.interrupts[i - RES_INT_CFG1] else ControlImage(s.control, i)
  }

  lemma InitialImage(c: Control)
    requires c == Control(0, 0, c.pin)
    ensures WellFormedControl(c)
    ensures ControlImage(c, RES_CTRL1) == 0x0F && ControlImage(c, RES_CTRL4) == 0x04
  {
  }

  // Replacing the bits of a field.
  function Merge(mask: bv8, value: bv8, init: bv8): bv8
  {
    (mask & value) | (!mask & init)
  }

  lemma MergeRate(odr: bv8, was: bv8)
    requires odr & !ODR_MASK == 0 && was & !ODR_MASK == 0
    ensures Merge(ODR_MASK, odr, 0x0F | was) == 0x0F | odr
  {
  }

  // Merging the range into an arbitrary register value sets the range bits and keeps the others; so it gives the right value
  // exactly when those others are right.
  lemma MergeRangeExactly(fs: bv8, init: bv8)
    requires fs & !FS_MASK == 0
    ensures Merge(FS_MASK, fs, init) & FS_MASK == fs && Others(Merge(FS_MASK, fs, init)) == Others(init)
  {
  }

  // The bits of CTRL4 outside the range field; with the address increment enabled, as the driver wants it, they are 0x04.
  function Others(ctrl4: bv8): bv8
  {
    ctrl4 & !FS_MASK
  }

  lemma RangeAndOthers(v: bv8, fs: bv8)
    requires fs & !FS_MASK == 0
    ensures v == 0x04 | fs <==> v & FS_MASK == fs && Others(v) == 0x04
  {
  }

  // The settings can be read back from the registers.
  lemma ImageDetermines(s: Settings, t: Settings)
    requires WellFormed(s) && WellFormed(t)
    requires forall i :: Managed(i) ==> Image(s, i) == Image(t, i)
    ensures s == t
  {
    assert Image(s, RES_CTRL1) == Image(t, RES_CTRL1) && Image(s, RES_CTRL4) == Image(t, RES_CTRL4);
    OrCancels(s.control.odr, t.control.odr);
    OrCancelsRange(s.control.fs, t.control.fs);
    assert Image(s, RES_CTRL3) == Image(t, RES_CTRL3);
    forall k | 0 <= k < 5 ensures s.interrupts[k] == t.interrupts[k] {
      assert Image(s, RES_INT_CFG1 + k) == Image(t, RES_INT_CFG1 + k);
    }
    assert s.interrupts == t.interrupts;
  }

  lemma OrCancels(a: bv8, b: bv8)
    requires a & !ODR_MASK == 0 && b & !ODR_MASK == 0 && 0x0F | a == 0x0F | b
    ensures a == b
  {
  }

  lemma OrCancelsRange(a: bv8, b: bv8)
    requires a & !FS_MASK == 0 && b & !FS_MASK == 0 && 0x04 | a == 0x04 | b
    ensures a == b
  {
  }

  // The output data rates that keep the output anti-aliased, fastest first.
  const CUTOFFS: seq<nat> := [2, 3, 5, 10]
  const RATES: seq<bv8> := [0x60, 0x50, 0x40, 0x30]

  // The slowest rate that is still fast enough for the poll interval.
  predicate BestRate(interval: nat, i: nat)
  {
    && i < |CUTOFFS|
    && (CUTOFFS[0] <= interval ==> CUTOFFS[i] <= interval)
    && (forall j :: 0 <= j < |CUTOFFS| && CUTOFFS[j] <= interval ==> CUTOFFS[j] <= CUTOFFS[i])
    && (interval < CUTOFFS[0] ==> i == 0)
  }

  // There is only one.
  ghost function RateFor(interval: nat): (i: nat)
    ensures BestRate(interval, i)
    ensures forall j {:trigger BestRate(interval, j)} :: BestRate(interval, j) ==> j == i
  {
    assert CUTOFFS[0] == 2 && CUTOFFS[1] == 3 && CUTOFFS[2] == 5 && CUTOFFS[3] == 10;
    if interval < 3 then 0 else if interval < 5 then 1 else if interval < 10 then 2 else 3
  }

  // The output data rate that a code stands for.
  function Hertz(code: bv8): nat
  {
    if code == 0x10 then 10 else if code == 0x20 then 50 else if code == 0x30 then 100
    else if code == 0x40 then 200 else if code == 0x50 then 400 else if code == 0x60 then 800
    else 0
  }

  // Along the table rates fall and intervals grow, and each rate's period is no longer than its interval.
  lemma TableInOrder(i: nat, j: nat)
    requires i < |RATES| == |CUTOFFS| && j < |RATES|
    ensures 1000 <= Hertz(RATES[i]) * CUTOFFS[i]
    ensures i < j ==> Hertz(RATES[j]) < Hertz(RATES[i]) && CUTOFFS[i] < CUTOFFS[j]
  {
    assert Hertz(RATES[0]) == 800 && Hertz(RATES[1]) == 400 && Hertz(RATES[2]) == 200 && Hertz(RATES[3]) == 100;
  }

  // What the choice means: from an interval of 2 milliseconds on, the chip delivers a sample in every interval, and no slower
  // rate in the table would; for a shorter one no rate does, and the fastest is taken.
  lemma RateServes(interval: nat, j: nat)
    requires j < |RATES|
    ensures 1000 <= Hertz(RATES[RateFor(interval)]) * interval <==> interval >= 2
    ensures 1000 <= Hertz(RATES[j]) * interval ==> Hertz(RATES[RateFor(interval)]) <= Hertz(RATES[j])
    ensures interval < 2 ==> Hertz(RATES[j]) <= Hertz(RATES[RateFor(interval)])
  {
    var i := RateFor(interval);
    assert Hertz(RATES[0]) == 800 && Hertz(RATES[1]) == 400 && Hertz(RATES[2]) == 200 && Hertz(RATES[3]) == 100;
    assert CUTOFFS[0] == 2 && CUTOFFS[1] == 3 && CUTOFFS[2] == 5 && CUTOFFS[3] == 10;
    assert BestRate(interval, i);
  }

  method PickRate(interval: nat) returns (i: nat)
    ensures BestRate(interval, i)
  {
    i := |CUTOFFS| - 1;
    while true
      invariant i < |CUTOFFS|
      invariant forall j :: i < j < |CUTOFFS| ==> interval < CUTOFFS[j]
      decreases i
    {
      if CUTOFFS[i] <= interval || i == 0 {
        break;
      }
      i := i - 1;
    }
    assert CUTOFFS[0] == 2 && CUTOFFS[1] == 3 && CUTOFFS[2] == 5 && CUTOFFS[3] == 10;
  }

  predicate ShadowAt(resume: seq<bv8>, s: Settings, i: nat)
    requires |resume| == RESUME_ENTRIES && Managed(i) && |s.interrupts| == 5
  {
    resume[i] == Image(s, i)
  }

  // The shadow holds the settings, in every place or in every place but one.
  ghost predicate Shadows(resume: seq<bv8>, s: Settings, except: nat)
    requires |resume| == RESUME_ENTRIES && |s.interrupts| == 5
  {
    forall i {:trigger ShadowAt(resume, s, i)} :: Managed(i) && i != except ==> ShadowAt(resume, s, i)
  }

  predicate ChipAt(chip: seq<bv8>, resume: seq<bv8>, i: nat)
    requires |chip| == REGISTERS && |resume| == RESUME_ENTRIES && Managed(i)
  {
    chip[RegisterOf(i)] == resume[i]
  }

  // The chip holds what the shadow says, in every register or in every register but one.
  ghost predicate ChipMatches(chip: seq<bv8>, resume: seq<bv8>, except: nat)
    requires |chip| == REGISTERS && |resume| == RESUME_ENTRIES
  {
    forall i {:trigger ChipAt(chip, resume, i)} :: Managed(i) && i != except ==> ChipAt(chip, resume, i)
  }

  const NONE := RESUME_ENTRIES

  // A setting written to the shadow. The shadow of CTRL4 is left out of account here.
  lemma ShadowWritten(resume: seq<bv8>, s: Settings, t: Settings, place: nat, v: bv8)
    requires |resume| == RESUME_ENTRIES && Managed(place) && |s.interrupts| == 5 && |t.interrupts| == 5
    requires Shadows(resume, s, RES_CTRL4) && (place == RES_CTRL4 || v == Image(t, place))
    requires forall i :: Managed(i) && i != place ==> Image(t, i) == Image(s, i)
    ensures Shadows(resume[place := v], t, RES_CTRL4)
  {
    forall i | Managed(i) && i != RES_CTRL4 ensures ShadowAt(resume[place := v], t, i) {
      assert ShadowAt(resume, s, i);
    }
  }

  // The same value written to the chip.
  lemma ChipWritten(chip: seq<bv8>, resume: seq<bv8>, place: nat, v: bv8, except: nat)
    requires |chip| == REGISTERS && |resume| == RESUME_ENTRIES && Managed(place)
    requires ChipMatches(chip, resume, except) && except != place
    ensures ChipMatches(chip[RegisterOf(place) := v], resume[place := v], except)
  {
    forall i | Managed(i) && i != except ensures ChipAt(chip[RegisterOf(place) := v], resume[place := v], i) {
      assert ChipAt(chip, resume, i);
      if i != place {
        RegistersDiffer(i, place);
      }
    }
  }

  method MergedRate(i: nat, init: bv8, ghost c: Control) returns (v: bv8)
    requires i < |RATES| && WellFormedControl(c) && init == ControlImage(c, RES_CTRL1)
    ensures v == ControlImage(c.(odr := RATES[i]), RES_CTRL1) && WellFormedControl(c.(odr := RATES[i]))
  {
    v := Merge(ODR_MASK, RATES[i], init);
    assert RATES[0] & !ODR_MASK == 0 && RATES[1] & !ODR_MASK == 0 && RATES[2] & !ODR_MASK == 0 && RATES[3] & !ODR_MASK == 0;
    MergeRate(RATES[i], c.odr);
  }

  method MergedRange(fs: bv8, init: bv8, ghost c: Control) returns (v: bv8)
    requires WellFormedControl(c) && fs & !FS_MASK == 0
    ensures WellFormedControl(c.(fs := fs))
    ensures v == Merge(FS_MASK, fs, init) && v & FS_MASK == fs && Others(v) == Others(init)
  {
    MergeRangeExactly(fs, init);
    v := Merge(FS_MASK, fs, init);
  }

  // Changing one control field changes one register only.
  lemma OtherControls(c: Control, odr: bv8, fs: bv8, i: nat)
    ensures i != RES_CTRL1 ==> ControlImage(c.(odr := odr), i) == ControlImage(c, i)
    ensures i != RES_CTRL4 ==> ControlImage(c.(fs := fs), i) == ControlImage(c, i)
  {
  }

  class Sensor {
    // resume_state and the chip's registers.
    const resume: array<bv8>
    const chip: array<bv8>
    const identity: bv8
    const pin: bool
    // Whether pdata->power_off cuts the supply, so that the registers are lost.
    const losesRegisters: bool
    var hwInitialized: bool
    var enabled: bool
    var onBeforeSuspend: bool
    var fsRange: bv8
    var pollInterval: nat
    const minInterval: nat
    // What the user has asked for, and whether the registers have been lost since they were last written.
    ghost var settings: Settings
    ghost var lost: bool

    constructor (chip: array<bv8>, identity: bv8, pin: bool, losesRegisters: bool, fsRange: bv8, pollInterval: nat, minInterval: nat)
      requires chip.Length == REGISTERS
      ensures this.chip == chip && this.identity == identity && this.fsRange == fsRange && this.pollInterval == pollInterval
      ensures this.losesRegisters == losesRegisters && this.pin == pin && this.minInterval == minInterval
      ensures fresh(resume) && resume.Length == RESUME_ENTRIES
    {
      this.resume := new bv8[RESUME_ENTRIES](_ => 0);
      this.chip, this.identity, this.pin, this.losesRegisters := chip, identity, pin, losesRegisters;
      this.fsRange, this.pollInterval, this.minInterval := fsRange, pollInterval, minInterval;
      hwInitialized, enabled, onBeforeSuspend := false, false, false;
      settings, lost := Settings(Control(0, 0, pin), [0, 0, 0, 0, 0]), true;
    }

    ghost predicate Shaped()
      reads this
    {
      && resume.Length == RESUME_ENTRIES && chip.Length == REGISTERS && resume != chip
      && WellFormed(settings) && settings.control.pin == pin
    }

    // While enabled, every managed register holds what the shadow says; while disabled, every one but CTRL1 does, and that one
    // is clear, which is what powers the chip down; unless the supply has been cut and the registers are lost.
    ghost predicate Settled()
      reads this, resume, chip
    {
      && Shaped()
      && (enabled ==> hwInitialized && ChipMatches(chip[..], resume[..], NONE))
      && (!enabled && !lost ==> ChipMatches(chip[..], resume[..], RES_CTRL1) && chip[CTRL1] == 0)
      && (lost ==> losesRegisters)
      && (enabled ==> !lost)
      && (!enabled ==> !hwInitialized)
    }

    // The driver's invariant, which every call keeps: the shadow holds what was asked for, except perhaps in the bits of
    // CTRL4 outside the range field.
    ghost predicate Tracked()
      reads this, resume, chip
    {
      && Settled() && Shadows(resume[..], settings, RES_CTRL4)
      && resume[RES_CTRL4] & FS_MASK == settings.control.fs
    }

    // And with those bits right, too, the shadow holds exactly what was asked for.
    ghost predicate Valid()
      reads this, resume, chip
    {
      Tracked() && ShadowAt(resume[..], settings, RES_CTRL4)
    }

    // What decides that, and how it will go on.
    function Summary(): Gist
      reads this, resume, chip
      requires resume.Length == RESUME_ENTRIES && chip.Length == REGISTERS
    {
      Gist(enabled, onBeforeSuspend, chip[CTRL4], resume[RES_CTRL4])
    }

    lemma ValidExactly()
      requires Tracked()
      ensures Valid() <==> Others(Summary().kept) == 0x04
      ensures enabled || !lost ==> Summary().chip == Summary().kept
    {
      RangeAndOthers(resume[RES_CTRL4], settings.control.fs);
      if enabled || !lost {
        assert ChipAt(chip[..], resume[..], RES_CTRL4);
      }
    }

    // Every managed register holds what the settings ask for.
    ghost predicate Configured()
      reads this, chip
      requires Shaped()
    {
      forall i {:trigger Image(settings, i)} :: Managed(i) ==> chip[RegisterOf(i)] == Image(settings, i)
    }

    method WriteRegister(reg: nat, value: bv8)
      requires reg < chip.Length
      modifies chip
      ensures chip[..] == old(chip[..])[reg := value]
    {
      chip[reg] := value;
    }

    // A block write, from place `from` of the shadow to consecutive registers.
    method RestoreBlock(reg: nat, from: nat, n: nat)
      requires Shaped() && reg + n <= chip.Length && from + n <= resume.Length
      modifies chip
      ensures forall j :: 0 <= j < chip.Length ==>
                chip[j] == if reg <= j < reg + n then resume[from + (j - reg)] else old(chip[j])
    {
      var k := 0;
      while k < n
        invariant 0 <= k <= n
        invariant forall j :: 0 <= j < chip.Length ==>
                    chip[j] == if reg <= j < reg + k then resume[from + (j - reg)] else old(chip[j])
      {
        chip[reg + k] := resume[from + k];
        k := k + 1;
      }
    }

    // lsm303c_acc_hw_init
    method HwInit() returns (err: int)
      requires Shaped()
      modifies this`hwInitialized, this`lost, chip
      ensures err == (if identity == WHOAMI then 0 else -1)
      ensures hwInitialized == (err == 0)
      ensures err == 0 ==> ChipMatches(chip[..], resume[..], NONE) && !lost
      ensures err != 0 ==> chip[..] == old(chip[..]) && lost == old(lost)
    {
      if identity != WHOAMI {
        hwInitialized := false;
        return -1;
      }
      RestoreBlock(FIFO_CTRL, RES_FIFO_CTRL, 1);
      RestoreBlock(INT_THSX1, RES_INT_THSX1, 4);
      RestoreBlock(INT_CFG1, RES_INT_CFG1, 1);
      RestoreBlock(CTRL2, RES_CTRL2, 6);
      RestoreBlock(CTRL1, RES_CTRL1, 1);
      hwInitialized := true;
      lost := false;
      forall i | Managed(i) ensures ChipAt(chip[..], resume[..], i) {
      }
      return 0;
    }

    // lsm303c_acc_device_power_off. `noise` is what the registers hold if the supply is cut.
    method PowerOff(noise: seq<bv8>)
      requires Shaped() && |noise| == REGISTERS
      modifies this`hwInitialized, this`lost, chip
      ensures !hwInitialized && lost == (old(lost) || losesRegisters)
      ensures chip[..] == if losesRegisters then noise else old(chip[..])[CTRL1 := 0]
    {
      WriteRegister(CTRL1, 0);
      if losesRegisters {
        var k := 0;
        while k < chip.Length
          invariant 0 <= k <= chip.Length && forall j :: 0 <= j < k ==> chip[j] == noise[j]
          modifies chip
        {
          chip[k] := noise[k];
          k := k + 1;
        }
        lost := true;
      }
      hwInitialized := false;
    }

    // lsm303c_acc_device_power_on, after the supply is on
    method PowerOn(noise: seq<bv8>) returns (err: int)
      requires Shaped() && !hwInitialized && |noise| == REGISTERS
      modifies this`hwInitialized, this`lost, chip
      ensures err == (if identity == WHOAMI then 0 else -1)
      ensures err == 0 ==> hwInitialized && ChipMatches(chip[..], resume[..], NONE) && !lost
      ensures err != 0 ==> !hwInitialized && lost == (old(lost) || losesRegisters)
      ensures err != 0 ==> chip[..] == if losesRegisters then noise else old(chip[..])[CTRL1 := 0]
    {
      err := HwInit();
      if err < 0 {
        PowerOff(noise);
      }
    }

    // lsm303c_acc_set_init_register_values
    method SetInitRegisterValues()
      requires resume.Length == RESUME_ENTRIES && chip.Length == REGISTERS && resume != chip
      modifies this`settings, resume
      ensures settings == Settings(Control(0, 0, pin), [0, 0, 0, 0, 0])
      ensures Shaped() && Shadows(resume[..], settings, NONE)
      ensures resume[RES_CTRL1] == 0x0F && resume[RES_CTRL4] == 0x04 && resume[RES_CTRL7] == 0x0C
      ensures resume[RES_CTRL3] == if pin then 0x08 else 0
      ensures forall i :: 0 <= i < RESUME_ENTRIES && i !in {RES_CTRL1, RES_CTRL3, RES_CTRL4, RES_CTRL7} ==> resume[i] == 0
    {
      var k := 0;
      while k < resume.Length
        invariant 0 <= k <= resume.Length
        invariant forall j :: 0 <= j < k ==> resume[j] == 0
      {
        resume[k] := 0;
        k := k + 1;
      }
      resume[RES_CTRL1] := 0x0F;
      if pin {
        resume[RES_CTRL3] := 0x08;
      }
      resume[RES_CTRL4] := 0x04;
      resume[RES_CTRL7] := 0x0C;
      settings := Settings(Control(0, 0, pin), [0, 0, 0, 0, 0]);
      InitialImage(settings.control);
      forall i | Managed(i) ensures ShadowAt(resume[..], settings, i) {
      }
    }

    // lsm303c_acc_enable: on success every managed register holds what the shadow says, whatever happened to the chip while
    // it was off; and what was asked for, exactly if the shadow's CTRL4 is right.
    method Enable(noise: seq<bv8>) returns (err: int)
      requires Tracked() && |noise| == REGISTERS
      modifies this`hwInitialized, this`lost, this`enabled, chip
      ensures Tracked() && settings == old(settings)
      ensures err == (if identity == WHOAMI || old(enabled) then 0 else -1)
      ensures enabled == (err == 0)
      ensures enabled ==> ChipMatches(chip[..], resume[..], NONE)
      ensures enabled ==> (Configured() <==> old(Valid()))
      ensures Summary() == SwitchedOn(old(Summary()), identity == WHOAMI, losesRegisters, noise)
    {
      err := 0;
      if !enabled {
        err := Wake(noise);
        if err < 0 {
          return;
        }
      }
      ShowConfigured();
    }

    method Wake(noise: seq<bv8>) returns (err: int)
      requires Tracked() && !enabled && |noise| == REGISTERS
      modifies this`hwInitialized, this`lost, this`enabled, chip
      ensures Tracked() && settings == old(settings) && enabled == (err == 0)
      ensures err == (if identity == WHOAMI then 0 else -1)
      ensures Summary() == SwitchedOn(old(Summary()), identity == WHOAMI, losesRegisters, noise)
    {
      ghost var before := chip[..];
      enabled := true;
      err := PowerOn(noise);
      if err < 0 {
        enabled := false;
        assert chip[CTRL4] == if losesRegisters then noise[CTRL4] else before[CTRL4];
        if !lost {
          KeepsMatching(before);
        }
      } else {
        assert ChipAt(chip[..], resume[..], RES_CTRL4);
      }
    }

    // Clearing CTRL1 leaves the other registers as they were.
    lemma KeepsMatching(before: seq<bv8>)
      requires Shaped() && |before| == REGISTERS && chip[..] == before[CTRL1 := 0]
      requires ChipMatches(before, resume[..], RES_CTRL1) || ChipMatches(before, resume[..], NONE)
      ensures ChipMatches(chip[..], resume[..], RES_CTRL1)
    {
      forall i | Managed(i) && i != RES_CTRL1 ensures ChipAt(chip[..], resume[..], i) {
        assert ChipAt(before, resume[..], i);
      }
    }

    lemma ShowConfigured()
      requires Tracked() && enabled
      ensures Configured() <==> Valid()
    {
      forall i | Managed(i) ensures chip[RegisterOf(i)] == Image(settings, i) <==> ShadowAt(resume[..], settings, i) {
        assert ChipAt(chip[..], resume[..], i);
      }
      if Configured() {
        assert chip[RegisterOf(RES_CTRL4)] == Image(settings, RES_CTRL4);
      }
    }

    // lsm303c_acc_disable
    method Disable(noise: seq<bv8>)
      requires Tracked() && |noise| == REGISTERS
      modifies this`hwInitialized, this`lost, this`enabled, chip
      ensures Tracked() && settings == old(settings) && !enabled
      ensures old(enabled) ==> chip[..] == if losesRegisters then noise else old(chip[..])[CTRL1 := 0]
      ensures !old(enabled) ==> chip[..] == old(chip[..])
      ensures Summary() == SwitchedOff(old(Summary()), losesRegisters, noise)
    {
      if enabled {
        ghost var before := chip[..];
        enabled := false;
        PowerOff(noise);
        assert chip[CTRL4] == if losesRegisters then noise[CTRL4] else before[CTRL4];
        if !lost {
          KeepsMatching(before);
        }
      }
    }

    // lsm303c_acc_suspend
    method Suspend(noise: seq<bv8>)
      requires Tracked() && |noise| == REGISTERS
      modifies this, chip
      ensures Tracked() && settings == old(settings) && !enabled && pollInterval == old(pollInterval)
      ensures old(enabled) ==> chip[..] == if losesRegisters then noise else old(chip[..])[CTRL1 := 0]
      ensures !old(enabled) ==> chip[..] == old(chip[..])
      ensures Summary() == SwitchedOff(old(Summary()), losesRegisters, noise).(before := old(enabled))
    {
      onBeforeSuspend := enabled;
      Disable(noise);
    }

    // lsm303c_acc_resume
    method Resume(noise: seq<bv8>) returns (err: int)
      requires Tracked() && |noise| == REGISTERS
      modifies this, chip
      ensures Tracked() && settings == old(settings) && pollInterval == old(pollInterval)
      ensures err == (if !old(onBeforeSuspend) || identity == WHOAMI || old(enabled) then 0 else -1)
      ensures Summary() == if old(onBeforeSuspend) then SwitchedOn(old(Summary()), identity == WHOAMI, losesRegisters, noise) else old(Summary())
      ensures err == 0 && old(onBeforeSuspend) ==> enabled && (Configured() <==> old(Valid()))
    {
      err := 0;
      if onBeforeSuspend {
        err := Enable(noise);
      }
    }

    // Write one value to the chip and to its place in the shadow.
    method Store(place: nat, v: bv8, ghost asked: Settings)
      requires Tracked() && Managed(place) && (enabled || place != RES_CTRL1) && place != RES_CTRL4
      requires WellFormed(asked) && asked.control.pin == pin && v == Image(asked, place)
      requires forall i :: Managed(i) && i != place ==> Image(asked, i) == Image(settings, i)
      modifies this`settings, resume, chip
      ensures Tracked() && settings == asked && Summary() == old(Summary())
    {
      SameRange(settings, asked, place);
      PutShadowed(place, v, asked);
      settings := asked;
    }

    // The same for CTRL4, of which only the range bits are sure to be right.
    method StoreRange(v: bv8, ghost asked: Settings)
      requires Tracked()
      requires WellFormed(asked) && asked.control.pin == pin && v & FS_MASK == asked.control.fs
      requires forall i :: Managed(i) && i != RES_CTRL4 ==> Image(asked, i) == Image(settings, i)
      modifies this`settings, resume, chip
      ensures Tracked() && settings == asked
      ensures Summary() == old(Summary()).(chip := v, kept := v)
    {
      PutShadowed(RES_CTRL4, v, asked);
      settings := asked;
    }

    method PutShadowed(place: nat, v: bv8, ghost asked: Settings)
      requires Settled() && Shadows(resume[..], settings, RES_CTRL4)
      requires Managed(place) && (enabled || place != RES_CTRL1)
      requires |asked.interrupts| == 5 && (place == RES_CTRL4 || v == Image(asked, place))
      requires forall i :: Managed(i) && i != place ==> Image(asked, i) == Image(settings, i)
      modifies resume, chip
      ensures Settled() && Shadows(resume[..], asked, RES_CTRL4)
      ensures resume[RES_CTRL4] == if place == RES_CTRL4 then v else old(resume[RES_CTRL4])
      ensures chip[CTRL4] == if place == RES_CTRL4 then v else old(chip[CTRL4])
    {
      ghost var chip0, resume0 := chip[..], resume[..];
      Put(place, v);
      ShadowWritten(resume0, settings, asked, place, v);
      if enabled {
        ChipWritten(chip0, resume0, place, v, NONE);
      } else if !lost {
        ChipWritten(chip0, resume0, place, v, RES_CTRL1);
      }
    }

    method Put(place: nat, v: bv8)
      requires Shaped() && Managed(place)
      modifies resume, chip
      ensures resume[..] == old(resume[..])[place := v] && chip[..] == old(chip[..])[RegisterOf(place) := v]
      ensures resume[RES_CTRL4] == if place == RES_CTRL4 then v else old(resume[RES_CTRL4])
      ensures chip[CTRL4] == if place == RES_CTRL4 then v else old(chip[CTRL4])
      ensures place != RES_CTRL1 ==> chip[CTRL1] == old(chip[CTRL1])
    {
      RegistersDifferFromRange(place);
      if place != RES_CTRL1 {
        RegistersDiffer(place, RES_CTRL1);
      }
      WriteRegister(RegisterOf(place), v);
      resume[place] := v;
    }

    // The same for CTRL1 while the chip is off: only the shadow is written.
    method StoreForLater(v: bv8, ghost asked: Settings)
      requires Tracked() && !enabled
      requires WellFormed(asked) && asked.control.pin == pin && v == Image(asked, RES_CTRL1)
      requires forall i :: Managed(i) && i != RES_CTRL1 ==> Image(asked, i) == Image(settings, i)
      modifies this`settings, resume
      ensures Tracked() && settings == asked && Summary() == old(Summary())
    {
      ghost var resume0 := resume[..];
      SameRange(settings, asked, RES_CTRL1);
      resume[RES_CTRL1] := v;
      assert resume[..] == resume0[RES_CTRL1 := v];
      ShadowWritten(resume0, settings, asked, RES_CTRL1, v);
      if !lost {
        forall k | Managed(k) && k != RES_CTRL1 ensures ChipAt(chip[..], resume[..], k) {
          assert ChipAt(chip[..], resume0, k);
        }
      }
      settings := asked;
    }

    // The rate asked for is in the shadow, beside the bits that switch the axes on, and in the chip while that is on.
    lemma RateInForce()
      requires Tracked()
      ensures resume[RES_CTRL1] == 0x0F | settings.control.odr
      ensures enabled ==> chip[CTRL1] == 0x0F | settings.control.odr
    {
      assert ShadowAt(resume[..], settings, RES_CTRL1);
      assert enabled ==> ChipAt(chip[..], resume[..], RES_CTRL1);
    }

    // lsm303c_acc_update_odr: the rate goes into the shadow, and into the chip if that is on.
    method UpdateOdr(interval: nat)
      requires Tracked()
      modifies this`settings, resume, chip
      ensures Tracked() && Summary() == old(Summary())
      ensures settings == WithRate(old(settings), RateFor(interval)) && settings.control.odr == RATES[RateFor(interval)]
    {
      var i := PickRate(interval);
      assert ShadowAt(resume[..], settings, RES_CTRL1);
      ghost var asked := WithRate(settings, i);
      forall k | Managed(k) && k != RES_CTRL1 ensures Image(asked, k) == Image(settings, k) {
        OtherControls(settings.control, RATES[i], settings.control.fs, k);
      }
      if enabled {
        assert ChipAt(chip[..], resume[..], RES_CTRL1);
        var updated := MergedRate(i, chip[CTRL1], settings.control);
        Store(RES_CTRL1, updated, asked);
      } else {
        var updated := MergedRate(i, resume[RES_CTRL1], settings.control);
        StoreForLater(updated, asked);
      }
    }

    // attr_set_polling_rate: 0 is refused, anything below the minimum is raised to it.
    method SetPollingRate(interval: nat) returns (err: int)
      requires Tracked()
      modifies this`settings, this`pollInterval, resume, chip
      ensures Tracked() && Summary() == old(Summary())
      ensures err == if interval == 0 then -EINVAL else 0
      ensures interval == 0 ==> settings == old(settings) && pollInterval == old(pollInterval)
      ensures interval > 0 ==>
                && pollInterval == (if interval < minInterval then minInterval else interval)
                && settings == WithRate(old(settings), RateFor(pollInterval))
    {
      if interval == 0 {
        return -EINVAL;
      }
      pollInterval := if interval < minInterval then minInterval else interval;
      UpdateOdr(pollInterval);
      return 0;
    }

    // write_reg, for the interrupt registers: chip and shadow are written alike, whether or not the chip is on.
    method WriteReg(place: nat, value: bv8, mask: bv8)
      requires Tracked() && IsInterrupt(place)
      modifies this`settings, resume, chip
      ensures Tracked() && Summary() == old(Summary())
      ensures settings == WithInterrupt(old(settings), place, value & mask)
    {
      Store(place, value & mask, WithInterrupt(settings, place, value & mask));
    }

    // lsm303c_acc_probe: the chip is set up once with the initial range and rate, then switched off.
    method Probe(noise: seq<bv8>) returns (err: int)
      requires resume.Length == RESUME_ENTRIES && chip.Length == REGISTERS && resume != chip
      requires fsRange & !FS_MASK == 0 && |noise| == REGISTERS
      modifies this, resume, chip
      ensures err == if identity == WHOAMI then 0 else -1
      ensures err == 0 ==>
                && Valid() && !enabled && !onBeforeSuspend && (if losesRegisters then chip[..] == noise else chip[CTRL1] == 0)
                && settings == Settings(Control(fsRange, RATES[RateFor(pollInterval)], pin), [0, 0, 0, 0, 0])
                && Summary() == Gist(false, false, if losesRegisters then noise[CTRL4] else 0x04 | fsRange, 0x04 | fsRange)
      ensures fsRange == old(fsRange) && pollInterval == old(pollInterval)
    {
      hwInitialized, enabled, onBeforeSuspend, lost := false, false, false, true;
      SetInitRegisterValues();
      err := PowerOn(noise);
      if err < 0 {
        return;
      }
      enabled := true;
      assert ShadowAt(resume[..], settings, RES_CTRL4) && ChipAt(chip[..], resume[..], RES_CTRL4);
      RangeAndOthers(resume[RES_CTRL4], settings.control.fs);
      FirstSettings(noise);
    }

    // The initial range and rate go to the chip, which is then switched off.
    method FirstSettings(noise: seq<bv8>)
      requires Tracked() && enabled && !onBeforeSuspend && Others(chip[CTRL4]) == 0x04
      requires fsRange & !FS_MASK == 0 && |noise| == REGISTERS
      modifies this`settings, this`hwInitialized, this`lost, this`enabled, resume, chip
      ensures Valid() && !enabled && (if losesRegisters then chip[..] == noise else chip[CTRL1] == 0)
      ensures settings == WithRate(WithRange(old(settings), fsRange), RateFor(pollInterval))
      ensures Summary() == Gist(false, false, if losesRegisters then noise[CTRL4] else 0x04 | fsRange, 0x04 | fsRange)
    {
      UpdateFsRange(fsRange);
      UpdateOdr(pollInterval);
      Disable(noise);
      ValidExactly();
      RangeAndOthers(resume[RES_CTRL4], fsRange);
    }

    // lsm303c_acc_update_fs_range. It reads the other bits of CTRL4 from the chip even when that is off. The shadow is right
    // afterwards exactly when they were right there; while the registers are not lost, they are what the shadow had.
    method UpdateFsRange(range: bv8)
      requires Tracked() && range & !FS_MASK == 0
      modifies this`settings, resume, chip
      ensures Tracked() && settings == WithRange(old(settings), range)
      ensures Summary() == Ranged(old(Summary()), range)
      ensures Valid() <==> Others(old(chip[CTRL4])) == 0x04
    {
      var updated := MergedRange(range, chip[CTRL4], settings.control);
      forall i | Managed(i) && i != RES_CTRL4 ensures Image(WithRange(settings, range), i) == Image(settings, i) {
        OtherControls(settings.control, settings.control.odr, range, i);
      }
      StoreRange(updated, WithRange(settings, range));
      ValidExactly();
    }

    // attr_get_range
    method GetRange() returns (gravities: nat)
      ensures gravities == Gravities(fsRange)
    {
      gravities := 2;
      match fsRange
      case 0x20 => gravities := 4;
      case 0x30 => gravities := 8;
      case _ =>
    }

    // attr_set_range: 2, 4 and 8 g are accepted.
    method SetRange(gravities: nat) returns (err: int)
      requires Tracked()
      modifies this`settings, this`fsRange, resume, chip
      ensures Tracked()
      ensures err == if gravities in {2, 4, 8} then 0 else -EINVAL
      ensures err != 0 ==> settings == old(settings) && fsRange == old(fsRange) && Summary() == old(Summary())
      ensures err == 0 ==> settings == WithRange(old(settings), RangeBits(gravities)) && fsRange == RangeBits(gravities)
      ensures err == 0 ==> Gravities(fsRange) == gravities && settings.control.fs == fsRange
      ensures err == 0 ==> Summary() == Ranged(old(Summary()), RangeBits(gravities)) && (Valid() <==> Others(old(chip[CTRL4])) == 0x04)
    {
      if gravities !in {2, 4, 8} {
        return -EINVAL;
      }
      var range := RangeBits(gravities);
      RangeReadBack(gravities);
      UpdateFsRange(range);
      fsRange := range;
      return 0;
    }
  }

  // `on`: whether the chip is enabled; `before`: whether it was at the last suspend; `chip` and `kept`: CTRL4 in the chip and
  // in the shadow.
  datatype Gist = Gist(on: bool, before: bool, chip: bv8, kept: bv8)

  function SwitchedOff(g: Gist, loses: bool, noise: seq<bv8>): Gist
    requires |noise| == REGISTERS
  {
    if g.on && loses then g.(on := false, chip := noise[CTRL4]) else g.(on := false)
  }

  // Only a chip with the right identity can be switched on; any other is switched off again.
  function SwitchedOn(g: Gist, answers: bool, loses: bool, noise: seq<bv8>): Gist
    requires |noise| == REGISTERS
  {
    if g.on then g
    else if answers then g.(on := true, chip := g.kept)
    else if loses then g.(chip := noise[CTRL4])
    else g
  }

  // A range change takes over what the chip has.
  function Ranged(g: Gist, fs: bv8): Gist
  {
    var v := Merge(FS_MASK, fs, g.chip);
    g.(chip := v, kept := v)
  }

  // Settings that agree elsewhere agree on the range.
  lemma SameRange(s: Settings, t: Settings, place: nat)
    requires WellFormed(s) && WellFormed(t) && forall i :: Managed(i) && i != place ==> Image(t, i) == Image(s, i)
    ensures place != RES_CTRL4 ==> t.control.fs == s.control.fs
  {
    if place != RES_CTRL4 {
      assert Image(t, RES_CTRL4) == Image(s, RES_CTRL4);
      OrCancelsRange(s.control.fs, t.control.fs);
    }
  }

  lemma RegistersDifferFromRange(place: nat)
    requires Managed(place)
    ensures RegisterOf(place) == CTRL4 <==> place == RES_CTRL4
  {
  }

  function WithRate(s: Settings, i: nat): Settings
    requires i < |RATES|
  {
    s.(control := s.control.(odr := RATES[i]))
  }

  function WithRange(s: Settings, fs: bv8): Settings
  {
    s.(control := s.control.(fs := fs))
  }

  function RangeBits(gravities: nat): (b: bv8)
    ensures b & !FS_MASK == 0
  {
    if gravities == 4 then 0x20 else if gravities == 8 then 0x30 else 0x00
  }

  // The full scale that range bits stand for.
  function Gravities(range: bv8): nat
  {
    if range == 0x20 then 4 else if range == 0x30 then 8 else 2
  }

  // A range set is the range read back, and each has its bits.
  lemma RangeReadBack(gravities: nat)
    requires gravities in {2, 4, 8}
    ensures Gravities(RangeBits(gravities)) == gravities
    ensures gravities == 2 <==> RangeBits(gravities) == 0x00
    ensures gravities == 4 <==> RangeBits(gravities) == 0x20
    ensures gravities == 8 <==> RangeBits(gravities) == 0x30
  {
  }

  function WithInterrupt(s: Settings, place: nat, v: bv8): Settings
    requires IsInterrupt(place) && |s.interrupts| == 5
  {
    s.(interrupts := s.interrupts[place - RES_INT_CFG1 := v])
  }
}
