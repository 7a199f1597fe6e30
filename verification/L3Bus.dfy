// The three-wire L3 bus of the UDA1341: uda1341_l3_address and uda1341_l3_data drive it bit by bit; the receiver samples
// L3DATA on each rising edge of L3CLOCK and tells address bytes from data bytes by L3MODE.
module L3Bus {
  import opened Arithmetic

  // The levels of L3MODE, L3DATA and L3CLOCK.
  datatype Pins = Pins(mode: bool, data: bool, clock: bool)

  // One sampled bit, with the mode it was sampled in.
  datatype Bit = Bit(mode: bool, value: bool)

  // What the driver was asked to send.
  datatype Call = Address(byte: nat) | Data(byte: nat)

  predicate ValidCall(c: Call)
  {
    c.byte < 256
  }

  // The lowest n bits of b, least significant first.
  function Bits(b: nat, n: nat, mode: bool): (s: seq<Bit>)
    ensures |s| == n
  {
    if n == 0 then [] else [Bit(mode, b % 2 == 1)] + Bits(b / 2, n - 1, mode)
  }

  function Value(s: seq<Bit>): nat
  {
    if s == [] then 0 else (if s[0].value then 1 else 0) + 2 * Value(s[1..])
  }

  lemma {:induction false} ValueOfBits(b: nat, n: nat, mode: bool)
    requires b < Pow2(n)
    ensures Value(Bits(b, n, mode)) == b
  {
    if n > 0 {
      ValueOfBits(b / 2, n - 1, mode);
      assert Bits(b, n, mode)[1..] == Bits(b / 2, n - 1, mode);
    }
  }

  // What the receiver samples while the pins go from `last` through `wave`.
  function Samples(last: Pins, wave: seq<Pins>): seq<Bit>
    decreases |wave|
  {
    if wave == [] then [] else Edge(last, wave[0]) + Samples(wave[0], wave[1..])
  }

  // A rising clock edge makes the receiver sample.
  function Edge(last: Pins, next: Pins): seq<Bit>
  {
    if !last.clock && next.clock then [Bit(next.mode, next.data)] else []
  }

  function Last(first: Pins, wave: seq<Pins>): Pins
  {
    if wave == [] then first else wave[|wave| - 1]
  }

  lemma {:induction false} SamplesConcat(first: Pins, a: seq<Pins>, b: seq<Pins>)
    ensures Samples(first, a + b) == Samples(first, a) + Samples(Last(first, a), b)
    decreases |a|
  {
    if a == [] {
      assert a + b == b;
    } else {
      SamplesConcat(a[0], a[1..], b);
      assert (a + b)[1..] == a[1..] + b;
      assert Last(a[0], a[1..]) == Last(first, a);
      var x, y, z := Edge(first, a[0]), Samples(a[0], a[1..]), Samples(Last(first, a), b);
      assert x + (y + z) == (x + y) + z;
    }
  }

  // The receiver: eight bits sampled in one mode make a byte.
  function Decode(bits: seq<Bit>): seq<Call>
  {
    if |bits| < 8 then []
    else [if bits[0].mode then Data(Value(bits[..8])) else Address(Value(bits[..8]))] + Decode(bits[8..])
  }

  // The bits of one call: address bytes are sent with L3MODE low, data bytes with L3MODE high.
  function CallBits(c: Call): (s: seq<Bit>)
    ensures |s| == 8
  {
    Bits(c.byte, 8, c.Data?)
  }

  // In full: the least significant bit goes first, and every bit goes with L3MODE as the kind of byte demands.
  lemma BitsInOrder(c: Call)
    ensures
      var m, b := c.Data?, c.byte;
      CallBits(c) == [Bit(m, b % 2 == 1), Bit(m, b / 2 % 2 == 1), Bit(m, b / 4 % 2 == 1), Bit(m, b / 8 % 2 == 1),
                      Bit(m, b / 16 % 2 == 1), Bit(m, b / 32 % 2 == 1), Bit(m, b / 64 % 2 == 1), Bit(m, b / 128 % 2 == 1)]
  {
    var m, b := c.Data?, c.byte;
    FourBits(b, 8, m);
    FourBits(b / 16, 4, m);
    UpperHalf(b);
  }

  lemma UpperHalf(b: nat)
    ensures b / 16 / 2 == b / 32 && b / 16 / 4 == b / 64 && b / 16 / 8 == b / 128
  {
  }

  lemma FourBits(b: nat, n: nat, m: bool)
    requires n >= 4
    ensures Bits(b, n, m) == [Bit(m, b % 2 == 1), Bit(m, b / 2 % 2 == 1), Bit(m, b / 4 % 2 == 1), Bit(m, b / 8 % 2 == 1)]
                             + Bits(b / 16, n - 4, m)
  {
    assert b / 2 / 2 == b / 4 && b / 4 / 2 == b / 8 && b / 8 / 2 == b / 16;
    assert Bits(b, n, m) == [Bit(m, b % 2 == 1)] + Bits(b / 2, n - 1, m);
    assert Bits(b / 2, n - 1, m) == [Bit(m, b / 2 % 2 == 1)] + Bits(b / 4, n - 2, m);
    assert Bits(b / 4, n - 2, m) == [Bit(m, b / 4 % 2 == 1)] + Bits(b / 8, n - 3, m);
    assert Bits(b / 8, n - 3, m) == [Bit(m, b / 8 % 2 == 1)] + Bits(b / 16, n - 4, m);
  }

  function AllBits(calls: seq<Call>): seq<Bit>
  {
    if calls == [] then [] else CallBits(calls[0]) + AllBits(calls[1..])
  }

  lemma {:induction false} AllBitsSnoc(calls: seq<Call>, c: Call)
    ensures AllBits(calls + [c]) == AllBits(calls) + CallBits(c)
  {
    if calls == [] {
      assert calls + [c] == [c];
      assert AllBits([c]) == CallBits(c) + AllBits([c][1..]);
    } else {
      AllBitsSnoc(calls[1..], c);
      assert (calls + [c])[1..] == calls[1..] + [c];
    }
  }

  // Receiving what was sent gives the calls back, byte for byte and in order.
  lemma {:induction false} DecodeAllBits(calls: seq<Call>)
    requires forall i :: 0 <= i < |calls| ==> ValidCall(calls[i])
    ensures Decode(AllBits(calls)) == calls
  {
    if calls != [] {
      var c := calls[0];
      var bits := AllBits(calls);
      assert ValidCall(c);
      assert bits[..8] == CallBits(c) && bits[8..] == AllBits(calls[1..]);
      assert Pow2(8) == 256 by {
        assert Pow2(4) == 16;
        assert Pow2(8) == 2 * (2 * (2 * (2 * Pow2(4))));
      }
      ValueOfBits(c.byte, 8, c.Data?);
      assert bits[0] == CallBits(c)[0];
      DecodeAllBits(calls[1..]);
    }
  }

  lemma NextBit(all: seq<Bit>, data: nat, n: nat, mode: bool, i: nat)
    requires 0 < n && i + n == |all| && Bits(data, n, mode) == all[i..]
    ensures all[..i + 1] == all[..i] + [Bit(mode, data % 2 == 1)]
    ensures Bits(data / 2, n - 1, mode) == all[i + 1..]
  {
    assert all[i] == all[i..][0];
    assert all[i..][1..] == all[i + 1..];
    assert Bits(data, n, mode)[1..] == Bits(data / 2, n - 1, mode);
  }

  // The pins, and every level pattern they have gone through since `start`.
  class Bus {
    var pins: Pins
    ghost const start: Pins
    ghost var wave: seq<Pins>

    constructor (pins: Pins)
      ensures this.pins == start == pins && wave == [] && Valid()
    {
      this.pins := pins;
      start := pins;
      wave := [];
    }

    ghost predicate Valid()
      reads this
    {
      pins == Last(start, wave)
    }

    // What a receiver has sampled so far.
    ghost function Heard(): seq<Bit>
      reads this
    {
      Samples(start, wave)
    }

    // write_gpio_bit, for one of the three pins.
    method Drive(next: Pins)
      requires Valid()
      modifies this
      ensures Valid() && pins == next
      ensures Heard() == old(Heard()) + Edge(old(pins), next)
    {
      SamplesConcat(start, wave, [next]);
      assert Samples(pins, [next]) == Edge(pins, next) + Samples(next, []);
      pins := next;
      wave := wave + [next];
    }

    method SetMode(v: bool)
      requires Valid()
      modifies this
      ensures Valid() && pins == old(pins).(mode := v) && Heard() == old(Heard())
    {
      Drive(pins.(mode := v));
    }

    method SetData(v: bool)
      requires Valid()
      modifies this
      ensures Valid() && pins == old(pins).(data := v) && Heard() == old(Heard())
    {
      Drive(pins.(data := v));
    }

    method SetClock(v: bool)
      requires Valid()
      modifies this
      ensures Valid() && pins == old(pins).(clock := v)
      ensures Heard() == old(Heard()) + if v && !old(pins).clock then [Bit(pins.mode, pins.data)] else []
    {
      Drive(pins.(clock := v));
    }

    // One bit: it is put on L3DATA while the clock is low, and sampled when the clock rises.
    method SendBit(bit: bool)
      requires Valid()
      modifies this
      ensures Valid() && pins == Pins(old(pins.mode), bit, true)
      ensures Heard() == old(Heard()) + [Bit(pins.mode, bit)]
    {
      SetClock(false);
      SetData(bit);
      SetClock(true);
    }

    // The loop both routines share: eight bits, least significant first, each put on L3DATA while the clock is low.
    method Shift(byte: nat)
      requires Valid() && byte < 256
      modifies this
      ensures Valid() && pins.clock && pins.mode == old(pins.mode)
      ensures Heard() == old(Heard()) + Bits(byte, 8, pins.mode)
    {
      ghost var all, heard := Bits(byte, 8, pins.mode), Heard();
      var data := byte;
      var i := 0;
      assert all[..0] == [] && all[0..] == all;
      while i < 8
        invariant 0 <= i <= 8
        invariant Valid() && pins.mode == old(pins.mode) && (i > 0 ==> pins.clock)
        invariant Bits(data, 8 - i, pins.mode) == all[i..]
        invariant Heard() == heard + all[..i]
      {
        SendBit(data % 2 == 1);
        NextBit(all, data, 8 - i, pins.mode, i);
        data := data / 2;
        i := i + 1;
      }
      assert all[..8] == all;
    }

    // uda1341_l3_address. A clock found low is raised before the byte, which the receiver takes for a bit.
    method SendAddress(byte: nat)
      requires Valid() && byte < 256
      modifies this
      ensures Valid() && pins.clock && pins.mode
      ensures Heard() == old(Heard()) + (if old(pins.clock) then [] else [Bit(false, false)]) + CallBits(Address(byte))
    {
      SetMode(false);
      SetData(false);
      SetClock(true);
      Shift(byte);
      SetMode(true);
    }

    // uda1341_l3_data.
    method SendData(byte: nat)
      requires Valid() && byte < 256
      modifies this
      ensures Valid() && pins.clock && pins.mode
      ensures Heard() == old(Heard()) + CallBits(Data(byte))
    {
      SetMode(true);
      SetMode(false);
      SetMode(true);
      Shift(byte);
      SetMode(true);
      SetMode(false);
      SetMode(true);
    }

    method Send(c: Call)
      requires Valid() && ValidCall(c)
      modifies this
      ensures Valid() && pins.clock
      ensures Heard() == old(Heard()) + Glitch(old(pins.clock), [c]) + CallBits(c)
    {
      match c {
        case Address(b) => SendAddress(b);
        case Data(b) => SendData(b);
      }
    }

    // Any list of calls. A receiver that starts with them recovers exactly that list, unless the clock was low and the
    // first byte is an address.
    method SendAll(calls: seq<Call>)
      requires Valid() && forall i :: 0 <= i < |calls| ==> ValidCall(calls[i])
      modifies this
      ensures Valid()
      ensures Heard() == Sent(old(Heard()), old(pins.clock), calls)
      ensures old(Heard()) == [] && Glitch(old(pins.clock), calls) == [] ==> Decode(Heard()) == calls
    {
      ghost var heard, clock := Heard(), pins.clock;
      var i := 0;
      while i < |calls|
        invariant 0 <= i <= |calls|
        invariant Valid() && if i == 0 then pins == old(pins) else pins.clock
        invariant Heard() == Sent(heard, clock, calls[..i])
      {
        assert ValidCall(calls[i]);
        SentMore(heard, clock, calls[..i], calls[i]);
        assert calls[..i + 1] == calls[..i] + [calls[i]];
        Send(calls[i]);
        i := i + 1;
      }
      assert calls[..i] == calls;
      DecodeAllBits(calls);
      assert [] + [] + AllBits(calls) == AllBits(calls);
    }
  }

  // The stray bit that a low clock costs, when the first byte is an address.
  function Glitch(clock: bool, calls: seq<Call>): seq<Bit>
  {
    if !clock && calls != [] && calls[0].Address? then [Bit(false, false)] else []
  }

  // What has been heard after the calls.
  function Sent(heard: seq<Bit>, clock: bool, calls: seq<Call>): seq<Bit>
  {
    heard + Glitch(clock, calls) + AllBits(calls)
  }

  lemma SentMore(heard: seq<Bit>, clock: bool, calls: seq<Call>, c: Call)
    ensures Sent(heard, clock, calls + [c])
            == Sent(heard, clock, calls) + (if calls == [] then Glitch(clock, [c]) else []) + CallBits(c)
  {
    AllBitsSnoc(calls, c);
  }

  // The top bit of n + 1, and the value of those below it.
  lemma {:induction false} TopBit(b: nat, n: nat, mode: bool)
    requires b < Pow2(n + 1)
    ensures Value(Bits(b, n + 1, mode)[..n]) < Pow2(n)
    ensures Bits(b, n + 1, mode)[n].mode == mode
    ensures b == Value(Bits(b, n + 1, mode)[..n]) + if Bits(b, n + 1, mode)[n].value then Pow2(n) else 0
  {
    if n == 0 {
      assert Pow2(1) == 2 * Pow2(0);
    } else {
      TopBit(b / 2, n - 1, mode);
      assert Bits(b, n + 1, mode)[..n][1..] == Bits(b / 2, n, mode)[..n - 1];
      assert Bits(b, n + 1, mode)[n] == Bits(b / 2, n, mode)[n - 1];
    }
  }

  // A byte whose bits arrive one place late reads as itself only when it is zero.
  lemma LateByte(b: nat, mode: bool, stray: Bit)
    requires b < 256 && !stray.value
    ensures Value([stray] + Bits(b, 8, mode)[..7]) == b <==> b == 0
    ensures b == 0 ==> Bits(b, 8, mode)[7] == Bit(mode, false)
  {
    assert Pow2(7) == 128 && Pow2(8) == 256 by {
      assert Pow2(4) == 16;
      assert Pow2(7) == 2 * (2 * (2 * Pow2(4)));
      assert Pow2(8) == 2 * Pow2(7);
    }
    TopBit(b, 7, mode);
    assert ([stray] + Bits(b, 8, mode)[..7])[1..] == Bits(b, 8, mode)[..7];
  }

  predicate AllAddressZero(calls: seq<Call>)
  {
    forall i :: 0 <= i < |calls| ==> calls[i] == Address(0)
  }

  lemma SameTails(c: Call, a: seq<Call>, b: seq<Call>)
    ensures [c] + a == [c] + b <==> a == b
  {
    assert ([c] + a)[1..] == a && ([c] + b)[1..] == b;
  }

  lemma AddressZeroTail(c: Call, rest: seq<Call>)
    requires c == Address(0)
    ensures AllAddressZero([c] + rest) <==> AllAddressZero(rest)
  {
    var calls := [c] + rest;
    assert forall i :: 0 <= i < |rest| ==> rest[i] == calls[i + 1];
    assert forall i :: 0 < i < |calls| ==> calls[i] == rest[i - 1];
  }

  lemma DecodeLate(stray: Bit, c: Call, rest: seq<Call>)
    requires stray == Bit(false, false)
    ensures Decode([stray] + AllBits([c] + rest))
            == [Address(Value([stray] + CallBits(c)[..7]))] + Decode([CallBits(c)[7]] + AllBits(rest))
  {
    assert ([c] + rest)[1..] == rest;
    var bits := [stray] + AllBits([c] + rest);
    assert bits[..8] == [stray] + CallBits(c)[..7];
    assert bits[8..] == [CallBits(c)[7]] + AllBits(rest);
  }

  // With the stray bit in front, the receiver still gets the calls right in one case only: when they are all address 0.
  lemma {:induction false} StrayBitDecodes(calls: seq<Call>)
    requires forall i :: 0 <= i < |calls| ==> ValidCall(calls[i])
    ensures Decode([Bit(false, false)] + AllBits(calls)) == calls <==> AllAddressZero(calls)
  {
    if calls != [] {
      var stray, c, rest := Bit(false, false), calls[0], calls[1..];
      assert ValidCall(c);
      LateByte(c.byte, c.Data?, stray);
      DecodeLate(stray, c, rest);
      var bits := [stray] + AllBits(calls);
      var late := Address(Value([stray] + CallBits(c)[..7]));
      assert calls == [c] + rest;
      if c == Address(0) {
        StrayBitDecodes(rest);
        SameTails(c, Decode([stray] + AllBits(rest)), rest);
        AddressZeroTail(c, rest);
      } else {
        assert Decode(bits)[0] == late != c;
      }
    }
  }
}
