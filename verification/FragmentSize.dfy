// SNDCTL_DSP_SETFRAGMENT: how the requested fragment size and count are clamped.
module FragmentSize {
  import opened PlaybackRing
  import opened Arithmetic

  // 1 << s as the ARM does it: the shift amount is its low byte, and 32 or more shifts the bit out.
  function ShiftOne(s: nat): nat
  {
    if s % 256 < 32 then Pow2(s % 256) else 0
  }

  function Clamp(x: nat, low: nat, high: nat): (r: nat)
    requires low <= high
    ensures low <= r <= high && (r == x || (x < low && r == low) || (x > high && r == high))
  {
    if x < low then low else if x > high then high else x
  }

  // As many fragments as 128 KiB hold.
  function Most(fragsize: nat): nat
    requires 0 < fragsize
  {
    128 * 1024 / fragsize
  }

  // The clamps, for the two halves of the request.
  function Settings(shift: nat, wanted: nat): (r: (nat, nat))
  {
    var fragsize := Clamp(ShiftOne(shift), 16, 16384);
    var nbfrags := if wanted < 2 then 2 else wanted;
    (fragsize, if nbfrags * fragsize > 128 * 1024 then Most(fragsize) else nbfrags)
  }

  // The fragment size and number of fragments that a request of `val` (32 bits) leads to.
  function SetFragment(val: nat): (r: (nat, nat))
    requires val < WORD
  {
    Settings(val % 65536, val / 65536 % 32768)
  }

  // The memory that takes.
  function Total(val: nat): nat
    requires val < WORD
  {
    SetFragment(val).1 * SetFragment(val).0
  }

  lemma Pow2Frames(n: nat)
    requires n >= 2
    ensures Frames(Pow2(n))
  {
    assert Pow2(n) == 4 * Pow2(n - 2);
    QuadrupleIsFrames(Pow2(n - 2));
  }

  lemma {:induction false} Pow2Grows(m: nat, n: nat)
    requires m <= n
    ensures Pow2(m) <= Pow2(n)
  {
    if m < n {
      Pow2Grows(m, n - 1);
    }
  }

  lemma PowersInRange()
    ensures Pow2(4) == 16 && Pow2(14) == 16384
  {
    assert Pow2(8) == 16 * Pow2(4);
    assert Pow2(12) == 16 * Pow2(8);
    assert Pow2(14) == 4 * Pow2(12);
  }

  // The clamped size is the power of two with the clamped exponent.
  lemma ClampedShift(s: nat)
    ensures
      var k := if s % 256 >= 32 then 4 else Clamp(s % 256, 4, 14);
      4 <= k <= 14 && Clamp(ShiftOne(s), 16, 16384) == Pow2(k)
  {
    PowersInRange();
    var e := s % 256;
    if e < 4 {
      Pow2Grows(e, 4);
    } else if e <= 14 {
      Pow2Grows(4, e);
      Pow2Grows(e, 14);
    } else if e < 32 {
      Pow2Grows(14, e);
    }
  }

  lemma MostFragments(fragsize: nat)
    requires 16 <= fragsize <= 16384
    ensures 8 <= Most(fragsize) && Most(fragsize) * fragsize <= 128 * 1024 < (Most(fragsize) + 1) * fragsize
  {
    QuotientAtLeast(128 * 1024, fragsize, 8);
    QuotientAtMost(128 * 1024, fragsize);
    QuotientNoMore(128 * 1024, fragsize);
  }

  // What a request of `val` is to lead to. The size: the power of two that its low byte asks for, or the nearest one allowed,
  // and the least if the byte shifts the bit out. The number of fragments: the one asked for, at least two, as long as that
  // fits in 128 KiB; otherwise as many as fit.
  predicate AsAsked(val: nat, fragsize: nat, nbfrags: nat)
  {
    SizeAsAsked(val % 256, fragsize) && CountAsAsked(val / 65536 % 32768, fragsize, nbfrags)
  }

  predicate SizeAsAsked(shift: nat, fragsize: nat)
  {
    && (shift < 4 || 32 <= shift ==> fragsize == 16)
    && (4 <= shift <= 14 ==> fragsize == Pow2(shift))
    && (15 <= shift < 32 ==> fragsize == 16384)
  }

  predicate CountAsAsked(asked: nat, fragsize: nat, nbfrags: nat)
  {
    if asked * fragsize > 128 * 1024 then nbfrags * fragsize <= 128 * 1024 < (nbfrags + 1) * fragsize
    else nbfrags == if asked < 2 then 2 else asked
  }

  lemma SizeAskedFor(shift: nat, wanted: nat)
    ensures SizeAsAsked(shift % 256, Settings(shift, wanted).0)
  {
    ClampedShift(shift);
    PowersInRange();
  }

  lemma LowByte(val: nat)
    ensures val % 65536 % 256 == val % 256
  {
    var q, r := val / 65536, val % 65536;
    assert val == 256 * (256 * q + r / 256) + r % 256;
  }

  // That is what it leads to, whatever the request.
  lemma SetFragmentAsAsked(val: nat)
    requires val < WORD
    ensures AsAsked(val, SetFragment(val).0, SetFragment(val).1)
  {
    SetFragmentInRange(val);
    LowByte(val);
    SizeAskedFor(val % 65536, val / 65536 % 32768);
    CountAskedFor(val % 65536, val / 65536 % 32768, SetFragment(val).0);
  }

  lemma CountAskedFor(shift: nat, asked: nat, fragsize: nat)
    requires fragsize == Settings(shift, asked).0 && 16 <= fragsize <= 16384
    ensures CountAsAsked(asked, fragsize, Settings(shift, asked).1)
  {
    MostFragments(fragsize);
    CountOf(shift, asked, fragsize);
  }

  lemma CountOf(shift: nat, asked: nat, fragsize: nat)
    requires fragsize == Settings(shift, asked).0 && 16 <= fragsize <= 16384
    ensures Settings(shift, asked).1
            == if asked * fragsize > 128 * 1024 then Most(fragsize) else if asked < 2 then 2 else asked
  {
    if asked < 2 {
      assert asked * fragsize <= 2 * fragsize;
    }
  }

  // Whatever is asked for: the fragment size is a power of two from 16 to 16384, so it is made of whole stereo frames;
  // there are at least two fragments; and all of them together take no more than 128 KiB.
  lemma SetFragmentInRange(val: nat)
    requires val < WORD
    ensures
      var (fragsize, nbfrags) := SetFragment(val);
      && (exists k: nat :: 4 <= k <= 14 && fragsize == Pow2(k))
      && 16 <= fragsize <= 16384 && Frames(fragsize)
      && 2 <= nbfrags && nbfrags * fragsize <= 128 * 1024
  {
    var (fragsize, nbfrags) := SetFragment(val);
    ClampedShift(val % 65536);
    var k: nat :| 4 <= k <= 14 && fragsize == Pow2(k);
    PowersInRange();
    Pow2Frames(k);
    MostFragments(fragsize);
  }

  lemma SplitRequest(n: nat, k: nat)
    requires k < 65536 && n < 32768
    ensures (n * 65536 + k) % 65536 == k && (n * 65536 + k) / 65536 % 32768 == n
  {
  }

  // And nothing in between is lost: a request for a size and count that fit is honoured exactly.
  lemma FittingRequestHonoured(k: nat, n: nat)
    requires 4 <= k <= 14 && 2 <= n < 32768 && n * Pow2(k) <= 128 * 1024
    ensures SetFragment(n * 65536 + k) == (Pow2(k), n)
  {
    SplitRequest(n, k);
    FittingSettings(k, n);
  }

  lemma FittingSettings(k: nat, n: nat)
    requires 4 <= k <= 14 && 2 <= n && n * Pow2(k) <= 128 * 1024
    ensures Settings(k, n) == (Pow2(k), n)
  {
    FittingShift(k);
    UnclampedSettings(k, n, Pow2(k));
  }

  lemma SmallByte(k: nat)
    requires k < 256
    ensures k % 256 == k
  {
  }

  lemma FittingShift(k: nat)
    requires 4 <= k <= 14
    ensures Clamp(ShiftOne(k), 16, 16384) == Pow2(k)
  {
    SmallByte(k);
    ClampedShift(k);
  }

  lemma UnclampedSettings(shift: nat, wanted: nat, size: nat)
    requires Clamp(ShiftOne(shift), 16, 16384) == size && 2 <= wanted && wanted * size <= 128 * 1024
    ensures Settings(shift, wanted) == (size, wanted)
  {
  }
}
