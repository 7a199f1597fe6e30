// iispsr_value: the search for the I2S prescaler. Its subtraction is unsigned, so PCM_ABS never negates anything: a rate
// above the wanted one looks 2^32 too far away. The routine therefore finds the nearest rate from below only.
module Prescaler {
  import opened Arithmetic

  const STEPS := 32
  const FAR := 0xffff

  // The rate that prescaler i gives.
  function Rate(base: nat, i: nat): nat
  {
    base / (i + 1)
  }

  // sample_rate - tmpval, in 32-bit unsigned arithmetic; PCM_ABS leaves it alone.
  function Gap(rate: nat, tmpval: nat): (d: nat)
    requires rate < WORD && tmpval < WORD
  {
    if tmpval <= rate then rate - tmpval else rate + WORD - tmpval
  }

  lemma RateFalls(base: nat, i: nat, j: nat)
    requires i <= j
    ensures Rate(base, j) <= Rate(base, i)
  {
    var q := base / (j + 1);
    assert base >= q * (j + 1) by {
      assert base == q * (j + 1) + base % (j + 1);
    }
    assert q * (j + 1) >= q * (i + 1);
    QuotientAtLeast(base, i + 1, q);
  }

  // The first prescaler whose rate does not exceed the wanted one.
  predicate FirstCrossing(base: nat, rate: nat, r: nat)
  {
    r < STEPS && Rate(base, r) <= rate && forall i :: 0 <= i < r ==> rate < Rate(base, i)
  }

  predicate NoCrossing(base: nat, rate: nat)
  {
    forall i :: 0 <= i < STEPS ==> rate < Rate(base, i)
  }

  // What the search returns.
  ghost predicate Chosen(base: nat, rate: nat, prescaler: nat)
  {
    if exists r: nat :: FirstCrossing(base, rate, r) && rate - Rate(base, r) < FAR
    then FirstCrossing(base, rate, prescaler)
    else prescaler == 0
  }

  // The crossing found so far by a search that has looked at prescalers below i: c, or i if there is none.
  ghost predicate SearchedTo(base: nat, rate: nat, i: nat, c: nat, best: nat, prescaler: nat)
  {
    && c <= i
    && (forall r :: 0 <= r < c ==> rate < Rate(base, r))
    && (c < i ==> Rate(base, c) <= rate)
    && if c < i && rate - Rate(base, c) < FAR then prescaler == c && best == rate - Rate(base, c) else prescaler == 0 && best == FAR
  }

  lemma SearchStep(base: nat, rate: nat, i: nat, c: nat, best: nat, prescaler: nat)
    requires base <= WORD - FAR && rate < WORD && i < STEPS && SearchedTo(base, rate, i, c, best, prescaler)
    ensures Rate(base, i) <= base
    ensures
      var c' := if c == i && rate < Rate(base, i) then i + 1 else c;
      var better := Gap(rate, Rate(base, i)) < best;
      SearchedTo(base, rate, i + 1, c', if better then Gap(rate, Rate(base, i)) else best, if better then i else prescaler)
  {
    RateFalls(base, 0, i);
    assert Rate(base, 0) == base;
    if c < i {
      RateFalls(base, c, i);
    }
  }

  lemma SearchEnds(base: nat, rate: nat, c: nat, best: nat, prescaler: nat)
    requires SearchedTo(base, rate, STEPS, c, best, prescaler)
    ensures Chosen(base, rate, prescaler)
  {
    if c < STEPS {
      assert FirstCrossing(base, rate, c);
      forall r: nat | FirstCrossing(base, rate, r) ensures r == c {
      }
    } else {
      forall r: nat ensures !FirstCrossing(base, rate, r) {
      }
    }
  }

  // Rates above the wanted one are never near, as long as the undivided rate is at most 2^32 - 0xffff; a bus clock divided
  // by 384 is far below that.
  method IispsrValue(clock: nat, bitClock: nat, rate: nat) returns (prescaler: nat)
    requires clock < WORD && 0 < bitClock && rate < WORD
    ensures prescaler < STEPS
    ensures clock / bitClock <= WORD - FAR ==> Chosen(clock / bitClock, rate, prescaler)
    ensures clock / bitClock <= WORD - FAR ==> (Nearest(clock / bitClock, rate, prescaler) <==> Findable(clock / bitClock, rate))
  {
    prescaler := 0;
    var best: nat := FAR;
    var base := clock / bitClock;
    QuotientAtMost(clock, bitClock);
    ghost var near := base <= WORD - FAR;
    ghost var c: nat := 0;
    var i := 0;
    while i < STEPS
      invariant 0 <= i <= STEPS && prescaler < STEPS
      invariant near ==> SearchedTo(base, rate, i, c, best, prescaler)
    {
      if near {
        SearchStep(base, rate, i, c, best, prescaler);
        c := if c == i && rate < Rate(base, i) then i + 1 else c;
      }
      QuotientAtMost(base, i + 1);
      var tmpval := base / (i + 1);
      if Gap(rate, tmpval) < best {
        best := Gap(rate, tmpval);
        prescaler := i;
      }
      i := i + 1;
    }
    if near {
      SearchEnds(base, rate, c, best, prescaler);
      ChosenIsNearest(base, rate, prescaler);
    }
  }

  // The divisor of 384 keeps the undivided rate in range for every bus clock.
  lemma BusClockIsNear(clock: nat)
    requires clock < WORD
    ensures clock / 384 <= WORD - FAR
  {
  }

  function Distance(rate: nat, tmpval: nat): nat
  {
    if tmpval <= rate then rate - tmpval else tmpval - rate
  }

  // No prescaler gives a rate closer to the wanted one.
  predicate Nearest(base: nat, rate: nat, p: nat)
  {
    forall i :: 0 <= i < STEPS ==> Distance(rate, Rate(base, p)) <= Distance(rate, Rate(base, i))
  }

  // The first crossing is the nearest rate exactly when the rate just above it is no closer.
  lemma CrossingIsNearest(base: nat, rate: nat, r: nat)
    requires FirstCrossing(base, rate, r)
    ensures Nearest(base, rate, r) <==> r == 0 || rate - Rate(base, r) <= Rate(base, r - 1) - rate
  {
    forall i | 0 <= i < STEPS && (r == 0 || rate - Rate(base, r) <= Rate(base, r - 1) - rate)
      ensures Distance(rate, Rate(base, r)) <= Distance(rate, Rate(base, i))
    {
      if i < r {
        RateFalls(base, i, r - 1);
      } else {
        RateFalls(base, r, i);
      }
    }
    if Nearest(base, rate, r) && r > 0 {
      assert Distance(rate, Rate(base, r)) <= Distance(rate, Rate(base, r - 1));
    }
  }

  // When every rate is too high the search returns 0, which is the farthest of them.
  lemma NoCrossingIsFarthest(base: nat, rate: nat)
    requires NoCrossing(base, rate)
    ensures !Nearest(base, rate, 0)
    ensures forall i :: 0 <= i < STEPS ==> Distance(rate, Rate(base, i)) <= Distance(rate, Rate(base, 0))
  {
    forall i | 0 <= i < STEPS ensures Distance(rate, Rate(base, i)) <= Distance(rate, Rate(base, 0)) {
      RateFalls(base, 0, i);
    }
    assert rate < Rate(base, 1) < Rate(base, 0);
    assert Distance(rate, Rate(base, 1)) < Distance(rate, Rate(base, 0));
  }

  // A first crossing at which the search ends up at the nearest rate. The last case is a gap of FAR or more: the search
  // then returns 0, whose rate is above the wanted one.
  predicate Good(base: nat, rate: nat, c: nat)
    requires FirstCrossing(base, rate, c)
  {
    || c == 0
    || (rate - Rate(base, c) < FAR && rate - Rate(base, c) <= Rate(base, c - 1) - rate)
    || (rate - Rate(base, c) >= FAR && c == 1 && Rate(base, 0) - rate <= rate - Rate(base, 1))
  }

  ghost predicate Findable(base: nat, rate: nat)
  {
    exists c: nat :: FirstCrossing(base, rate, c) && Good(base, rate, c)
  }

  // Exactly when what the search returns is the nearest rate there is.
  lemma ChosenIsNearest(base: nat, rate: nat, p: nat)
    requires Chosen(base, rate, p)
    ensures Nearest(base, rate, p) <==> Findable(base, rate)
  {
    if NoCrossing(base, rate) {
      NoCrossingIsFarthest(base, rate);
    } else {
      var c := TheCrossing(base, rate, 0);
      CrossingIsNearest(base, rate, c);
      if c > 0 && rate - Rate(base, c) >= FAR {
        ZeroIsNearest(base, rate, c);
      }
    }
  }

  lemma TheCrossing(base: nat, rate: nat, from: nat) returns (c: nat)
    requires from < STEPS && !NoCrossing(base, rate) && forall i :: 0 <= i < from ==> rate < Rate(base, i)
    ensures FirstCrossing(base, rate, c)
    ensures forall r: nat :: FirstCrossing(base, rate, r) ==> r == c
    decreases STEPS - from
  {
    if rate < Rate(base, from) {
      c := TheCrossing(base, rate, from + 1);
    } else {
      c := from;
    }
  }

  // The undivided rate, when it is above the wanted one, is the nearest only if the next one is below and no closer.
  lemma ZeroIsNearest(base: nat, rate: nat, c: nat)
    requires FirstCrossing(base, rate, c) && c > 0
    ensures Nearest(base, rate, 0) <==> c == 1 && Rate(base, 0) - rate <= rate - Rate(base, 1)
  {
    if c == 1 {
      forall i | 0 <= i < STEPS && Rate(base, 0) - rate <= rate - Rate(base, 1)
        ensures Distance(rate, Rate(base, 0)) <= Distance(rate, Rate(base, i))
      {
        if i > 0 {
          RateFalls(base, 1, i);
        }
      }
      assert Nearest(base, rate, 0) ==> Distance(rate, Rate(base, 0)) <= Distance(rate, Rate(base, 1));
    } else {
      assert rate < Rate(base, 1) < Rate(base, 0);
      assert Distance(rate, Rate(base, 1)) < Distance(rate, Rate(base, 0));
    }
  }

  // A 50 MHz bus clock and 8000 Hz: the search stops at 7659 Hz although 8138 Hz is closer.
  lemma NotAlwaysNearest()
    ensures
      var base := 50_000_000 / 384;
      FirstCrossing(base, 8000, 16) && 8000 - Rate(base, 16) < FAR && !Nearest(base, 8000, 16)
  {
    var base := 50_000_000 / 384;
    assert base == 130208;
    assert Rate(base, 15) == 8138 && Rate(base, 16) == 7659;
    forall i | 0 <= i < 16 ensures 8000 < Rate(base, i) {
      RateFalls(base, i, 15);
    }
    assert Distance(8000, Rate(base, 16)) > Distance(8000, Rate(base, 15));
  }
}
