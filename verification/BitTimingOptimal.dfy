/**
 * How good the bit timing search is among all prescalers and segments, not
 * just among those it tries.
 */
module BitTimingOptimal {
  import opened Arithmetic
  import opened BitTiming

  lemma MulMonotone(a: nat, b: nat, n: nat)
    requires a <= b
    ensures a * n <= b * n
  {
  }

  /** The prescaler, rounded down, at which n quanta take a bit time. */
  function Exact(g: Goal, n: nat): nat
    requires g.bitrate > 0 && n > 0
  {
    MulPositive(n, g.bitrate);
    g.freq / (n * g.bitrate)
  }

  /** The bit rate of a prescaler. */
  function Rate(g: Goal, brp: nat, n: nat): nat
    requires brp > 0 && n > 0
  {
    MulPositive(brp, n);
    g.freq / (brp * n)
  }

  /** A larger prescaler is slower. */
  lemma RateAntitone(g: Goal, a: nat, b: nat, n: nat)
    requires 0 < a <= b && n > 0
    ensures Rate(g, b, n) <= Rate(g, a, n)
  {
    var q := Rate(g, b, n);
    MulPositive(a, n);
    MulPositive(b, n);
    MulMonotone(a, b, n);
    MulMonotone(a * n, b * n, q);
    assert q * (b * n) <= g.freq;
    DivAtLeast(g.freq, a * n, q);
  }

  /** Up to the exact prescaler the bit rate is not too low. */
  lemma NotTooSlow(g: Goal, b: nat, n: nat)
    requires g.bitrate > 0 && n > 0 && 0 < b <= Exact(g, n)
    ensures g.bitrate <= Rate(g, b, n)
  {
    var m := n * g.bitrate;
    MulPositive(n, g.bitrate);
    MulPositive(b, n);
    MulMonotone(b, Exact(g, n), m);
    assert Exact(g, n) * m <= g.freq;
    assert b * (n * g.bitrate) == g.bitrate * (b * n);
    DivAtLeast(g.freq, b * n, g.bitrate);
  }

  /** Beyond it the bit rate is too low. */
  lemma TooSlow(g: Goal, b: nat, n: nat)
    requires g.bitrate > 0 && n > 0 && Exact(g, n) < b
    ensures Rate(g, b, n) < g.bitrate
  {
    var m := n * g.bitrate;
    MulPositive(n, g.bitrate);
    MulPositive(b, n);
    MulMonotone(Exact(g, n) + 1, b, m);
    assert g.freq < (g.freq / m + 1) * m;
    assert b * (n * g.bitrate) == g.bitrate * (b * n);
    QuotientBelow(g.freq, b * n, g.bitrate);
  }

  lemma QuotientBelow(x: nat, n: nat, q: nat)
    requires n > 0 && x < q * n
    ensures x / n < q
  {
    if q <= x / n {
      MulMonotone(q, x / n, n);
    }
  }

  /** Of two prescalers on the same side of the exact one, the nearer is the better. */
  lemma NearerIsBetter(g: Goal, a: nat, b: nat, n: nat)
    requires g.bitrate > 0 && n > 0 && 0 < a && 0 < b
    requires b <= a <= Exact(g, n) || Exact(g, n) < a <= b
    ensures RateError(g.freq, g.bitrate, a, n) <= RateError(g.freq, g.bitrate, b, n)
  {
    if a <= Exact(g, n) {
      NotTooSlow(g, a, n);
      RateAntitone(g, b, a, n);
    } else {
      TooSlow(g, a, n);
      RateAntitone(g, a, b, n);
    }
  }

  /** A multiple of the step that is not beyond x is not beyond x rounded down. */
  lemma MultipleBelow(x: nat, inc: nat, b: nat)
    requires inc > 0 && b % inc == 0 && b <= x
    ensures b <= x / inc * inc <= x
  {
    assert b == b / inc * inc;
    DivAtLeast(x, inc, b / inc);
    MulMonotone(b / inc, x / inc, inc);
  }

  /** A prescaler that the hardware has. */
  predicate Available(lim: Limits, b: nat)
    requires lim.brpInc > 0
  {
    lim.brpMin <= b <= lim.brpMax && b % lim.brpInc == 0
  }

  /**
   * For this number of quanta the search tries the nearest prescaler on b's
   * side of the exact one: rounded down it must not exceed the limits; rounded
   * up it must be a multiple of the step and not fall below them.
   */
  predicate NearestIsTried(lim: Limits, g: Goal, tseg: nat, b: nat)
    requires Usable(lim) && g.bitrate > 0
  {
    var exact := Exact(g, tseg + 1);
    if b <= exact then exact / lim.brpInc * lim.brpInc <= lim.brpMax
    else (exact + 1) % lim.brpInc == 0 && lim.brpMin <= exact + 1
  }

  /** Prescaler p is on b's side of the exact one and at least as near to it. */
  predicate AsNear(exact: nat, p: nat, b: nat) {
    b <= p <= exact || exact < p <= b
  }

  /** The candidate that stands for prescaler b. */
  function Stand(g: Goal, tseg: nat, b: nat): nat
    requires g.bitrate > 0
  {
    2 * tseg + if b <= Exact(g, tseg + 1) then 0 else 1
  }

  lemma StandIsBetter(lim: Limits, g: Goal, tseg: nat, b: nat)
    requires Usable(lim) && g.bitrate > 0 && InRange(lim, tseg)
    requires Available(lim, b) && NearestIsTried(lim, g, tseg, b)
    ensures var t := Stand(g, tseg, b);
      && t / 2 == tseg && Admissible(lim, g, t) && AsNear(Exact(g, tseg + 1), Brp(lim, g, t), b)
      && RateError(g.freq, g.bitrate, Brp(lim, g, t), tseg + 1) <= RateError(g.freq, g.bitrate, b, tseg + 1)
  {
    var t, exact, inc := Stand(g, tseg, b), Exact(g, tseg + 1), lim.brpInc;
    assert (1 + t / 2) * g.bitrate == (tseg + 1) * g.bitrate;
    if b <= exact {
      MultipleBelow(exact, inc, b);
      assert Brp(lim, g, t) == exact / inc * inc;
    } else {
      assert exact + 1 == (exact + 1) / inc * inc;
      assert Brp(lim, g, t) == exact + 1;
    }
    NearerIsBetter(g, Brp(lim, g, t), b, tseg + 1);
  }

  lemma RoundedDown(x: nat, inc: nat)
    requires inc > 0
    ensures x / inc * inc <= x && x / inc * inc % inc == 0
  {
    ProductIsMultiple(x / inc, inc);
  }

  lemma RoundedMonotone(x: nat, y: nat, inc: nat)
    requires inc > 0 && x <= y
    ensures x / inc * inc <= y / inc * inc
  {
    RoundedDown(x, inc);
    DivAtLeast(y, inc, x / inc);
    MulMonotone(x / inc, y / inc, inc);
  }

  /** Rounding x, or the number after it, to the step comes no nearer than NearestIsTried says. */
  lemma RoundedNear(x: nat, up: nat, inc: nat, b: nat, p: nat)
    requires inc > 0 && up <= 1 && p == (x + up) / inc * inc && AsNear(x, p, b)
    ensures if b <= x then x / inc * inc <= p else p == x + 1 && (x + 1) % inc == 0
  {
    RoundedDown(x + up, inc);
    RoundedMonotone(x, x + up, inc);
  }

  lemma TriedIsNearest(lim: Limits, g: Goal, tseg: nat, b: nat, t: nat)
    requires Usable(lim) && g.bitrate > 0 && t / 2 == tseg && Admissible(lim, g, t)
    requires AsNear(Exact(g, tseg + 1), Brp(lim, g, t), b)
    ensures NearestIsTried(lim, g, tseg, b)
  {
    assert (1 + t / 2) * g.bitrate == (tseg + 1) * g.bitrate;
    RoundedNear(Exact(g, tseg + 1), t % 2, lim.brpInc, b, Brp(lim, g, t));
  }

  /** The search tries a prescaler at least as near as b on b's side exactly then. */
  lemma NearTriedExactly(lim: Limits, g: Goal, tseg: nat, b: nat)
    requires Usable(lim) && g.bitrate > 0 && InRange(lim, tseg) && Available(lim, b)
    ensures NearestIsTried(lim, g, tseg, b)
       <==> exists t :: t / 2 == tseg && Admissible(lim, g, t) && AsNear(Exact(g, tseg + 1), Brp(lim, g, t), b)
  {
    if NearestIsTried(lim, g, tseg, b) {
      StandIsBetter(lim, g, tseg, b);
    }
    forall t | t / 2 == tseg && Admissible(lim, g, t) && AsNear(Exact(g, tseg + 1), Brp(lim, g, t), b)
      ensures NearestIsTried(lim, g, tseg, b)
    {
      TriedIsNearest(lim, g, tseg, b, t);
    }
  }

  /** What Search() promises of its result. */
  ghost predicate NoneBetter(lim: Limits, g: Goal, found: bool, c: Cost)
    requires Usable(lim) && g.bitrate > 0 && g.nominal < 1000
  {
    forall t, d :: Achieves(lim, g, t, d) ==> found && AtMost(c, d)
  }

  /**
   * The result is at least as good as any division into segments with a
   * sample point that is not late, under any prescaler of the hardware whose
   * side of the exact one the search covers.
   */
  lemma BeatsAll(lim: Limits, g: Goal, found: bool, c: Cost, tseg: nat, tseg2: nat, b: nat)
    requires Usable(lim) && g.bitrate > 0 && g.nominal < 1000 && NoneBetter(lim, g, found, c)
    requires InRange(lim, tseg) && Legal(lim, tseg, tseg2) && Spt(tseg, tseg2) <= g.nominal
    requires Available(lim, b) && NearestIsTried(lim, g, tseg, b)
    ensures found
    ensures AtMost(c, Cost(RateError(g.freq, g.bitrate, b, tseg + 1), g.nominal - Spt(tseg, tseg2)))
  {
    var t := Stand(g, tseg, b);
    StandIsBetter(lim, g, tseg, b);
    SptErrorMinimal(lim, g.nominal, tseg, tseg2);
    assert Achieves(lim, g, t, CostOf(lim, g, t));
  }

  /** With a step of one, the exact prescaler has to lie within the limits or next to them. */
  predicate WithinReach(lim: Limits, exact: nat) {
    lim.brpMin <= exact + 1 && exact <= lim.brpMax
  }

  lemma StepOfOne(lim: Limits, g: Goal, tseg: nat, b: nat)
    requires Usable(lim) && g.bitrate > 0 && lim.brpInc == 1 && Available(lim, b)
    ensures NearestIsTried(lim, g, tseg, b) <==> WithinReach(lim, Exact(g, tseg + 1))
  {
  }

  /** Out of that reach the search tries nothing at all for this number of quanta. */
  lemma OutOfReach(lim: Limits, g: Goal, tseg: nat, b: nat)
    requires Usable(lim) && g.bitrate > 0 && lim.brpInc == 1 && InRange(lim, tseg) && Available(lim, b)
    ensures WithinReach(lim, Exact(g, tseg + 1)) <==> exists t :: t / 2 == tseg && Admissible(lim, g, t)
  {
    var exact := Exact(g, tseg + 1);
    forall t | t / 2 == tseg ensures Brp(lim, g, t) == exact + t % 2 {
      assert (1 + t / 2) * g.bitrate == (tseg + 1) * g.bitrate;
    }
    if WithinReach(lim, exact) {
      var t := 2 * tseg + if lim.brpMin <= exact then 0 else 1;
      assert t / 2 == tseg && Admissible(lim, g, t);
    }
  }

  /**
   * Such a miss: at 50000 Hz, for 1000 bit/s in 10 quanta, the exact prescaler
   * is 5; where 4 is the largest, nothing is found, although 4 would do.
   */
  lemma NothingBeyond() returns (lim: Limits, g: Goal)
    ensures Usable(lim) && NoWrap(lim, g) && lim.brpInc == 1 && Available(lim, 4) && InRange(lim, 9)
    ensures RateError(g.freq, g.bitrate, 4, 10) == 250
    ensures forall t: nat :: !Admissible(lim, g, t)
  {
    lim, g := Limits(7, 7, 2, 2, 1, 4, 1), Goal(50000, 1000, 800);
    forall t: nat | Candidate(lim, t) ensures !Admissible(lim, g, t) {
      assert t / 2 == 9 && Brp(lim, g, t) == 5 + t % 2;
    }
  }

  /**
   * With a larger step the search can miss the best prescaler: at 29000 Hz, for
   * 1000 bit/s in 10 quanta, all it tries is 2, where 4 would be nearer.
   */
  lemma StepOfTwoMisses() returns (lim: Limits, g: Goal)
    ensures Usable(lim) && NoWrap(lim, g) && lim.brpInc == 2 && Available(lim, 4) && InRange(lim, 9)
    ensures Admissible(lim, g, 18) && forall t, c :: Achieves(lim, g, t, c) ==> c.rate == 450
    ensures RateError(g.freq, g.bitrate, 4, 10) == 275
  {
    lim, g := Limits(7, 7, 2, 2, 2, 64, 2), Goal(29000, 1000, 800);
    forall t, c | Achieves(lim, g, t, c) ensures c.rate == 450 {
      assert t / 2 == 9 && Brp(lim, g, t) == 2;
    }
  }
}
