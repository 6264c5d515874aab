/**
 * The bit timing search of the Linux 4.8 CAN drivers, as imported by
 * can-calc-bit-timing.c: for every number of time quanta it tries the two
 * nearest prescalers and keeps the best bit rate and sample point.
 */
module BitTiming {
  import opened Arithmetic
  import opened Bytes

  const UINT_MAX: nat := 0xFFFF_FFFF

  /** Subtraction of 32-bit unsigned integers. */
  function Sub(a: nat, b: nat): nat
    requires a <= UINT_MAX && b <= UINT_MAX
  {
    if a >= b then a - b else a + (UINT_MAX + 1) - b
  }

  /** struct can_bittiming_const */
  datatype Limits = Limits(
    tseg1Min: nat, tseg1Max: nat, tseg2Min: nat, tseg2Max: nat, brpMin: nat, brpMax: nat, brpInc: nat)

  /** A usable set of limits, small enough for the products of the sample point not to wrap. */
  predicate Usable(lim: Limits) {
    && lim.tseg2Min <= lim.tseg2Max && 1 <= lim.tseg1Min + lim.tseg2Min
    && lim.tseg1Min <= lim.tseg1Max && 1000 * (lim.tseg1Max + lim.tseg2Max + 2) <= UINT_MAX
    && 1 <= lim.brpMin && 1 <= lim.brpInc && lim.brpMax <= UINT_MAX
  }

  /** A division of a bit into tseg quanta after the first one that the limits allow to search. */
  predicate InRange(lim: Limits, tseg: nat) {
    lim.tseg1Min + lim.tseg2Min <= tseg <= lim.tseg1Max + lim.tseg2Max
  }

  // ---- The sample point ----

  /** The sample point in tenths of a percent. */
  function Spt(tseg: nat, tseg2: nat): nat
    requires tseg2 <= tseg + 1
  {
    1000 * (tseg + 1 - tseg2) / (tseg + 1)
  }

  /** The second segment respects its own limits and leaves no more than allowed for the first. */
  predicate Legal(lim: Limits, tseg: nat, tseg2: nat) {
    lim.tseg2Min <= tseg2 <= lim.tseg2Max && tseg2 <= tseg && tseg - tseg2 <= lim.tseg1Max
  }

  function Clamp(x: nat, lo: nat, hi: nat): nat {
    var y := if x > lo then x else lo;
    if y < hi then y else hi
  }

  /** The quanta before the nominal sample point. */
  function Early(nominal: nat, n: nat): (f: nat)
    requires nominal < 1000 && n > 0
    ensures f < n
  {
    EarlyBound(nominal, n);
    nominal * n / 1000
  }

  lemma EarlyBound(nominal: nat, n: nat)
    requires nominal < 1000 && n > 0
    ensures nominal * n / 1000 < n
  {
    MulOrder(nominal, 1000, n);
  }

  /** A wanted second segment, made to fit. */
  function Fit(lim: Limits, tseg: nat, wanted: nat): (r: nat)
    requires Usable(lim) && InRange(lim, tseg)
    ensures r <= UINT_MAX
  {
    var cut := Clamp(wanted, lim.tseg2Min, lim.tseg2Max);
    if Sub(tseg, cut) > lim.tseg1Max then Sub(tseg, lim.tseg1Max) else cut
  }

  /** The second segment tried in turn i of can_update_spt(). */
  function Tried(lim: Limits, nominal: nat, tseg: nat, i: nat): (r: nat)
    requires Usable(lim) && InRange(lim, tseg) && nominal < 1000 && i <= 1
    ensures r <= UINT_MAX
  {
    Fit(lim, tseg, tseg + 1 - Early(nominal, tseg + 1) - i)
  }

  /** The sample point as computed, when the second segment may have wrapped. */
  function SptTried(tseg: nat, tseg2: nat): nat
    requires tseg + 1 <= UINT_MAX && tseg2 <= UINT_MAX
  {
    1000 * Sub(tseg + 1, tseg2) / (tseg + 1)
  }

  /** Its error, UINT_MAX when it is late. */
  function ErrorTried(nominal: nat, tseg: nat, tseg2: nat): nat
    requires tseg + 1 <= UINT_MAX && tseg2 <= UINT_MAX
  {
    if SptTried(tseg, tseg2) <= nominal then nominal - SptTried(tseg, tseg2) else UINT_MAX
  }

  /** The smaller error of the two turns. */
  function SptError(lim: Limits, nominal: nat, tseg: nat): nat
    requires Usable(lim) && InRange(lim, tseg) && nominal < 1000
  {
    var e0 := ErrorTried(nominal, tseg, Tried(lim, nominal, tseg, 0));
    var e1 := ErrorTried(nominal, tseg, Tried(lim, nominal, tseg, 1));
    if e1 < e0 then e1 else e0
  }

  /** One turn of can_update_spt(). */
  method Turn(lim: Limits, nominal: nat, tseg: nat, i: nat) returns (tseg1: nat, tseg2: nat, spt: nat)
    requires Usable(lim) && InRange(lim, tseg) && nominal < 1000 && i <= 1
    ensures tseg2 == Tried(lim, nominal, tseg, i) && tseg1 == Sub(tseg, tseg2) && spt == SptTried(tseg, tseg2)
  {
    tseg2 := Clamp(tseg + 1 - Early(nominal, tseg + 1) - i, lim.tseg2Min, lim.tseg2Max);
    tseg1 := Sub(tseg, tseg2);
    if tseg1 > lim.tseg1Max {
      tseg1 := lim.tseg1Max;
      tseg2 := Sub(tseg, tseg1);
    }
    spt := SptTried(tseg, tseg2);
  }

  /** can_update_spt(): when no turn fits, the segments keep their earlier values. */
  method UpdateSpt(lim: Limits, nominal: nat, tseg: nat, was1: nat, was2: nat)
    returns (spt: nat, tseg1: nat, tseg2: nat, error: nat)
    requires Usable(lim) && InRange(lim, tseg) && nominal < 1000
    ensures error == SptError(lim, nominal, tseg)
    ensures error == UINT_MAX ==> spt == 0 && tseg1 == was1 && tseg2 == was2
    ensures error != UINT_MAX ==> tseg2 in {Tried(lim, nominal, tseg, 0), Tried(lim, nominal, tseg, 1)}
    ensures error != UINT_MAX ==> tseg1 == Sub(tseg, tseg2) && spt == SptTried(tseg, tseg2) == nominal - error
  {
    ghost var t0, t1 := Tried(lim, nominal, tseg, 0), Tried(lim, nominal, tseg, 1);
    ghost var e0, e1 := ErrorTried(nominal, tseg, t0), ErrorTried(nominal, tseg, t1);
    spt, tseg1, tseg2, error := 0, was1, was2, UINT_MAX;
    for i := 0 to 2
      invariant error == if i == 0 then UINT_MAX else if i == 1 || e0 <= e1 then e0 else e1
      invariant error == UINT_MAX ==> spt == 0 && tseg1 == was1 && tseg2 == was2
      invariant error != UINT_MAX ==> tseg2 in {t0, t1}
      invariant error != UINT_MAX ==> tseg1 == Sub(tseg, tseg2) && spt == SptTried(tseg, tseg2) == nominal - error
    {
      var a, b, s := Turn(lim, nominal, tseg, i);
      if s <= nominal && nominal - s < error {
        spt, error, tseg1, tseg2 := s, nominal - s, a, b;
      }
    }
  }

  // ---- The sample point chosen is the best one ----

  lemma SptAntitone(tseg: nat, a: nat, b: nat)
    requires a <= b <= tseg + 1
    ensures Spt(tseg, b) <= Spt(tseg, a)
  {
    var n := tseg + 1;
    var x, y := 1000 * (n - b), 1000 * (n - a);
    assert x / n * n <= x <= y;
    DivAtLeast(y, n, x / n);
  }

  /** From this second segment on the sample point is not late. */
  lemma NotLate(nominal: nat, tseg: nat, t: nat)
    requires nominal < 1000 && tseg + 1 - Early(nominal, tseg + 1) <= t <= tseg + 1
    ensures Spt(tseg, t) <= nominal
  {
    var n := tseg + 1;
    assert 1000 * (n - t) <= nominal * n;
    DivAtMost(1000 * (n - t), n, nominal);
  }

  /** Before it the sample point is not early. */
  lemma NotEarly(nominal: nat, tseg: nat, t: nat)
    requires nominal < 1000 && t + 1 + Early(nominal, tseg + 1) <= tseg + 1
    ensures nominal <= Spt(tseg, t)
  {
    var n := tseg + 1;
    assert nominal * n <= 1000 * (n - t);
    DivAtLeast(1000 * (n - t), n, nominal);
  }

  /** The smallest legal second segment not below the wanted one, or the largest legal one. */
  lemma FitIsNearest(lim: Limits, tseg: nat, wanted: nat, t: nat)
    requires Usable(lim) && InRange(lim, tseg) && wanted <= tseg
    ensures Legal(lim, tseg, Fit(lim, tseg, wanted))
    ensures Legal(lim, tseg, t) && t < Fit(lim, tseg, wanted) ==> t < wanted
    ensures Legal(lim, tseg, t) && Fit(lim, tseg, wanted) < t ==> wanted < t
    ensures Legal(lim, tseg, wanted) ==> Fit(lim, tseg, wanted) == wanted
  {
  }

  /** The error of a sample point. */
  function ErrorOf(nominal: nat, spt: nat): nat {
    if spt <= nominal then nominal - spt else UINT_MAX
  }

  /**
   * The argument, from how the sample points of the two segments tried, b and
   * a, compare with that of t: it falls as the second segment grows and
   * crosses the nominal one where f quanta lie before it.
   */
  lemma BestOfTwo(lim: Limits, nominal: nat, tseg: nat, f: nat, t: nat, b: nat, a: nat, sptT: nat, sptB: nat, sptA: nat)
    requires Usable(lim) && InRange(lim, tseg) && f <= tseg && Legal(lim, tseg, t) && sptT <= nominal
    requires b == Fit(lim, tseg, tseg - f) && (f > 0 ==> a == Fit(lim, tseg, tseg + 1 - f))
    requires t <= b ==> sptB <= sptT
    requires (b + f <= tseg ==> nominal <= sptB) && (t + f <= tseg ==> nominal <= sptT)
    requires f > 0 && a <= t ==> sptT <= sptA
    requires f > 0 && tseg + 1 - f <= a ==> sptA <= nominal
    ensures ErrorOf(nominal, sptB) <= nominal - sptT || (f > 0 && ErrorOf(nominal, sptA) <= nominal - sptT)
  {
    FitIsNearest(lim, tseg, tseg - f, t);
    if f > 0 {
      FitIsNearest(lim, tseg, tseg + 1 - f, t);
    }
  }

  /** What a turn yields, when it asks for a segment within the bit. */
  lemma TurnError(lim: Limits, nominal: nat, tseg: nat, wanted: nat)
    requires Usable(lim) && InRange(lim, tseg) && wanted <= tseg
    ensures var r := Fit(lim, tseg, wanted);
      && r <= tseg && ErrorTried(nominal, tseg, r) == ErrorOf(nominal, Spt(tseg, r))
  {
    FitIsNearest(lim, tseg, wanted, 0);
  }

  lemma SptCompare(nominal: nat, tseg: nat, f: nat, x: nat, y: nat)
    requires nominal < 1000 && f == Early(nominal, tseg + 1) && x <= tseg && y <= tseg
    ensures x <= y ==> Spt(tseg, y) <= Spt(tseg, x)
    ensures x + f <= tseg ==> nominal <= Spt(tseg, x)
    ensures tseg + 1 - f <= x ==> Spt(tseg, x) <= nominal
  {
    if x <= y {
      SptAntitone(tseg, x, y);
    }
    if x + f <= tseg {
      NotEarly(nominal, tseg, x);
    } else {
      NotLate(nominal, tseg, x);
    }
  }

  /** The two turns. */
  lemma SptErrorIsSmaller(lim: Limits, nominal: nat, tseg: nat)
    requires Usable(lim) && InRange(lim, tseg) && nominal < 1000
    ensures SptError(lim, nominal, tseg) <= ErrorTried(nominal, tseg, Tried(lim, nominal, tseg, 0))
    ensures SptError(lim, nominal, tseg) <= ErrorTried(nominal, tseg, Tried(lim, nominal, tseg, 1))
  {
  }

  /** The error of either turn, compared with the error of t. */
  lemma TurnsCompare(lim: Limits, nominal: nat, tseg: nat, f: nat, t: nat, b: nat, a: nat)
    requires Usable(lim) && InRange(lim, tseg) && nominal < 1000 && f == Early(nominal, tseg + 1)
    requires Legal(lim, tseg, t) && Spt(tseg, t) <= nominal && b <= tseg && a <= tseg
    requires b == Fit(lim, tseg, tseg - f) && (f > 0 ==> a == Fit(lim, tseg, tseg + 1 - f))
    ensures ErrorOf(nominal, Spt(tseg, b)) <= nominal - Spt(tseg, t)
         || (f > 0 && ErrorOf(nominal, Spt(tseg, a)) <= nominal - Spt(tseg, t))
  {
    SptCompare(nominal, tseg, f, t, b);
    SptCompare(nominal, tseg, f, b, t);
    SptCompare(nominal, tseg, f, a, t);
    BestOfTwo(lim, nominal, tseg, f, t, b, a, Spt(tseg, t), Spt(tseg, b), Spt(tseg, a));
  }

  lemma FirstTurn(lim: Limits, nominal: nat, tseg: nat, f: nat, a: nat)
    requires Usable(lim) && InRange(lim, tseg) && nominal < 1000 && f == Early(nominal, tseg + 1)
    requires f > 0 && a == Fit(lim, tseg, tseg + 1 - f)
    ensures a <= tseg && SptError(lim, nominal, tseg) <= ErrorOf(nominal, Spt(tseg, a))
  {
    SptErrorIsSmaller(lim, nominal, tseg);
    TurnError(lim, nominal, tseg, tseg + 1 - f);
  }

  lemma SecondTurn(lim: Limits, nominal: nat, tseg: nat, f: nat, b: nat)
    requires Usable(lim) && InRange(lim, tseg) && nominal < 1000 && f == Early(nominal, tseg + 1)
    requires b == Fit(lim, tseg, tseg - f)
    ensures b <= tseg && SptError(lim, nominal, tseg) <= ErrorOf(nominal, Spt(tseg, b))
  {
    SptErrorIsSmaller(lim, nominal, tseg);
    TurnError(lim, nominal, tseg, tseg - f);
  }

  /** No legal second segment with a sample point that is not late has a smaller error. */
  lemma SptErrorMinimal(lim: Limits, nominal: nat, tseg: nat, t: nat)
    requires Usable(lim) && InRange(lim, tseg) && nominal < 1000
    requires Legal(lim, tseg, t) && Spt(tseg, t) <= nominal
    ensures SptError(lim, nominal, tseg) <= nominal - Spt(tseg, t)
  {
    var f := Early(nominal, tseg + 1);
    var b := Fit(lim, tseg, tseg - f);
    SecondTurn(lim, nominal, tseg, f, b);
    if f > 0 {
      var a := Fit(lim, tseg, tseg + 1 - f);
      FirstTurn(lim, nominal, tseg, f, a);
      TurnsCompare(lim, nominal, tseg, f, t, b, a);
    } else {
      TurnsCompare(lim, nominal, tseg, f, t, b, 0);
    }
  }

  /**
   * Unless the nominal sample point falls into the first quantum, the error is
   * that of a legal second segment, or no legal one has a sample point in time.
   */
  lemma SptErrorReached(lim: Limits, nominal: nat, tseg: nat) returns (t: nat)
    requires Usable(lim) && InRange(lim, tseg) && nominal < 1000
    requires Early(nominal, tseg + 1) > 0 && SptError(lim, nominal, tseg) != UINT_MAX
    ensures Legal(lim, tseg, t) && Spt(tseg, t) <= nominal && SptError(lim, nominal, tseg) == nominal - Spt(tseg, t)
    ensures t in {Tried(lim, nominal, tseg, 0), Tried(lim, nominal, tseg, 1)}
  {
    var e0 := TriedIsLegal(lim, nominal, tseg, 0);
    var e1 := TriedIsLegal(lim, nominal, tseg, 1);
    t := if e1 < e0 then Tried(lim, nominal, tseg, 1) else Tried(lim, nominal, tseg, 0);
  }

  lemma TriedIsLegal(lim: Limits, nominal: nat, tseg: nat, i: nat) returns (e: nat)
    requires Usable(lim) && InRange(lim, tseg) && nominal < 1000 && i <= 1 && Early(nominal, tseg + 1) > 0
    ensures var r := Tried(lim, nominal, tseg, i);
      && Legal(lim, tseg, r) && e == ErrorTried(nominal, tseg, r) == ErrorOf(nominal, Spt(tseg, r))
  {
    var wanted := tseg + 1 - Early(nominal, tseg + 1) - i;
    FitIsNearest(lim, tseg, wanted, 0);
    TurnError(lim, nominal, tseg, wanted);
    e := ErrorTried(nominal, tseg, Tried(lim, nominal, tseg, i));
  }

  // ---- The search ----

  /** What the search is asked for. */
  datatype Goal = Goal(freq: nat, bitrate: nat, nominal: nat)

  /** The products of the search fit 32 bits, and differences of rates their sign. */
  predicate NoWrap(lim: Limits, g: Goal) {
    && 0 < g.bitrate && g.freq < 0x8000_0000 && g.bitrate < 0x8000_0000 && 0 < g.nominal < 1000
    && (lim.tseg1Max + lim.tseg2Max + 1) * g.bitrate <= UINT_MAX
    && lim.brpMax * (lim.tseg1Max + lim.tseg2Max + 1) <= UINT_MAX
  }

  /** A number of quanta with rounding down (even) or up (odd) of the prescaler. */
  predicate Candidate(lim: Limits, t: nat) {
    2 * (lim.tseg1Min + lim.tseg2Min) <= t <= 2 * (lim.tseg1Max + lim.tseg2Max) + 1
  }

  /** The prescaler for a candidate, as a multiple of the step the hardware has. */
  function Brp(lim: Limits, g: Goal, t: nat): nat
    requires Usable(lim) && g.bitrate > 0
  {
    MulPositive(1 + t / 2, g.bitrate);
    RoundDown(g.freq / ((1 + t / 2) * g.bitrate) + t % 2, lim.brpInc)
  }

  function RoundDown(x: nat, inc: nat): nat
    requires inc > 0
  {
    MulOrder(0, x / inc + 1, inc);
    x / inc * inc
  }

  predicate Admissible(lim: Limits, g: Goal, t: nat)
    requires Usable(lim) && g.bitrate > 0
  {
    Candidate(lim, t) && lim.brpMin <= Brp(lim, g, t) <= lim.brpMax
  }

  function Distance(a: nat, b: nat): nat {
    if a >= b then a - b else b - a
  }

  /** The difference between the wanted bit rate and that of a prescaler and a number of quanta. */
  function RateError(freq: nat, bitrate: nat, brp: nat, quanta: nat): nat
    requires brp > 0 && quanta > 0
  {
    MulPositive(brp, quanta);
    Distance(bitrate, freq / (brp * quanta))
  }

  /** A candidate's bit rate error, and then its sample point error. */
  datatype Cost = Cost(rate: nat, spt: nat)

  predicate AtMost(a: Cost, b: Cost) {
    a.rate < b.rate || (a.rate == b.rate && a.spt <= b.spt)
  }

  function CostOf(lim: Limits, g: Goal, t: nat): Cost
    requires Usable(lim) && g.bitrate > 0 && g.nominal < 1000 && Admissible(lim, g, t)
  {
    Cost(RateError(g.freq, g.bitrate, Brp(lim, g, t), 1 + t / 2), SptError(lim, g.nominal, t / 2))
  }

  lemma MulPositive(a: nat, b: nat)
    requires a > 0 && b > 0
    ensures a * b > 0
  {
    MulOrder(0, a, b);
  }

  lemma QuotientSmaller(x: nat, n: nat)
    requires n > 0
    ensures x / n <= x
  {
    assert x <= x * n by {
      if x > 0 && n > 1 {
        MulOrder(1, n, x);
      }
    }
    DivAtMost(x, n, x);
  }

  lemma RateErrorFits(freq: nat, bitrate: nat, brp: nat, quanta: nat)
    requires brp > 0 && quanta > 0 && freq < UINT_MAX && bitrate < UINT_MAX
    ensures RateError(freq, bitrate, brp, quanta) < UINT_MAX
  {
    MulPositive(brp, quanta);
    QuotientSmaller(freq, brp * quanta);
  }

  /** The cost of a candidate that the search considers. */
  function Try(lim: Limits, g: Goal, t: nat): Option<Cost>
    requires Usable(lim) && g.bitrate > 0 && g.nominal < 1000
  {
    if Admissible(lim, g, t) then Some(CostOf(lim, g, t)) else None
  }

  lemma TryFits(lim: Limits, g: Goal, t: nat)
    requires Usable(lim) && 0 < g.bitrate < UINT_MAX && g.freq < UINT_MAX && g.nominal < 1000
    ensures var c := Try(lim, g, t);
      && (c.Some? ==> c.value.rate <= UINT_MAX && c.value.spt <= UINT_MAX && Candidate(lim, t))
  {
    if Admissible(lim, g, t) {
      RateErrorFits(g.freq, g.bitrate, Brp(lim, g, t), 1 + t / 2);
    }
  }

  // ---- The loop ----

  /** Costs that fit 32 bits, of candidates between lo and hi only. */
  ghost predicate Bounded(cost: nat -> Option<Cost>, lo: nat, hi: nat) {
    forall t: nat :: cost(t).Some? ==> lo <= t <= hi && cost(t).value.rate <= UINT_MAX && cost(t).value.spt <= UINT_MAX
  }

  /** c is no worse than the cost of any candidate from t on. */
  ghost predicate BestFrom(cost: nat -> Option<Cost>, from: nat, found: bool, c: Cost) {
    forall t: nat :: from <= t && cost(t).Some? ==> found && AtMost(c, cost(t).value)
  }

  /** Of all candidates with cost c: the largest if nothing can be better, else the smallest. */
  ghost predicate Preferred(cost: nat -> Option<Cost>, from: nat, best: nat, c: Cost) {
    forall t: nat :: from <= t && cost(t) == Some(c) ==> if c == Cost(0, 0) then t <= best else best <= t
  }

  /**
   * The loop of can_calc_bittiming() over any costs: despite its early end,
   * the result is lexicographically the best, and there is one whenever there
   * is a candidate. Of equally good ones it is the smallest, except that the
   * loop stops at the first one that has no error at all.
   */
  method SearchDown(lo: nat, hi: nat, cost: nat -> Option<Cost>) returns (found: bool, best: nat, c: Cost)
    requires 1 <= lo <= hi + 1 && Bounded(cost, lo, hi)
    ensures found ==> cost(best) == Some(c)
    ensures BestFrom(cost, 0, found, c) && (found ==> Preferred(cost, 0, best, c))
  {
    found, best, c := false, 0, Cost(UINT_MAX, UINT_MAX);
    var t := hi;
    while t >= lo
      invariant lo - 1 <= t <= hi
      invariant found ==> cost(best) == Some(c)
      invariant c.rate <= UINT_MAX && c.spt <= UINT_MAX && (!found ==> c == Cost(UINT_MAX, UINT_MAX))
      invariant BestFrom(cost, t + 1, found, c) && (found ==> c != Cost(0, 0) && Preferred(cost, t + 1, best, c))
    {
      var tried := cost(t);
      if tried.Some? && tried.value.rate <= c.rate {
        var bestSpt := if tried.value.rate < c.rate then UINT_MAX else c.spt;
        if tried.value.spt <= bestSpt {
          found, best, c := true, t, tried.value;
          if c.rate == 0 && c.spt == 0 { return; }
        }
      }
      t := t - 1;
    }
  }

  function Costs(lim: Limits, g: Goal): nat -> Option<Cost>
    requires Usable(lim) && g.bitrate > 0 && g.nominal < 1000
  {
    (t: nat) => Try(lim, g, t)
  }

  lemma CostsBounded(lim: Limits, g: Goal, lo: nat, hi: nat)
    requires Usable(lim) && 0 < g.bitrate < UINT_MAX && g.freq < UINT_MAX && g.nominal < 1000
    requires lo == 2 * (lim.tseg1Min + lim.tseg2Min) && hi == 2 * (lim.tseg1Max + lim.tseg2Max) + 1
    ensures Bounded(Costs(lim, g), lo, hi)
  {
    forall t: nat | Costs(lim, g)(t).Some?
      ensures lo <= t <= hi && Costs(lim, g)(t).value.rate <= UINT_MAX && Costs(lim, g)(t).value.spt <= UINT_MAX
    {
      TryFits(lim, g, t);
    }
  }

  lemma ProductIsMultiple(x: nat, inc: nat)
    requires inc > 0
    ensures x * inc % inc == 0
  {
    DivAtMost(x * inc, inc, x);
    DivAtLeast(x * inc, inc, x);
  }

  /** The prescaler respects its limits and the step of the hardware. */
  lemma BrpIsMultiple(lim: Limits, g: Goal, t: nat)
    requires Usable(lim) && g.bitrate > 0
    ensures Brp(lim, g, t) % lim.brpInc == 0
  {
    MulPositive(1 + t / 2, g.bitrate);
    RoundDownIsMultiple(g.freq / ((1 + t / 2) * g.bitrate) + t % 2, lim.brpInc);
  }

  lemma RoundDownIsMultiple(x: nat, inc: nat)
    requires inc > 0
    ensures RoundDown(x, inc) % inc == 0
  {
    ProductIsMultiple(x / inc, inc);
  }

  /** The candidate is admissible and has that cost. */
  ghost predicate Achieves(lim: Limits, g: Goal, t: nat, c: Cost)
    requires Usable(lim) && g.bitrate > 0 && g.nominal < 1000
  {
    Admissible(lim, g, t) && CostOf(lim, g, t) == c
  }

  /** Of equally good candidates it is the smallest, or the largest if there is no error at all. */
  ghost predicate Chosen(lim: Limits, g: Goal, best: nat, c: Cost)
    requires Usable(lim) && g.bitrate > 0 && g.nominal < 1000
  {
    forall t: nat :: Achieves(lim, g, t, c) ==> if c == Cost(0, 0) then t <= best else best <= t
  }

  lemma PreferredIsChosen(lim: Limits, g: Goal, best: nat, c: Cost)
    requires Usable(lim) && g.bitrate > 0 && g.nominal < 1000 && Preferred(Costs(lim, g), 0, best, c)
    ensures Chosen(lim, g, best, c)
  {
    forall t: nat | Achieves(lim, g, t, c) ensures if c == Cost(0, 0) then t <= best else best <= t {
      assert Costs(lim, g)(t) == Some(c);
    }
  }

  /**
   * can_calc_bittiming() up to its choice of quanta and prescaler: an
   * admissible candidate is found if there is one, and its bit rate error,
   * then its sample point error, is the smallest of all.
   */
  method Search(lim: Limits, g: Goal) returns (found: bool, best: nat, tseg: nat, brp: nat, c: Cost)
    requires Usable(lim) && NoWrap(lim, g)
    ensures found ==> Achieves(lim, g, best, c) && tseg == best / 2 && brp == Brp(lim, g, best)
    ensures forall t, d :: Achieves(lim, g, t, d) ==> found && AtMost(c, d)
    ensures found ==> Chosen(lim, g, best, c)
  {
    var lo, hi := 2 * (lim.tseg1Min + lim.tseg2Min), 2 * (lim.tseg1Max + lim.tseg2Max) + 1;
    CostsBounded(lim, g, lo, hi);
    var cost := Costs(lim, g);
    found, best, c := SearchDown(lo, hi, cost);
    tseg, brp := best / 2, Brp(lim, g, best);
    forall t, d | Achieves(lim, g, t, d) ensures found && AtMost(c, d) {
      assert cost(t) == Some(d);
    }
    if found {
      PreferredIsChosen(lim, g, best, c);
    }
  }
}
