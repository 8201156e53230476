/** Prorating dated forecast periods over a horizon. */
module SolarHorizon {
  import opened Sequences

  /** A dated period that passed construction: positive duration, non-negative energy. */
  datatype RawPeriod = Period(start: real, end: real, energyKwh: real)
  type Period = p: RawPeriod | p.start < p.end && p.energyKwh >= 0.0 witness RawPeriod.Period(0.0, 1.0, 0.0)

  function Max(a: real, b: real): real { if a < b then b else a }
  function Min(a: real, b: real): real { if a < b then a else b }

  /** The part of the period inside `[a, b]`. */
  function Overlap(p: Period, a: real, b: real): real {
    Max(0.0, Min(b, p.end) - Max(a, p.start))
  }

  function Prorated(energy: real, part: real, whole: real): real
    requires whole > 0.0
  {
    energy * part / whole
  }

  function Share(p: Period, a: real, b: real): real {
    Prorated(p.energyKwh, Overlap(p, a, b), p.end - p.start)
  }

  function SumOfShares(periods: seq<Period>, a: real, b: real): real {
    var n := |periods|;
    if n == 0 then 0.0 else SumOfShares(periods[..n - 1], a, b) + Share(periods[n - 1], a, b)
  }

  /** The energy of the horizon `[a, b]`; an empty or reversed horizon has none. */
  function EnergyBetween(periods: seq<Period>, a: real, b: real): real {
    if b <= a then 0.0 else SumOfShares(periods, a, b)
  }

  function TotalEnergy(periods: seq<Period>): real {
    var n := |periods|;
    if n == 0 then 0.0 else TotalEnergy(periods[..n - 1]) + periods[n - 1].energyKwh
  }

  method PeriodEnergyBetween(periods: seq<Period>, a: real, b: real) returns (energy: real)
    ensures energy == EnergyBetween(periods, a, b)
  {
    if b <= a {
      return 0.0;
    }
    energy := 0.0;
    for i := 0 to |periods|
      invariant energy == SumOfShares(periods[..i], a, b)
    {
      assert periods[..i + 1][..i] == periods[..i];
      var overlap := Max(0.0, Min(b, periods[i].end) - Max(a, periods[i].start));
      if overlap > 0.0 {
        energy := energy + Prorated(periods[i].energyKwh, overlap, periods[i].end - periods[i].start);
      } else {
        ShareBounds(periods[i], a, b);
      }
    }
    assert periods[..|periods|] == periods;
    SharesBounds(periods, a, b);
    energy := Max(0.0, energy);
  }

  // ---------------------------------------------------------- one period's share

  lemma ProratedMonotone(energy: real, part: real, more: real, whole: real)
    requires energy >= 0.0 && whole > 0.0 && part <= more
    ensures Prorated(energy, part, whole) <= Prorated(energy, more, whole)
  {
    assert energy * (more - part) >= 0.0;
    assert energy * part <= energy * more;
    DivideMonotone(energy * part, energy * more, whole);
  }

  lemma DivideMonotone(x: real, y: real, whole: real)
    requires whole > 0.0 && x <= y
    ensures x / whole <= y / whole
  {
  }

  lemma ProratedEnds(energy: real, whole: real)
    requires whole > 0.0
    ensures Prorated(energy, 0.0, whole) == 0.0 && Prorated(energy, whole, whole) == energy
  {
    assert energy * 0.0 == 0.0;
    assert energy * whole / whole == energy;
  }

  lemma ProratedAdds(energy: real, part: real, other: real, whole: real)
    requires whole > 0.0
    ensures Prorated(energy, part, whole) + Prorated(energy, other, whole) == Prorated(energy, part + other, whole)
  {
    assert energy * (part + other) == energy * part + energy * other;
  }

  /** Prorating twice is prorating once: the inner duration cancels. */
  lemma ProratedTwice(energy: real, part: real, inner: real, whole: real)
    requires whole > 0.0 && inner > 0.0
    ensures Prorated(Prorated(energy, inner, whole), part, inner) == Prorated(energy, part, whole)
  {
    var rate := energy / whole;
    assert Prorated(energy, inner, whole) == rate * inner;
    assert rate * inner * part == rate * part * inner;
    assert rate * part * inner / inner == rate * part;
  }

  /** A share lies between nothing and the whole period, and reaches the whole when the horizon covers it. */
  lemma ShareBounds(p: Period, a: real, b: real)
    ensures 0.0 <= Share(p, a, b) <= p.energyKwh
    ensures Overlap(p, a, b) == 0.0 ==> Share(p, a, b) == 0.0
    ensures a <= p.start && p.end <= b ==> Share(p, a, b) == p.energyKwh
  {
    var whole := p.end - p.start;
    ProratedEnds(p.energyKwh, whole);
    ProratedMonotone(p.energyKwh, 0.0, Overlap(p, a, b), whole);
    ProratedMonotone(p.energyKwh, Overlap(p, a, b), whole, whole);
  }

  lemma ShareAdds(p: Period, a: real, b: real, c: real)
    requires a <= b <= c
    ensures Share(p, a, b) + Share(p, b, c) == Share(p, a, c)
  {
    assert Overlap(p, a, b) + Overlap(p, b, c) == Overlap(p, a, c);
    ProratedAdds(p.energyKwh, Overlap(p, a, b), Overlap(p, b, c), p.end - p.start);
  }

  // ------------------------------------------------------------------ the horizon

  lemma {:induction false} SharesBounds(periods: seq<Period>, a: real, b: real)
    ensures 0.0 <= SumOfShares(periods, a, b) <= TotalEnergy(periods)
  {
    var n := |periods|;
    if n > 0 {
      SharesBounds(periods[..n - 1], a, b);
      ShareBounds(periods[n - 1], a, b);
    }
  }

  /** The horizon energy lies between nothing and the summed period energy. */
  lemma HorizonBounds(periods: seq<Period>, a: real, b: real)
    ensures 0.0 <= EnergyBetween(periods, a, b) <= TotalEnergy(periods)
  {
    SharesBounds(periods, a, b);
  }

  /** A horizon that covers every period holds all their energy. */
  lemma {:induction false} CoveringHorizon(periods: seq<Period>, a: real, b: real)
    requires forall i :: 0 <= i < |periods| ==> a <= periods[i].start && periods[i].end <= b
    ensures EnergyBetween(periods, a, b) == TotalEnergy(periods)
  {
    var n := |periods|;
    if n > 0 {
      CoveringHorizon(periods[..n - 1], a, b);
      ShareBounds(periods[n - 1], a, b);
      assert a < b;
    }
  }

  lemma {:induction false} SharesAdd(periods: seq<Period>, a: real, b: real, c: real)
    requires a <= b <= c
    ensures SumOfShares(periods, a, b) + SumOfShares(periods, b, c) == SumOfShares(periods, a, c)
  {
    var n := |periods|;
    if n > 0 {
      SharesAdd(periods[..n - 1], a, b, c);
      ShareAdds(periods[n - 1], a, b, c);
    }
  }

  lemma {:induction false} EmptyHorizon(periods: seq<Period>, a: real)
    ensures SumOfShares(periods, a, a) == 0.0
  {
    var n := |periods|;
    if n > 0 {
      EmptyHorizon(periods[..n - 1], a);
      ShareBounds(periods[n - 1], a, a);
    }
  }

  /** Splitting a horizon splits its energy. */
  lemma HorizonAdditive(periods: seq<Period>, a: real, b: real, c: real)
    requires a <= b <= c
    ensures EnergyBetween(periods, a, b) + EnergyBetween(periods, b, c) == EnergyBetween(periods, a, c)
  {
    SharesAdd(periods, a, b, c);
    EmptyHorizon(periods, a);
    EmptyHorizon(periods, c);
  }

  lemma {:induction false} SharesConcat(first: seq<Period>, second: seq<Period>, a: real, b: real)
    ensures SumOfShares(first + second, a, b) == SumOfShares(first, a, b) + SumOfShares(second, a, b)
  {
    var n := |second|;
    if n == 0 {
      assert first + second == first;
    } else {
      assert (first + second)[..|first + second| - 1] == first + second[..n - 1];
      SharesConcat(first, second[..n - 1], a, b);
    }
  }

  lemma SingleShare(p: Period, a: real, b: real)
    ensures SumOfShares([p], a, b) == Share(p, a, b)
  {
    assert [p][..0] == [];
  }

  lemma InsertedShare(front: seq<Period>, p: Period, back: seq<Period>, a: real, b: real)
    ensures SumOfShares(front + [p] + back, a, b) == SumOfShares(front + back, a, b) + Share(p, a, b)
  {
    SharesConcat(front, back, a, b);
    SharesConcat(front + [p], back, a, b);
    SharesConcat(front, [p], a, b);
    SingleShare(p, a, b);
  }

  /** The order of the periods does not matter. */
  lemma {:induction false} OrderIrrelevant(periods: seq<Period>, shuffled: seq<Period>, a: real, b: real)
    requires multiset(periods) == multiset(shuffled)
    ensures EnergyBetween(periods, a, b) == EnergyBetween(shuffled, a, b)
    decreases |periods|
  {
    if periods == [] {
      assert |multiset(shuffled)| == 0;
    } else {
      var n := |periods|;
      var front, back := Find(periods, shuffled);
      OrderIrrelevant(periods[..n - 1], front + back, a, b);
      InsertedShare(front, periods[n - 1], back, a, b);
    }
  }

  // --------------------------------------------------- in proportion to duration

  /** The instant of the period nearest to `t`. */
  function Clamped(p: Period, t: real): real {
    if t < p.start then p.start else if t > p.end then p.end else t
  }

  lemma ProratedProduct(energy: real, part: real, whole: real)
    requires whole > 0.0
    ensures Prorated(energy, part, whole) * whole == energy * part
  {
  }

  /**
   * Of one period a horizon holds the energy in proportion to the time that lies
   * between its two ends, each moved to the nearest instant of the period.
   */
  lemma HorizonIsProportional(p: Period, a: real, b: real)
    requires a <= b
    ensures EnergyBetween([p], a, b) * (p.end - p.start) == p.energyKwh * (Clamped(p, b) - Clamped(p, a))
  {
    SingleShare(p, a, b);
    ShareBounds(p, a, b);
    assert a < b ==> Overlap(p, a, b) == Clamped(p, b) - Clamped(p, a);
    ProratedProduct(p.energyKwh, Overlap(p, a, b), p.end - p.start);
  }

  /** So of a running period exactly the running part counts, and nothing outside it. */
  lemma RunningPeriod(p: Period, a: real, b: real)
    requires a <= b
    ensures p.start <= a && b <= p.end ==> EnergyBetween([p], a, b) * (p.end - p.start) == p.energyKwh * (b - a)
    ensures b <= p.start || p.end <= a ==> EnergyBetween([p], a, b) == 0.0
  {
    HorizonIsProportional(p, a, b);
    SingleShare(p, a, b);
    ShareBounds(p, a, b);
  }

  /** Several periods add up, so one period's law is the law of all. */
  lemma PeriodsAdd(first: seq<Period>, second: seq<Period>, a: real, b: real)
    ensures EnergyBetween(first + second, a, b) == EnergyBetween(first, a, b) + EnergyBetween(second, a, b)
  {
    SharesConcat(first, second, a, b);
  }

  /** `piece` has its share of the energy of `p`, in proportion to duration. */
  predicate PieceOf(p: Period, piece: Period) {
    piece.energyKwh == p.energyKwh * (piece.end - piece.start) / (p.end - p.start)
  }

  /** `first` and `second` are `p` cut at `m`, each with its share of the energy. */
  predicate CutAt(p: Period, m: real, first: Period, second: Period) {
    && first.start == p.start && first.end == second.start == m && second.end == p.end
    && PieceOf(p, first) && PieceOf(p, second)
  }

  /** Of a piece cut out of `p` a horizon holds what it holds of `p` there. */
  lemma PieceShare(p: Period, piece: Period, a: real, b: real)
    requires PieceOf(p, piece)
    ensures Share(piece, a, b) == Prorated(p.energyKwh, Overlap(piece, a, b), p.end - p.start)
  {
    ProratedTwice(p.energyKwh, Overlap(piece, a, b), piece.end - piece.start, p.end - p.start);
  }

  lemma HalvesOverlap(p: Period, m: real, first: Period, second: Period, a: real, b: real)
    requires first.start == p.start && first.end == second.start == m && second.end == p.end && a < b
    ensures Overlap(first, a, b) + Overlap(second, a, b) == Overlap(p, a, b)
  {
  }

  lemma HalvesShare(p: Period, m: real, first: Period, second: Period, a: real, b: real)
    requires CutAt(p, m, first, second) && a < b
    ensures Share(first, a, b) + Share(second, a, b) == Share(p, a, b)
  {
    PieceShare(p, first, a, b);
    PieceShare(p, second, a, b);
    HalvesOverlap(p, m, first, second, a, b);
    ProratedAdds(p.energyKwh, Overlap(first, a, b), Overlap(second, a, b), p.end - p.start);
  }

  /** Periods with the same share may stand for each other in any list. */
  lemma SharesReplace(before: seq<Period>, first: Period, second: Period, p: Period, after: seq<Period>, a: real, b: real)
    requires Share(first, a, b) + Share(second, a, b) == Share(p, a, b)
    ensures SumOfShares(before + [first, second] + after, a, b) == SumOfShares(before + [p] + after, a, b)
  {
    assert [first, second] == [first] + [second];
    SharesConcat([first], [second], a, b);
    SingleShare(first, a, b);
    SingleShare(second, a, b);
    SingleShare(p, a, b);
    SharesConcat(before, [first, second], a, b);
    SharesConcat(before + [first, second], after, a, b);
    SharesConcat(before, [p], a, b);
    SharesConcat(before + [p], after, a, b);
  }

  /** Reporting a period as two halves, with energies in proportion to duration, changes no horizon. */
  lemma SplitIrrelevant(before: seq<Period>, p: Period, first: Period, second: Period, after: seq<Period>,
                        m: real, a: real, b: real)
    requires CutAt(p, m, first, second)
    ensures EnergyBetween(before + [first, second] + after, a, b) == EnergyBetween(before + [p] + after, a, b)
  {
    if a < b {
      HalvesShare(p, m, first, second, a, b);
      SharesReplace(before, first, second, p, after, a, b);
    }
  }
}
