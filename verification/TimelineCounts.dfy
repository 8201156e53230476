/** The diagnostic counters over the 96 quarter-hour cells of the operation timeline. */
module TimelineCounts {
  import opened Wrappers

  const CELLS := 96
  const FULL_CELL_S := 900

  /** One attribute array of the snapshot; it may be short or hold gaps. */
  type Column = seq<Option<nat>>

  datatype Snapshot = Snapshot(
    solarActual: Column, consumptionActual: Column, solarForecast: Column, consumptionForecast: Column,
    actualAction: Column, plannedAction: Column, actualContext: Column, plannedContext: Column,
    coverage: Column)

  function At(column: Column, i: nat): Option<nat> {
    if i < |column| then column[i] else None
  }

  function OrZero(value: Option<nat>): nat {
    if value.Some? then value.value else 0
  }

  predicate ActualPresent(s: Snapshot, i: nat) {
    || At(s.solarActual, i).Some? || At(s.consumptionActual, i).Some?
    || OrZero(At(s.actualAction, i)) != 0 || OrZero(At(s.actualContext, i)) != 0 || OrZero(At(s.coverage, i)) != 0
  }

  predicate PlannedPresent(s: Snapshot, i: nat) {
    || At(s.solarForecast, i).Some? || At(s.consumptionForecast, i).Some?
    || OrZero(At(s.plannedAction, i)) != 0 || OrZero(At(s.plannedContext, i)) != 0
  }

  function Count(flags: seq<bool>): (c: nat)
    ensures c <= |flags|
  {
    var n := |flags|;
    if n == 0 then 0 else Count(flags[..n - 1]) + (if flags[n - 1] then 1 else 0)
  }

  // ----------------------------------------------------------------------- masks

  predicate Bit(mask: nat, bit: nat)
    requires bit in {1, 2, 4}
  {
    mask / bit % 2 == 1
  }

  /** `a | b` */
  function BitOr(a: nat, b: nat): nat {
    if a == 0 then b
    else if b == 0 then a
    else 2 * BitOr(a / 2, b / 2) + (if a % 2 == 1 || b % 2 == 1 then 1 else 0)
  }

  lemma BitOrHalves(a: nat, b: nat)
    ensures BitOr(a, b) / 2 == BitOr(a / 2, b / 2)
    ensures BitOr(a, b) % 2 == 1 <==> a % 2 == 1 || b % 2 == 1
  {
  }

  /** Combining two masks sets an action bit exactly when one of them has it. */
  lemma BitOrBits(a: nat, b: nat, bit: nat)
    requires bit in {1, 2, 4}
    ensures Bit(BitOr(a, b), bit) <==> Bit(a, bit) || Bit(b, bit)
  {
    BitOrHalves(a, b);
    BitOrHalves(a / 2, b / 2);
    BitOrHalves(a / 4, b / 4);
    assert a / 2 / 2 == a / 4 && b / 2 / 2 == b / 4 && BitOr(a, b) / 2 / 2 == BitOr(a, b) / 4;
  }

  function BitCount(mask: nat): nat {
    (if Bit(mask, 1) then 1 else 0) + (if Bit(mask, 2) then 1 else 0) + (if Bit(mask, 4) then 1 else 0)
  }

  datatype ActionCounts = ActionCounts(solarCharge: nat, gridCharge: nat, discharge: nat, double: nat, triple: nat)

  function Prefix(masks: Column): nat {
    if |masks| < CELLS then |masks| else CELLS
  }

  function MaskAt(masks: Column, i: nat): nat { OrZero(At(masks, i)) }

  /** Which of the first 96 masks have the action bit. */
  function WithBit(masks: Column, bit: nat): (flags: seq<bool>)
    requires bit in {1, 2, 4}
    ensures |flags| == Prefix(masks)
  {
    seq(Prefix(masks), i requires 0 <= i < Prefix(masks) => Bit(MaskAt(masks, i), bit))
  }

  /** Which of the first 96 masks have exactly `bits` actions. */
  function WithActions(masks: Column, bits: nat): (flags: seq<bool>)
    ensures |flags| == Prefix(masks)
  {
    seq(Prefix(masks), i requires 0 <= i < Prefix(masks) => BitCount(MaskAt(masks, i)) == bits)
  }

  function CountsOf(masks: Column): ActionCounts {
    ActionCounts(Count(WithBit(masks, 1)), Count(WithBit(masks, 2)), Count(WithBit(masks, 4)),
                 Count(WithActions(masks, 2)), Count(WithActions(masks, 3)))
  }

  lemma CountNext(flags: seq<bool>, i: nat)
    requires i < |flags|
    ensures Count(flags[..i + 1]) == Count(flags[..i]) + (if flags[i] then 1 else 0)
  {
    assert flags[..i + 1][..i] == flags[..i];
  }

  /** The counters after the first `i` masks. */
  function CountsTo(masks: Column, i: nat): ActionCounts
    requires i <= Prefix(masks)
  {
    ActionCounts(Count(WithBit(masks, 1)[..i]), Count(WithBit(masks, 2)[..i]), Count(WithBit(masks, 4)[..i]),
                 Count(WithActions(masks, 2)[..i]), Count(WithActions(masks, 3)[..i]))
  }

  lemma CountsNext(masks: Column, i: nat)
    requires i < Prefix(masks)
    ensures var mask, c := MaskAt(masks, i), CountsTo(masks, i);
            CountsTo(masks, i + 1) == ActionCounts(
              c.solarCharge + One(Bit(mask, 1)), c.gridCharge + One(Bit(mask, 2)), c.discharge + One(Bit(mask, 4)),
              c.double + One(BitCount(mask) == 2), c.triple + One(BitCount(mask) == 3))
  {
    CountNext(WithBit(masks, 1), i);
    CountNext(WithBit(masks, 2), i);
    CountNext(WithBit(masks, 4), i);
    CountNext(WithActions(masks, 2), i);
    CountNext(WithActions(masks, 3), i);
  }

  lemma CountsAll(masks: Column)
    ensures CountsTo(masks, Prefix(masks)) == CountsOf(masks)
  {
    var n := Prefix(masks);
    assert WithBit(masks, 1)[..n] == WithBit(masks, 1) && WithBit(masks, 2)[..n] == WithBit(masks, 2);
    assert WithBit(masks, 4)[..n] == WithBit(masks, 4);
    assert WithActions(masks, 2)[..n] == WithActions(masks, 2) && WithActions(masks, 3)[..n] == WithActions(masks, 3);
  }

  method TimelineActionCounts(masks: Column) returns (c: ActionCounts)
    ensures c == CountsOf(masks)
  {
    var solar, grid, discharge, double, triple := 0, 0, 0, 0, 0;
    for i := 0 to Prefix(masks)
      invariant ActionCounts(solar, grid, discharge, double, triple) == CountsTo(masks, i)
    {
      CountsNext(masks, i);
      var mask := OrZero(masks[i]);
      var bits := BitCount(mask);
      if bits == 2 {
        double := double + 1;
      } else if bits >= 3 {
        triple := triple + 1;
      }
      if Bit(mask, 1) {
        solar := solar + 1;
      }
      if Bit(mask, 2) {
        grid := grid + 1;
      }
      if Bit(mask, 4) {
        discharge := discharge + 1;
      }
    }
    CountsAll(masks);
    c := ActionCounts(solar, grid, discharge, double, triple);
  }

  function One(flag: bool): nat { if flag then 1 else 0 }

  /** Flags that weigh the same cell by cell weigh the same in total. */
  lemma {:induction false} WeightedCounts(a: seq<bool>, b: seq<bool>, c: seq<bool>, x: seq<bool>, y: seq<bool>, z: seq<bool>)
    requires |a| == |b| == |c| == |x| == |y| == |z|
    requires forall i | 0 <= i < |a| :: One(a[i]) + One(b[i]) + One(c[i]) == One(x[i]) + 2 * One(y[i]) + 3 * One(z[i])
    ensures Count(a) + Count(b) + Count(c) == Count(x) + 2 * Count(y) + 3 * Count(z)
  {
    var n := |a|;
    if n > 0 {
      WeightedCounts(a[..n - 1], b[..n - 1], c[..n - 1], x[..n - 1], y[..n - 1], z[..n - 1]);
      assert One(a[n - 1]) + One(b[n - 1]) + One(c[n - 1]) == One(x[n - 1]) + 2 * One(y[n - 1]) + 3 * One(z[n - 1]);
    }
  }

  /** One cell: its actions, counted by bit and counted by overlap. */
  lemma OneCell(mask: nat)
    ensures One(Bit(mask, 1)) + One(Bit(mask, 2)) + One(Bit(mask, 4))
            == One(BitCount(mask) == 1) + 2 * One(BitCount(mask) == 2) + 3 * One(BitCount(mask) == 3)
  {
  }

  /** The per-action counts add up to the single cells, twice the double and three times the triple ones. */
  lemma ActionCountsAddUp(masks: Column)
    ensures var c := CountsOf(masks);
            c.solarCharge + c.gridCharge + c.discharge == Count(WithActions(masks, 1)) + 2 * c.double + 3 * c.triple
  {
    var a, b, c := WithBit(masks, 1), WithBit(masks, 2), WithBit(masks, 4);
    var x, y, z := WithActions(masks, 1), WithActions(masks, 2), WithActions(masks, 3);
    forall i | 0 <= i < |a| ensures One(a[i]) + One(b[i]) + One(c[i]) == One(x[i]) + 2 * One(y[i]) + 3 * One(z[i]) {
      OneCell(MaskAt(masks, i));
    }
    WeightedCounts(a, b, c, x, y, z);
  }

  /** A mask of the three actions is the sum of its bits: solar charge 1, grid charge 2, discharge 4. */
  lemma MaskOfBits(mask: nat)
    requires mask < 8
    ensures mask == One(Bit(mask, 1)) + 2 * One(Bit(mask, 2)) + 4 * One(Bit(mask, 4))
    ensures BitCount(mask) == One(Bit(mask, 1)) + One(Bit(mask, 2)) + One(Bit(mask, 4))
  {
  }

  /** Where the flags are set. */
  function Places(flags: seq<bool>): set<int> {
    set i | 0 <= i < |flags| && flags[i]
  }

  lemma {:induction false} CountIsSize(flags: seq<bool>)
    ensures Count(flags) == |Places(flags)|
  {
    var n := |flags|;
    if n > 0 {
      CountIsSize(flags[..n - 1]);
      assert Places(flags) == Places(flags[..n - 1]) + (if flags[n - 1] then {n - 1} else {});
    }
  }

  /** The cells of the day with this action, and with this many actions. */
  function CellsWith(masks: Column, bit: nat): set<int>
    requires bit in {1, 2, 4}
  {
    set i | 0 <= i < 96 && Bit(MaskAt(masks, i), bit)
  }

  function CellsOf(masks: Column, bits: nat): set<int> {
    set i | 0 <= i < 96 && BitCount(MaskAt(masks, i)) == bits
  }

  /** Cells 0 to 95 are counted, all of them and no others; a column that ends early has no actions behind its end. */
  lemma CountsExact(masks: Column)
    ensures CountsOf(masks) == ActionCounts(|CellsWith(masks, 1)|, |CellsWith(masks, 2)|, |CellsWith(masks, 4)|,
                                            |CellsOf(masks, 2)|, |CellsOf(masks, 3)|)
  {
    PlacesWithBit(masks, 1);
    PlacesWithBit(masks, 2);
    PlacesWithBit(masks, 4);
    PlacesWithActions(masks, 2);
    PlacesWithActions(masks, 3);
  }

  lemma PlacesWithBit(masks: Column, bit: nat)
    requires bit in {1, 2, 4}
    ensures Count(WithBit(masks, bit)) == |CellsWith(masks, bit)|
  {
    CountIsSize(WithBit(masks, bit));
    assert Places(WithBit(masks, bit)) == CellsWith(masks, bit);
  }

  lemma PlacesWithActions(masks: Column, bits: nat)
    requires bits > 0
    ensures Count(WithActions(masks, bits)) == |CellsOf(masks, bits)|
  {
    CountIsSize(WithActions(masks, bits));
    assert Places(WithActions(masks, bits)) == CellsOf(masks, bits);
  }

  // ----------------------------------------------------------------------- cells

  /** Which cells hold real data, planned data, or only partly covered real data. */
  function RealCells(s: Snapshot): (flags: seq<bool>)
    ensures |flags| == CELLS && forall i | 0 <= i < CELLS :: flags[i] == ActualPresent(s, i)
  {
    seq(CELLS, i requires 0 <= i < CELLS => ActualPresent(s, i))
  }

  function PlannedCells(s: Snapshot): (flags: seq<bool>)
    ensures |flags| == CELLS && forall i | 0 <= i < CELLS :: flags[i] == PlannedPresent(s, i)
  {
    seq(CELLS, i requires 0 <= i < CELLS => PlannedPresent(s, i))
  }

  predicate Partial(s: Snapshot, i: nat) {
    At(s.coverage, i).Some? && 0 < At(s.coverage, i).value < FULL_CELL_S
  }

  function PartialCells(s: Snapshot): (flags: seq<bool>)
    ensures |flags| == CELLS && forall i | 0 <= i < CELLS :: flags[i] == Partial(s, i)
  {
    seq(CELLS, i requires 0 <= i < CELLS => Partial(s, i))
  }

  function Both(a: seq<bool>, b: seq<bool>): (flags: seq<bool>)
    requires |a| == |b|
    ensures |flags| == |a| && forall i | 0 <= i < |a| :: flags[i] == (a[i] && b[i])
  {
    seq(|a|, i requires 0 <= i < |a| => a[i] && b[i])
  }

  function Either(a: seq<bool>, b: seq<bool>): (flags: seq<bool>)
    requires |a| == |b|
    ensures |flags| == |a| && forall i | 0 <= i < |a| :: flags[i] == (a[i] || b[i])
  {
    seq(|a|, i requires 0 <= i < |a| => a[i] || b[i])
  }

  function CombinedMask(s: Snapshot, i: nat): nat {
    BitOr(MaskAt(s.actualAction, i), MaskAt(s.plannedAction, i))
  }

  datatype CellCounts = CellCounts(realCells: nat, plannedCells: nat, partialCells: nat, combined: seq<nat>)

  /** How many of the first `i` cells are real, planned and partial. */
  predicate CountedTo(s: Snapshot, i: nat, realCells: nat, plannedCells: nat, partialCells: nat) {
    && i <= CELLS && realCells == Count(RealCells(s)[..i]) && plannedCells == Count(PlannedCells(s)[..i])
    && partialCells == Count(PartialCells(s)[..i])
  }

  lemma CountedNext(s: Snapshot, i: nat, realCells: nat, plannedCells: nat, partialCells: nat)
    requires CountedTo(s, i, realCells, plannedCells, partialCells) && i < CELLS
    ensures CountedTo(s, i + 1, realCells + One(ActualPresent(s, i)), plannedCells + One(PlannedPresent(s, i)),
                      partialCells + One(Partial(s, i)))
  {
    CountNext(RealCells(s), i);
    CountNext(PlannedCells(s), i);
    CountNext(PartialCells(s), i);
  }

  lemma CountedAll(s: Snapshot, realCells: nat, plannedCells: nat, partialCells: nat)
    requires CountedTo(s, CELLS, realCells, plannedCells, partialCells)
    ensures realCells == Count(RealCells(s)) && plannedCells == Count(PlannedCells(s)) && partialCells == Count(PartialCells(s))
  {
    assert RealCells(s)[..CELLS] == RealCells(s) && PlannedCells(s)[..CELLS] == PlannedCells(s);
    assert PartialCells(s)[..CELLS] == PartialCells(s);
  }

  /** The first pass counts what each cell holds. */
  method CountCells(s: Snapshot) returns (c: CellCounts)
    ensures c.realCells == Count(RealCells(s)) && c.plannedCells == Count(PlannedCells(s))
    ensures c.partialCells == Count(PartialCells(s))
    ensures |c.combined| == CELLS && forall i | 0 <= i < CELLS :: c.combined[i] == CombinedMask(s, i)
  {
    var realCells, plannedCells, partialCells := 0, 0, 0;
    var combined: seq<nat> := [];
    for i := 0 to CELLS
      invariant CountedTo(s, i, realCells, plannedCells, partialCells)
      invariant |combined| == i && forall k | 0 <= k < i :: combined[k] == CombinedMask(s, k)
    {
      CountedNext(s, i, realCells, plannedCells, partialCells);
      var actualValues := At(s.solarActual, i).Some? || At(s.consumptionActual, i).Some?;
      var plannedValues := At(s.solarForecast, i).Some? || At(s.consumptionForecast, i).Some?;
      var actualMask, plannedMask := MaskAt(s.actualAction, i), MaskAt(s.plannedAction, i);
      var coverage := At(s.coverage, i);
      if actualValues || actualMask != 0 || MaskAt(s.actualContext, i) != 0 || OrZero(coverage) != 0 {
        realCells := realCells + 1;
      }
      if plannedValues || plannedMask != 0 || MaskAt(s.plannedContext, i) != 0 {
        plannedCells := plannedCells + 1;
      }
      if coverage.Some? && 0 < coverage.value < FULL_CELL_S {
        partialCells := partialCells + 1;
      }
      combined := combined + [BitOr(actualMask, plannedMask)];
    }
    CountedAll(s, realCells, plannedCells, partialCells);
    c := CellCounts(realCells, plannedCells, partialCells, combined);
  }

  /** The second pass looks at the columns again and counts the cells that hold nothing. */
  method UnknownCells(s: Snapshot) returns (unknown: nat)
    ensures unknown + Count(Either(RealCells(s), PlannedCells(s))) == CELLS
  {
    ghost var flags := Either(RealCells(s), PlannedCells(s));
    var known := 0;
    for i := 0 to CELLS
      invariant known == Count(flags[..i])
    {
      CountNext(flags, i);
      if At(s.solarActual, i).Some? || At(s.consumptionActual, i).Some?
         || At(s.solarForecast, i).Some? || At(s.consumptionForecast, i).Some?
         || MaskAt(s.actualAction, i) != 0 || MaskAt(s.plannedAction, i) != 0
         || MaskAt(s.actualContext, i) != 0 || MaskAt(s.plannedContext, i) != 0
         || OrZero(At(s.coverage, i)) != 0 {
        known := known + 1;
      }
    }
    assert flags[..CELLS] == flags;
    unknown := if known < CELLS then CELLS - known else 0;
  }

  /** Two pairs of flags that balance cell by cell balance in total. */
  lemma {:induction false} BalancedCounts(a: seq<bool>, b: seq<bool>, x: seq<bool>, y: seq<bool>)
    requires |a| == |b| == |x| == |y| && forall i | 0 <= i < |a| :: One(a[i]) + One(b[i]) == One(x[i]) + One(y[i])
    ensures Count(a) + Count(b) == Count(x) + Count(y)
  {
    var n := |a|;
    if n > 0 {
      BalancedCounts(a[..n - 1], b[..n - 1], x[..n - 1], y[..n - 1]);
      assert One(a[n - 1]) + One(b[n - 1]) == One(x[n - 1]) + One(y[n - 1]);
    }
  }

  lemma {:induction false} CountMonotone(a: seq<bool>, b: seq<bool>)
    requires |a| == |b| && forall i | 0 <= i < |a| :: a[i] ==> b[i]
    ensures Count(a) <= Count(b)
  {
    var n := |a|;
    if n > 0 {
      CountMonotone(a[..n - 1], b[..n - 1]);
    }
  }

  /** Cells with either are those with one, those with the other, and shared ones once. */
  lemma InclusionExclusion(a: seq<bool>, b: seq<bool>)
    requires |a| == |b|
    ensures Count(a) + Count(b) == Count(Both(a, b)) + Count(Either(a, b))
    ensures Count(Both(a, b)) <= Count(a) && Count(Both(a, b)) <= Count(b)
  {
    BalancedCounts(a, b, Both(a, b), Either(a, b));
    CountMonotone(Both(a, b), a);
    CountMonotone(Both(a, b), b);
  }

  /** Which cells have an action bit in a per-cell mask. */
  function ActionCells(masks: seq<nat>, bit: nat): (flags: seq<bool>)
    requires bit in {1, 2, 4}
    ensures |flags| == |masks|
  {
    seq(|masks|, i requires 0 <= i < |masks| => Bit(masks[i], bit))
  }

  /** Per action, the combined masks count what the actual and the planned ones count, shared cells once. */
  lemma CombinedActions(actual: seq<nat>, planned: seq<nat>, combined: seq<nat>, bit: nat)
    requires bit in {1, 2, 4} && |actual| == |planned| == |combined|
    requires forall i | 0 <= i < |actual| :: combined[i] == BitOr(actual[i], planned[i])
    ensures Count(ActionCells(combined, bit)) + Count(Both(ActionCells(actual, bit), ActionCells(planned, bit)))
            == Count(ActionCells(actual, bit)) + Count(ActionCells(planned, bit))
  {
    forall i | 0 <= i < |actual| ensures Bit(combined[i], bit) <==> Bit(actual[i], bit) || Bit(planned[i], bit) {
      BitOrBits(actual[i], planned[i], bit);
    }
    assert ActionCells(combined, bit) == Either(ActionCells(actual, bit), ActionCells(planned, bit));
    InclusionExclusion(ActionCells(actual, bit), ActionCells(planned, bit));
  }

  /** Nothing at all is known about the cell exactly when no column shows a value there, or only a zero where zero means none. */
  lemma UnknownExact(s: Snapshot, i: nat)
    ensures !ActualPresent(s, i) && !PlannedPresent(s, i) <==>
            && (forall column | column in [s.solarActual, s.consumptionActual, s.solarForecast, s.consumptionForecast] ::
                  At(column, i) == None)
            && (forall column | column in [s.actualAction, s.plannedAction, s.actualContext, s.plannedContext, s.coverage] ::
                  At(column, i) in {None, Some(0)})
  {
    var values := [s.solarActual, s.consumptionActual, s.solarForecast, s.consumptionForecast];
    var masks := [s.actualAction, s.plannedAction, s.actualContext, s.plannedContext, s.coverage];
    assert values[0] in values && values[1] in values && values[2] in values && values[3] in values;
    assert masks[0] in masks && masks[1] in masks && masks[2] in masks && masks[3] in masks && masks[4] in masks;
  }

  /** The cells of the day with real, planned or only partly covered real data. */
  function RealPlaces(s: Snapshot): set<int> {
    set i | 0 <= i < 96 && ActualPresent(s, i)
  }

  function PlannedPlaces(s: Snapshot): set<int> {
    set i | 0 <= i < 96 && PlannedPresent(s, i)
  }

  function PartialPlaces(s: Snapshot): set<int> {
    set i | 0 <= i < 96 && At(s.coverage, i).Some? && 0 < At(s.coverage, i).value < 900
  }

  lemma PlacesCounted(s: Snapshot)
    ensures Count(RealCells(s)) == |RealPlaces(s)| && Count(PlannedCells(s)) == |PlannedPlaces(s)|
    ensures Count(PartialCells(s)) == |PartialPlaces(s)|
  {
    CountIsSize(RealCells(s));
    CountIsSize(PlannedCells(s));
    CountIsSize(PartialCells(s));
    assert Places(RealCells(s)) == RealPlaces(s);
    assert Places(PlannedCells(s)) == PlannedPlaces(s);
    assert Places(PartialCells(s)) == PartialPlaces(s);
  }

  lemma KnownCells(s: Snapshot)
    ensures Count(Either(RealCells(s), PlannedCells(s))) == CELLS <==>
            forall i | 0 <= i < CELLS :: ActualPresent(s, i) || PlannedPresent(s, i)
    ensures Count(PartialCells(s)) <= Count(RealCells(s))
  {
    AllCounted(Either(RealCells(s), PlannedCells(s)));
    CountMonotone(PartialCells(s), RealCells(s));
  }

  /** The two passes count one partition: both, only real, only planned and unknown cells are all 96. */
  method SummariseCells(s: Snapshot) returns (c: CellCounts, unknown: nat)
    ensures var both := Count(Both(RealCells(s), PlannedCells(s)));
            both + (c.realCells - both) + (c.plannedCells - both) + unknown == CELLS
            && both <= c.realCells && both <= c.plannedCells
    ensures c.realCells == |RealPlaces(s)| && c.plannedCells == |PlannedPlaces(s)|
    ensures c.partialCells == |PartialPlaces(s)| && c.partialCells <= c.realCells
    ensures |c.combined| == CELLS && forall i | 0 <= i < CELLS :: c.combined[i] == CombinedMask(s, i)
    ensures unknown == 0 <==> forall i | 0 <= i < CELLS :: ActualPresent(s, i) || PlannedPresent(s, i)
  {
    c := CountCells(s);
    unknown := UnknownCells(s);
    PlacesCounted(s);
    InclusionExclusion(RealCells(s), PlannedCells(s));
    KnownCells(s);
  }

  lemma {:induction false} AllCounted(flags: seq<bool>)
    ensures Count(flags) == |flags| <==> forall i | 0 <= i < |flags| :: flags[i]
  {
    var n := |flags|;
    if n > 0 {
      AllCounted(flags[..n - 1]);
    }
  }
}
