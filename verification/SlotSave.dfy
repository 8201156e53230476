/**
 * Merging both form pages into the stored slot, and what saving the form
 * unchanged does to a slot that is already stored.
 */
module SlotSave {
  import opened Wrappers
  import opened TimeSlots
  import opened SlotForm

  const SOC_MIN_FLOOR := 12
  const SOC_MIN_CEILING := 30
  const SOC_MAX_FLOOR := 80
  const SOC_MAX_CEILING := 100
  const POWER_FLOOR := 100
  const ALL_WEEKDAYS := [Mon, Tue, Wed, Thu, Fri, Sat, Sun]

  /** The battery settings that seed the form; 0 stands for a missing value. */
  datatype Battery = Battery(
    minSoc: int, maxSoc: int, maxCharge: int, maxDischarge: int,
    hardwareCharge: int, hardwareDischarge: int)

  // -------------------------------------------------------------------- merging

  function EnabledFields(soc: bool, power: bool): set<string> {
    (if soc then {SOC_MIN, SOC_MAX} else {}) + (if power then {MAX_CHARGE, MAX_DISCHARGE} else {})
  }

  /** Only the fields whose override is ticked. */
  function KeepEnabled(limits: Limits, soc: bool, power: bool): Limits {
    map f | f in limits && f in EnabledFields(soc, power) :: limits[f]
  }

  /** Rows that keep at least one field. */
  function Stripped(parsed: map<string, Limits>, soc: bool, power: bool): map<string, Limits> {
    map b | b in parsed && KeepEnabled(parsed[b], soc, power) != map[] :: KeepEnabled(parsed[b], soc, power)
  }

  /** The four keys that say "this is still the same schedule". */
  predicate SameSchedule(a: StepA, b: StepA) {
    a.startTime == b.startTime && a.endTime == b.endTime && a.days == b.days && a.batteryScope == b.batteryScope
  }

  function Finalized(a: StepA, stepB: Option<StepB>, existing: Option<Slot>): Slot {
    var parsed := if (a.socOverride || a.powerOverride) && stepB.Some? then ParsedLimits(stepB.value) else map[];
    var kept := if existing.Some? && SameSchedule(existing.value.form, a) then existing.value.hidden else map[];
    Slot(a, Stripped(parsed, a.socOverride, a.powerOverride),
         if ENABLED in kept then kept else kept[ENABLED := JsonBool(true)])
  }

  method StripDisabled(parsed: map<string, Limits>, soc: bool, power: bool) returns (out: map<string, Limits>)
    ensures out == Stripped(parsed, soc, power)
  {
    out := map[];
    var left := parsed.Keys;
    while left != {}
      invariant left <= parsed.Keys
      invariant forall b :: b in out <==> b in parsed && b !in left && KeepEnabled(parsed[b], soc, power) != map[]
      invariant forall b | b in out :: out[b] == KeepEnabled(parsed[b], soc, power)
    {
      var b :| b in left;
      var entry := KeepEnabled(parsed[b], soc, power);
      if entry != map[] {
        out := out[b := entry];
      }
      left := left - {b};
    }
  }

  method FinalizeSlot(a: StepA, stepB: Option<StepB>, existing: Option<Slot>) returns (slot: Slot)
    ensures slot == Finalized(a, stepB, existing)
  {
    var parsed: map<string, Limits> := map[];
    if (a.socOverride || a.powerOverride) && stepB.Some? {
      parsed := ParseStepB(stepB.value);
    }
    var limits := StripDisabled(parsed, a.socOverride, a.powerOverride);
    var hidden: map<string, Json> := map[];
    if existing.Some? && SameSchedule(existing.value.form, a) {
      hidden := existing.value.hidden;
    }
    if ENABLED !in hidden {
      hidden := hidden[ENABLED := JsonBool(true)];
    }
    slot := Slot(a, limits, hidden);
  }

  /**
   * A stored slot leaves no trace in the one that replaces it exactly when that
   * one has another start, end, day list or scope, or there is nothing to
   * inherit; without a trace it starts enabled.
   */
  lemma MovedSlotStartsEnabled(a: StepA, stepB: Option<StepB>, existing: Slot)
    ensures var was := existing.form;
            Finalized(a, stepB, Some(existing)) == Finalized(a, stepB, None) <==>
            || was.startTime != a.startTime || was.endTime != a.endTime || was.days != a.days || was.batteryScope != a.batteryScope
            || existing.hidden == map[] || existing.hidden == map[ENABLED := JsonBool(true)]
    ensures Finalized(a, stepB, None).hidden == map[ENABLED := JsonBool(true)]
  {
    if ENABLED !in existing.hidden && existing.hidden != map[] {
      var k :| k in existing.hidden;
      assert k in existing.hidden[ENABLED := JsonBool(true)] && k !in map[ENABLED := JsonBool(true)];
    }
  }

  /** A slot that stays where it is keeps every hidden key with its value, and gains at most the enabled flag. */
  lemma HiddenKeysKept(a: StepA, stepB: Option<StepB>, existing: Slot, key: string)
    requires existing.form.startTime == a.startTime && existing.form.endTime == a.endTime
    requires existing.form.days == a.days && existing.form.batteryScope == a.batteryScope
    ensures var hidden := Finalized(a, stepB, Some(existing)).hidden;
            && (key in existing.hidden ==> key in hidden && hidden[key] == existing.hidden[key])
            && (key !in existing.hidden && key in hidden ==> key == ENABLED && hidden[key] == JsonBool(true))
            && ENABLED in hidden
  {
  }

  /** Merging is settled after one pass: merging the same pages over the result, whatever it replaced, changes nothing. */
  lemma MergeIsFixedPoint(a: StepA, stepB: Option<StepB>, existing: Option<Slot>)
    ensures Finalized(a, stepB, Some(Finalized(a, stepB, existing))) == Finalized(a, stepB, existing)
  {
  }

  // -------------------------------------------------------------- form defaults

  function Clamp(value: int, low: int, high: int): int {
    var capped := if value < high then value else high;
    if capped > low then capped else low
  }

  /** `a or b` on numbers. */
  function OrElse(a: int, b: int): int { if a != 0 then a else b }

  function Prior(limits: Limits, field: string): int {
    if field in limits then limits[field] else 0
  }

  /** The values the second page opens with for one battery. */
  function DefaultFields(prior: Limits, battery: Battery, soc: bool, power: bool): Limits {
    (if soc then map[
      SOC_MIN := Clamp(OrElse(Prior(prior, SOC_MIN), OrElse(battery.minSoc, SOC_MIN_FLOOR)), SOC_MIN_FLOOR, SOC_MIN_CEILING),
      SOC_MAX := Clamp(OrElse(Prior(prior, SOC_MAX), OrElse(battery.maxSoc, SOC_MAX_CEILING)), SOC_MAX_FLOOR, SOC_MAX_CEILING)]
     else map[]) +
    (if power then map[
      MAX_CHARGE := Clamp(OrElse(Prior(prior, MAX_CHARGE), OrElse(battery.maxCharge, battery.hardwareCharge)), POWER_FLOOR, battery.hardwareCharge),
      MAX_DISCHARGE := Clamp(OrElse(Prior(prior, MAX_DISCHARGE), OrElse(battery.maxDischarge, battery.hardwareDischarge)), POWER_FLOOR, battery.hardwareDischarge)]
     else map[])
  }

  function PriorLimits(slot: Slot, i: nat): Limits {
    if ScopeName(i) in slot.batteryLimits then slot.batteryLimits[ScopeName(i)] else map[]
  }

  /** The values the first page opens with. */
  function DefaultForm(a: StepA, batteries: nat): StepA {
    a.(startTime := if a.startTime == "" then "00:00:00" else a.startTime,
       endTime := if a.endTime == "" then "00:00:00" else a.endTime,
       days := if a.days == [] then ALL_WEEKDAYS else a.days,
       batteryScope := if InScopeOptions(a.batteryScope, batteries) then a.batteryScope else SCOPE_ALL)
  }

  /** The second page lists exactly the batteries the submitted first page targets. */
  function DefaultLimits(a: StepA, slot: Slot, batteries: seq<Battery>): map<nat, Limits> {
    map i: nat | i < |batteries| && i in SlotTargetIndices(a.batteryScope, |batteries|) ::
      DefaultFields(PriorLimits(slot, i), batteries[i], a.socOverride, a.powerOverride)
  }

  function DefaultStepB(a: StepA, slot: Slot, batteries: seq<Battery>): Option<StepB> {
    if a.socOverride || a.powerOverride then Some(Encode(DefaultLimits(a, slot, batteries))) else None
  }

  /** Submitting both pages as they open for a stored slot. */
  function Resaved(slot: Slot, batteries: seq<Battery>): Slot {
    var a := DefaultForm(slot.form, |batteries|);
    Finalized(a, DefaultStepB(a, slot, batteries), Some(slot))
  }

  // ---------------------------------------------------- saving without a change

  function Max(a: int, b: int): int { if a < b then b else a }

  /** A row with exactly the ticked fields, each inside its slider range. */
  predicate InRange(limits: Limits, battery: Battery, soc: bool, power: bool) {
    && limits.Keys == EnabledFields(soc, power)
    && (soc ==> SOC_MIN_FLOOR <= limits[SOC_MIN] <= SOC_MIN_CEILING && SOC_MAX_FLOOR <= limits[SOC_MAX] <= SOC_MAX_CEILING)
    && (power ==> POWER_FLOOR <= limits[MAX_CHARGE] <= Max(POWER_FLOOR, battery.hardwareCharge)
                  && POWER_FLOOR <= limits[MAX_DISCHARGE] <= Max(POWER_FLOOR, battery.hardwareDischarge))
  }

  /** Rows for exactly the targeted batteries, each in range. */
  ghost predicate LimitsInRange(slot: Slot, batteries: seq<Battery>) {
    var targets := SlotTargetIndices(slot.form.batteryScope, |batteries|);
    if slot.form.socOverride || slot.form.powerOverride then
      && (forall b | b in slot.batteryLimits :: exists i: nat | i < |batteries| && i in targets :: b == ScopeName(i))
      && (forall i: nat | i < |batteries| && i in targets ::
            ScopeName(i) in slot.batteryLimits
            && InRange(slot.batteryLimits[ScopeName(i)], batteries[i], slot.form.socOverride, slot.form.powerOverride))
    else slot.batteryLimits == map[]
  }

  /** What a stored slot must look like for an unchanged save to keep it. */
  ghost predicate Resavable(slot: Slot, batteries: seq<Battery>) {
    && slot.form.startTime != "" && slot.form.endTime != "" && slot.form.days != []
    && InScopeOptions(slot.form.batteryScope, |batteries|)
    && ENABLED in slot.hidden
    && LimitsInRange(slot, batteries)
  }

  lemma FieldNamesDistinct()
    ensures SOC_MIN != SOC_MAX && SOC_MIN != MAX_CHARGE && SOC_MIN != MAX_DISCHARGE
    ensures SOC_MAX != MAX_CHARGE && SOC_MAX != MAX_DISCHARGE && MAX_CHARGE != MAX_DISCHARGE
  {
    assert SOC_MIN[5] != SOC_MAX[5];
    assert |SOC_MIN| == |SOC_MAX| == 7 && |MAX_CHARGE| == 18 && |MAX_DISCHARGE| == 21;
  }

  lemma DefaultFieldsInRange(prior: Limits, battery: Battery, soc: bool, power: bool)
    ensures var row := DefaultFields(prior, battery, soc, power);
            InRange(row, battery, soc, power) && Ordered(row) == row && KeepEnabled(row, soc, power) == row
  {
    FieldNamesDistinct();
  }

  lemma InRangeIsDefault(limits: Limits, battery: Battery, soc: bool, power: bool)
    requires InRange(limits, battery, soc, power)
    ensures DefaultFields(limits, battery, soc, power) == limits
  {
    FieldNamesDistinct();
  }

  lemma EnabledFieldsNonempty(limits: Limits, battery: Battery, soc: bool, power: bool)
    requires InRange(limits, battery, soc, power) && (soc || power)
    ensures limits != map[]
  {
    assert soc ==> SOC_MIN in limits;
    assert power ==> MAX_CHARGE in limits;
  }

  /** `stored` has exactly the given rows, under the battery names. */
  ghost predicate NamedRows(stored: map<string, Limits>, rows: map<nat, Limits>) {
    && (forall b | b in stored :: exists i | i in rows :: b == ScopeName(i))
    && (forall i | i in rows :: ScopeName(i) in stored && stored[ScopeName(i)] == rows[i])
  }

  lemma StrippingKeepsRows(parsed: map<string, Limits>, rows: map<nat, Limits>, soc: bool, power: bool)
    requires NamedAndOrdered(parsed, rows)
    requires forall i | i in rows ::
               rows[i] != map[] && Ordered(rows[i]) == rows[i] && KeepEnabled(rows[i], soc, power) == rows[i]
    ensures NamedRows(Stripped(parsed, soc, power), rows)
  {
  }

  lemma NamedRowsUnique(stored: map<string, Limits>, other: map<string, Limits>, rows: map<nat, Limits>)
    requires NamedRows(stored, rows) && NamedRows(other, rows)
    ensures stored == other
  {
  }

  lemma StoredRows(form: StepB, rows: map<nat, Limits>, soc: bool, power: bool)
    requires Encodes(form, rows)
    requires forall i | i in rows ::
               rows[i] != map[] && Ordered(rows[i]) == rows[i] && KeepEnabled(rows[i], soc, power) == rows[i]
    ensures NamedRows(Stripped(ParsedLimits(form), soc, power), rows)
  {
    FormKeyRoundTrip(form, rows);
    StrippingKeepsRows(ParsedLimits(form), rows, soc, power);
  }

  lemma DefaultRowsInRange(a: StepA, slot: Slot, batteries: seq<Battery>, rows: map<nat, Limits>)
    requires (a.socOverride || a.powerOverride) && rows == DefaultLimits(a, slot, batteries)
    ensures forall i | i in rows ::
              && rows[i] != map[] && Ordered(rows[i]) == rows[i]
              && KeepEnabled(rows[i], a.socOverride, a.powerOverride) == rows[i]
  {
    forall i | i in rows
      ensures rows[i] != map[] && Ordered(rows[i]) == rows[i]
      ensures KeepEnabled(rows[i], a.socOverride, a.powerOverride) == rows[i]
    {
      DefaultFieldsInRange(PriorLimits(slot, i), batteries[i], a.socOverride, a.powerOverride);
      EnabledFieldsNonempty(rows[i], batteries[i], a.socOverride, a.powerOverride);
    }
  }

  /** The stored rows after submitting the second page as it opened. */
  lemma DefaultRows(a: StepA, slot: Slot, batteries: seq<Battery>)
    requires a.socOverride || a.powerOverride
    ensures NamedRows(Finalized(a, DefaultStepB(a, slot, batteries), Some(slot)).batteryLimits,
                      DefaultLimits(a, slot, batteries))
  {
    var rows := DefaultLimits(a, slot, batteries);
    DefaultRowsInRange(a, slot, batteries, rows);
    StoredRows(Encode(rows), rows, a.socOverride, a.powerOverride);
  }

  lemma NamedDefaultsInRange(resaved: Slot, slot: Slot, batteries: seq<Battery>)
    requires resaved.form.socOverride || resaved.form.powerOverride
    requires NamedRows(resaved.batteryLimits, DefaultLimits(resaved.form, slot, batteries))
    ensures LimitsInRange(resaved, batteries)
  {
    var a := resaved.form;
    var rows := DefaultLimits(a, slot, batteries);
    forall i: nat | i < |batteries| && i in SlotTargetIndices(a.batteryScope, |batteries|)
      ensures i in rows && InRange(rows[i], batteries[i], a.socOverride, a.powerOverride)
    {
      DefaultFieldsInRange(PriorLimits(slot, i), batteries[i], a.socOverride, a.powerOverride);
    }
  }

  /** Whatever was stored, an unchanged save ends in a slot that further unchanged saves keep. */
  lemma ResavedIsResavable(slot: Slot, batteries: seq<Battery>)
    ensures Resavable(Resaved(slot, batteries), batteries)
  {
    var a := DefaultForm(slot.form, |batteries|);
    if a.socOverride || a.powerOverride {
      DefaultRows(a, slot, batteries);
      NamedDefaultsInRange(Resaved(slot, batteries), slot, batteries);
    }
  }

  lemma ResavableRows(slot: Slot, batteries: seq<Battery>)
    requires Resavable(slot, batteries) && (slot.form.socOverride || slot.form.powerOverride)
    ensures NamedRows(slot.batteryLimits, DefaultLimits(slot.form, slot, batteries))
  {
    var rows := DefaultLimits(slot.form, slot, batteries);
    forall i | i in rows ensures ScopeName(i) in slot.batteryLimits && rows[i] == slot.batteryLimits[ScopeName(i)] {
      InRangeIsDefault(PriorLimits(slot, i), batteries[i], slot.form.socOverride, slot.form.powerOverride);
    }
  }

  lemma ResavableIsKept(slot: Slot, batteries: seq<Battery>)
    requires Resavable(slot, batteries)
    ensures Resaved(slot, batteries) == slot
  {
    var a := slot.form;
    assert DefaultForm(a, |batteries|) == a;
    var stepB := DefaultStepB(a, slot, batteries);
    var limits := Finalized(a, stepB, Some(slot)).batteryLimits;
    if a.socOverride || a.powerOverride {
      DefaultRows(a, slot, batteries);
      ResavableRows(slot, batteries);
      NamedRowsUnique(limits, slot.batteryLimits, DefaultLimits(a, slot, batteries));
    }
    assert limits == slot.batteryLimits;
  }

  /** An unchanged save keeps a stored slot, hidden keys included, exactly when it is resavable. */
  lemma ResaveExact(slot: Slot, batteries: seq<Battery>)
    ensures Resaved(slot, batteries) == slot <==> Resavable(slot, batteries)
    ensures Resaved(Resaved(slot, batteries), batteries) == Resaved(slot, batteries)
  {
    ResavedIsResavable(slot, batteries);
    ResavableIsKept(Resaved(slot, batteries), batteries);
    if Resavable(slot, batteries) {
      ResavableIsKept(slot, batteries);
    }
  }

  /** The first page alone is kept exactly when both times, some day and an offered scope were stored. */
  lemma FirstPageKept(slot: Slot, batteries: seq<Battery>)
    ensures Resaved(slot, batteries).form == slot.form <==>
            slot.form.startTime != "" && slot.form.endTime != "" && slot.form.days != []
            && InScopeOptions(slot.form.batteryScope, |batteries|)
    ensures var a := Resaved(slot, batteries).form;
            && (slot.form.startTime == "" ==> a.startTime == "00:00:00") && (slot.form.endTime == "" ==> a.endTime == "00:00:00")
            && (slot.form.days == [] ==> a.days == [Mon, Tue, Wed, Thu, Fri, Sat, Sun])
            && (!InScopeOptions(slot.form.batteryScope, |batteries|) ==> a.batteryScope == "all")
  {
    var a := DefaultForm(slot.form, |batteries|);
    assert a.startTime == slot.form.startTime <==> slot.form.startTime != "";
    assert a.endTime == slot.form.endTime <==> slot.form.endTime != "";
    assert a.days == slot.form.days <==> slot.form.days != [];
    assert a.batteryScope == slot.form.batteryScope <==> InScopeOptions(slot.form.batteryScope, |batteries|);
  }

  lemma KeptFields(limits: Limits, soc: bool, power: bool, field: string)
    ensures field in KeepEnabled(limits, soc, power) <==>
            field in limits && ((soc && field in {SOC_MIN, SOC_MAX}) || (power && field in {MAX_CHARGE, MAX_DISCHARGE}))
    ensures field in KeepEnabled(limits, soc, power) ==> KeepEnabled(limits, soc, power)[field] == limits[field]
  {
  }

  /** `stored` keeps of `row` exactly the ticked fields, or is absent when there are none. */
  ghost predicate KeepsTicked(stored: Option<Limits>, row: Limits, soc: bool, power: bool) {
    && (stored.None? ==> forall field | field in row ::
          !(soc && field in {SOC_MIN, SOC_MAX}) && !(power && field in {MAX_CHARGE, MAX_DISCHARGE}))
    && (stored.Some? ==> stored.value != map[] && forall field ::
          (field in stored.value <==>
             field in row && ((soc && field in {SOC_MIN, SOC_MAX}) || (power && field in {MAX_CHARGE, MAX_DISCHARGE})))
          && (field in stored.value ==> stored.value[field] == row[field]))
  }

  lemma KeptRow(row: Limits, soc: bool, power: bool)
    ensures var kept := KeepEnabled(row, soc, power);
            KeepsTicked(if kept == map[] then None else Some(kept), row, soc, power)
  {
    var kept := KeepEnabled(row, soc, power);
    forall field
      ensures field in kept <==>
              field in row && ((soc && field in {SOC_MIN, SOC_MAX}) || (power && field in {MAX_CHARGE, MAX_DISCHARGE}))
      ensures field in kept ==> kept[field] == row[field]
    {
      KeptFields(row, soc, power, field);
    }
  }

  function StoredRow(limits: map<string, Limits>, i: nat): Option<Limits> {
    if ScopeName(i) in limits then Some(limits[ScopeName(i)]) else None
  }

  lemma StrippedRow(parsed: map<string, Limits>, rows: map<nat, Limits>, i: nat, soc: bool, power: bool)
    requires NamedAndOrdered(parsed, rows) && i in rows
    ensures KeepsTicked(StoredRow(Stripped(parsed, soc, power), i), Ordered(rows[i]), soc, power)
  {
    KeptRow(Ordered(rows[i]), soc, power);
    if rows[i] == map[] {
      NoRow(parsed, rows, i);
      OrderedTwice(rows[i]);
    }
  }

  lemma StrippedNames(parsed: map<string, Limits>, rows: map<nat, Limits>, soc: bool, power: bool)
    requires NamedAndOrdered(parsed, rows)
    ensures forall b | b in Stripped(parsed, soc, power) :: exists j | j in rows :: b == ScopeName(j)
  {
  }

  /** The stored rows are those of the form, each reduced to what is ticked. */
  ghost predicate StoresTicked(limits: map<string, Limits>, rows: map<nat, Limits>, soc: bool, power: bool) {
    && (forall b | b in limits :: exists j | j in rows :: b == ScopeName(j))
    && (forall i | i in rows :: KeepsTicked(StoredRow(limits, i), Ordered(rows[i]), soc, power))
  }

  lemma StrippedExact(parsed: map<string, Limits>, rows: map<nat, Limits>, soc: bool, power: bool)
    requires NamedAndOrdered(parsed, rows)
    ensures StoresTicked(Stripped(parsed, soc, power), rows, soc, power)
  {
    StrippedNames(parsed, rows, soc, power);
    forall i | i in rows ensures KeepsTicked(StoredRow(Stripped(parsed, soc, power), i), Ordered(rows[i]), soc, power) {
      StrippedRow(parsed, rows, i, soc, power);
    }
  }

  /**
   * What is stored of any submitted second page: of each battery's row, in order,
   * exactly the fields whose override is ticked, and no row that keeps none.
   */
  lemma StoredLimitsExact(a: StepA, form: StepB, rows: map<nat, Limits>, existing: Option<Slot>)
    requires (a.socOverride || a.powerOverride) && Encodes(form, rows)
    ensures StoresTicked(Finalized(a, Some(form), existing).batteryLimits, rows, a.socOverride, a.powerOverride)
    ensures Finalized(a, Some(form), existing).form == a
  {
    FormKeyRoundTrip(form, rows);
    StrippedExact(ParsedLimits(form), rows, a.socOverride, a.powerOverride);
  }

  lemma NoRow(parsed: map<string, Limits>, rows: map<nat, Limits>, i: nat)
    requires NamedAndOrdered(parsed, rows) && i in rows && rows[i] == map[]
    ensures ScopeName(i) !in parsed
  {
    if ScopeName(i) in parsed {
      var j :| j in rows && rows[j] != map[] && ScopeName(i) == ScopeName(j);
      ScopeNameInjective(i, j);
      assert false;
    }
  }

  /**
   * Without earlier limits the second page opens with the battery's own settings,
   * each in its own field, moved into the slider's range where it is outside.
   */
  lemma FreshFields(battery: Battery)
    requires battery.minSoc != 0 && battery.maxSoc != 0 && battery.maxCharge != 0 && battery.maxDischarge != 0
    requires battery.hardwareCharge >= 100 && battery.hardwareDischarge >= 100
    ensures var row := DefaultFields(map[], battery, true, true);
            && row.Keys == {SOC_MIN, SOC_MAX, MAX_CHARGE, MAX_DISCHARGE}
            && Nearest(row[SOC_MIN], battery.minSoc, 12, 30) && Nearest(row[SOC_MAX], battery.maxSoc, 80, 100)
            && Nearest(row[MAX_CHARGE], battery.maxCharge, 100, battery.hardwareCharge)
            && Nearest(row[MAX_DISCHARGE], battery.maxDischarge, 100, battery.hardwareDischarge)
  {
    FieldNamesDistinct();
  }

  /** `moved` is the point of the range nearest to `value`. */
  predicate Nearest(moved: int, value: int, low: int, high: int) {
    && low <= moved <= high
    && (value < low ==> moved == low) && (value > high ==> moved == high) && (low <= value <= high ==> moved == value)
  }
}
