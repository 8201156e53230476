/** The diagnostic sensor that says whether discharge is currently inside an allowed window. */
module DischargeWindow {
  import opened Wrappers
  import opened TimeOfDay
  import opened TimeSlots

  datatype WindowState = NoSlots | InsideWindow | OutsideWindow

  predicate Truthy(value: Json) {
    match value
    case JsonNull => false
    case JsonBool(b) => b
    case JsonNumber(n) => n != 0.0
    case JsonText(s) => s != ""
  }

  /** Enabled (a missing flag counts as enabled) and allowed to discharge. */
  predicate Governs(slot: Slot) {
    (ENABLED in slot.hidden ==> Truthy(slot.hidden[ENABLED])) && slot.form.allowDischarge
  }

  /** A slot without the flag counts as switched on; a switched-off one never governs. */
  lemma FlagDefaultsToOn(slot: Slot)
    ensures ENABLED !in slot.hidden ==>
            (Governs(slot) <==> Governs(slot.(hidden := slot.hidden[ENABLED := JsonBool(true)])))
    ensures Governs(slot.(hidden := slot.hidden[ENABLED := JsonBool(true)])) <==> slot.form.allowDischarge
    ensures !Governs(slot.(hidden := slot.hidden[ENABLED := JsonBool(false)]))
  {
  }

  method NativeValue(slots: seq<Slot>, day: Weekday, t: int) returns (state: WindowState)
    ensures state == NoSlots <==> forall i :: 0 <= i < |slots| ==> !Governs(slots[i])
    ensures state == InsideWindow <==>
            exists i :: 0 <= i < |slots| && Governs(slots[i]) && InWindow(slots[i].form, day, t)
    ensures forall i, batteries, battery ::
              0 <= i < |slots| && Governs(slots[i]) && Covers(slots[i].form, batteries, battery, day, t) ==> state == InsideWindow
  {
    var any := false;
    for i := 0 to |slots|
      invariant any <==> exists k :: 0 <= k < i && Governs(slots[k])
      invariant forall k :: 0 <= k < i ==> !(Governs(slots[k]) && InWindow(slots[k].form, day, t))
    {
      if Governs(slots[i]) {
        any := true;
        if InWindow(slots[i].form, day, t) {
          return InsideWindow;
        }
      }
    }
    return if any then OutsideWindow else NoSlots;
  }

  /** The one-based number of the first governing slot whose window contains `t`. */
  method ActiveSlot(slots: seq<Slot>, day: Weekday, t: int) returns (number: Option<nat>)
    ensures number == None <==>
            forall i :: 0 <= i < |slots| ==> !(Governs(slots[i]) && InWindow(slots[i].form, day, t))
    ensures number.Some? ==>
              && 1 <= number.value <= |slots|
              && Governs(slots[number.value - 1]) && InWindow(slots[number.value - 1].form, day, t)
              && forall i :: 0 <= i < number.value - 1 ==> !(Governs(slots[i]) && InWindow(slots[i].form, day, t))
    ensures forall i, batteries, battery ::
              0 <= i < |slots| && Governs(slots[i]) && Covers(slots[i].form, batteries, battery, day, t) ==>
                number.Some? && number.value <= i + 1
  {
    for i := 0 to |slots|
      invariant forall k :: 0 <= k < i ==> !(Governs(slots[k]) && InWindow(slots[k].form, day, t))
    {
      if Governs(slots[i]) && InWindow(slots[i].form, day, t) {
        return Some(i + 1);
      }
    }
    return None;
  }

  /**
   * On a conflict-free list the reported slot is the only one whose half-open
   * window holds the instant for a battery both would target, unless the instant
   * is the end of the reported window.
   */
  lemma ReportedSlotIsTheOwner(slots: seq<Slot>, i: nat, j: nat, batteries: nat, battery: nat, day: Weekday, t: int)
    requires PairwiseClear(slots) && AllAccepted(slots) && i < |slots| && j < |slots|
    requires InWindow(slots[i].form, day, t) && ParseTime(slots[i].form.endTime).value != t
    requires battery in SlotTargetIndices(slots[i].form.batteryScope, batteries)
    requires Covers(slots[j].form, batteries, battery, day, t)
    ensures i == j
  {
    SingleOwner(slots, i, j, batteries, battery, day, t);
  }
}
