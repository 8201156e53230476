/**
 * The stored time slots: which form input is accepted, when two slots conflict,
 * and which battery a slot owns at an instant.
 */
module TimeSlots {
  import opened Wrappers
  import opened Text
  import opened TimeOfDay

  const SCOPE_ALL := "all"
  const SCOPE_PREFIX := "battery_"
  const MAX_TIME_SLOTS := 8
  const ENABLED := "enabled"

  datatype Weekday = Mon | Tue | Wed | Thu | Fri | Sat | Sun

  datatype Mode = Pd | Manual

  /** The first form page; a stored slot keeps these nine fields verbatim. */
  datatype StepA = StepA(
    startTime: string, endTime: string, days: seq<Weekday>, batteryScope: string,
    allowCharge: bool, allowDischarge: bool,
    socOverride: bool, powerOverride: bool, mode: Mode)

  datatype Json = JsonNull | JsonBool(b: bool) | JsonNumber(n: real) | JsonText(s: string)

  type Limits = map<string, int>

  /** `hidden` holds every stored key no form field emits, today only `enabled`. */
  datatype Slot = Slot(form: StepA, batteryLimits: map<string, Limits>, hidden: map<string, Json>)

  datatype FormError = SlotDoesNothing | ManualRequiresPower | MidnightCrossing | OverlappingSlots

  // ---------------------------------------------------------------- validation

  function ValidateStepA(a: StepA): Option<FormError> {
    if !(a.allowCharge || a.allowDischarge) then Some(SlotDoesNothing)
    else if a.mode == Manual && !a.powerOverride then Some(ManualRequiresPower)
    else if !Less(a.startTime, a.endTime) then Some(MidnightCrossing)
    else None
  }

  // -------------------------------------------------------------------- scopes

  function ScopeName(i: nat): string { SCOPE_PREFIX + Decimal(i + 1) }

  /** Zero-based battery number named by a scope; absent for `all` and for malformed scopes. */
  function ScopedBatteryIndex(scope: string): Option<int> {
    if !(SCOPE_PREFIX <= scope) then None
    else
      match ParseDecimal(scope[|SCOPE_PREFIX|..])
      case None => None
      case Some(n) => Some(n - 1)
  }

  function SlotTargetIndices(scope: string, batteries: nat): seq<nat> {
    if scope == SCOPE_ALL then seq(batteries, i => i)
    else
      match ScopedBatteryIndex(scope)
      case None => []
      case Some(i) => if 0 <= i < batteries then [i] else []
  }

  /** The values the scope selector offers when `batteries` are configured. */
  predicate InScopeOptions(scope: string, batteries: nat) {
    scope == SCOPE_ALL || exists i: nat | i < batteries :: scope == ScopeName(i)
  }

  lemma ScopeNameTargets(i: nat, batteries: nat)
    ensures ScopeName(i) != SCOPE_ALL
    ensures ScopedBatteryIndex(ScopeName(i)) == Some(i as int)
    ensures SlotTargetIndices(ScopeName(i), batteries) == if i < batteries then [i] else []
  {
    assert ScopeName(i)[|SCOPE_PREFIX|..] == Decimal(i + 1);
    DecimalRoundTrip(i + 1);
    assert ScopeName(i)[0] == 'b';
  }

  /** On selector values, the scope comparison of the conflict check is exactly "shares a battery". */
  lemma ScopeTestExact(a: string, b: string, batteries: nat)
    requires InScopeOptions(a, batteries) && InScopeOptions(b, batteries) && batteries > 0
    ensures (a == SCOPE_ALL || b == SCOPE_ALL || a == b) <==>
            exists k :: k in SlotTargetIndices(a, batteries) && k in SlotTargetIndices(b, batteries)
  {
    var all := SlotTargetIndices(SCOPE_ALL, batteries);
    assert forall k: nat | k < batteries :: all[k] == k;
    if a == SCOPE_ALL && b == SCOPE_ALL {
      assert all[0] in SlotTargetIndices(a, batteries) && all[0] in SlotTargetIndices(b, batteries);
    } else {
      var one := if a == SCOPE_ALL then b else a;
      var i: nat :| i < batteries && one == ScopeName(i);
      ScopeNameTargets(i, batteries);
      assert all[i] == i;
      var other := if one == a then b else a;
      if other != SCOPE_ALL {
        var j: nat :| j < batteries && other == ScopeName(j);
        ScopeNameTargets(j, batteries);
      }
      assert one == a || one == b;
      if a == SCOPE_ALL || b == SCOPE_ALL || a == b {
        assert i in SlotTargetIndices(a, batteries) && i in SlotTargetIndices(b, batteries);
      }
    }
  }

  // ----------------------------------------------------------------- conflicts

  /** Absent when one of the four strings is not a time (the comparison raises). */
  function TimeRangesOverlap(start1: string, end1: string, start2: string, end2: string): Option<bool> {
    match (ParseTime(start1), ParseTime(end1), ParseTime(start2), ParseTime(end2))
    case (Some(s1), Some(e1), Some(s2), Some(e2)) => Some(s1 < e2 && s2 < e1)
    case _ => None
  }

  predicate SharesDay(a: StepA, b: StepA) {
    exists d | d in a.days :: d in b.days
  }

  predicate SharesScope(a: StepA, b: StepA) {
    a.batteryScope == SCOPE_ALL || b.batteryScope == SCOPE_ALL || a.batteryScope == b.batteryScope
  }

  /**
   * Without the selector the comparison is too weak: slots with two different
   * scopes never conflict, yet they share a battery exactly when both name its number.
   */
  lemma UnlistedScopeEscapesTheTest(a: StepA, b: StepA, batteries: nat)
    requires a.batteryScope != SCOPE_ALL && b.batteryScope != SCOPE_ALL && a.batteryScope != b.batteryScope
    ensures ConflictsWith(a, b) == Some(false)
    ensures forall k: nat :: k in SlotTargetIndices(a.batteryScope, batteries) && k in SlotTargetIndices(b.batteryScope, batteries) <==>
                        k < batteries && ScopedBatteryIndex(a.batteryScope) == ScopedBatteryIndex(b.batteryScope) == Some(k as int)
  {
    forall k: nat
      ensures k in SlotTargetIndices(a.batteryScope, batteries) && k in SlotTargetIndices(b.batteryScope, batteries) <==>
              k < batteries && ScopedBatteryIndex(a.batteryScope) == ScopedBatteryIndex(b.batteryScope) == Some(k as int)
    {
      OneTarget(a.batteryScope, batteries, k);
      OneTarget(b.batteryScope, batteries, k);
    }
  }

  lemma OneTarget(scope: string, batteries: nat, k: nat)
    requires scope != SCOPE_ALL
    ensures k in SlotTargetIndices(scope, batteries) <==> k < batteries && ScopedBatteryIndex(scope) == Some(k as int)
  {
  }

  /** Two such spellings. */
  lemma TwoSpellings()
    ensures "battery_01" != "battery_1"
    ensures ScopedBatteryIndex("battery_01") == ScopedBatteryIndex("battery_1") == Some(0)
  {
    assert "battery_01"[|SCOPE_PREFIX|..] == "01" && "battery_1"[|SCOPE_PREFIX|..] == "1";
    assert "01"[..1] == "0";
    assert ParseDecimal("01") == Some(1);
  }

  function ConflictsWith(a: StepA, b: StepA): Option<bool> {
    if !SharesDay(a, b) || !SharesScope(a, b) then Some(false)
    else TimeRangesOverlap(a.startTime, a.endTime, b.startTime, b.endTime)
  }

  function SlotsOverlap(a: StepA, slots: seq<Slot>): Option<bool> {
    if slots == [] then Some(false)
    else
      match ConflictsWith(a, slots[0].form)
      case None => None
      case Some(true) => Some(true)
      case Some(false) => SlotsOverlap(a, slots[1..])
  }

  /** The scan the add-slot step runs; it stops at the first conflict and at the first unreadable time. */
  method ScanForOverlap(a: StepA, slots: seq<Slot>) returns (r: Option<bool>)
    ensures r == SlotsOverlap(a, slots)
    ensures r == Some(false) <==> forall k :: 0 <= k < |slots| ==> ConflictsWith(a, slots[k].form) == Some(false)
    ensures r == Some(true) ==> exists k :: 0 <= k < |slots| && ConflictsWith(a, slots[k].form) == Some(true)
  {
    for i := 0 to |slots|
      invariant SlotsOverlap(a, slots) == SlotsOverlap(a, slots[i..])
      invariant forall k :: 0 <= k < i ==> ConflictsWith(a, slots[k].form) == Some(false)
    {
      assert slots[i..][1..] == slots[i + 1..];
      if !SharesDay(a, slots[i].form) {
        continue;
      }
      if !SharesScope(a, slots[i].form) {
        continue;
      }
      var overlap := TimeRangesOverlap(a.startTime, a.endTime, slots[i].form.startTime, slots[i].form.endTime);
      if overlap == None {
        return None;
      }
      if overlap.value {
        return Some(true);
      }
    }
    return Some(false);
  }

  lemma {:induction false} ClearOfAll(a: StepA, slots: seq<Slot>)
    ensures SlotsOverlap(a, slots) == Some(false) <==>
            forall k :: 0 <= k < |slots| ==> ConflictsWith(a, slots[k].form) == Some(false)
  {
    if slots != [] {
      ClearOfAll(a, slots[1..]);
      assert forall k :: 1 <= k < |slots| ==> slots[k] == slots[1..][k - 1];
    }
  }

  predicate PairwiseClear(slots: seq<Slot>) {
    forall i, j :: 0 <= i < j < |slots| ==> ConflictsWith(slots[j].form, slots[i].form) == Some(false)
  }

  // ----------------------------------------------------------------- ownership

  predicate HasWindow(a: StepA) {
    ParseTime(a.startTime).Some? && ParseTime(a.endTime).Some?
  }

  /** The slot applies to this battery on this day. */
  predicate Targets(a: StepA, batteries: nat, battery: nat, day: Weekday) {
    HasWindow(a) && battery in SlotTargetIndices(a.batteryScope, batteries) && day in a.days
  }

  /** The half-open reading `[start, end)`, the one the conflict check uses. */
  predicate Covers(a: StepA, batteries: nat, battery: nat, day: Weekday, t: int) {
    Targets(a, batteries, battery, day) && ParseTime(a.startTime).value <= t < ParseTime(a.endTime).value
  }

  /** The closed reading `[start, end]` the discharge-window sensor uses; a slot with unreadable times is skipped. */
  predicate InWindow(a: StepA, day: Weekday, t: int) {
    && day in a.days && HasWindow(a)
    && ParseTime(a.startTime).value <= t <= ParseTime(a.endTime).value
  }

  /** In its window, for one of the batteries it targets. */
  predicate Active(a: StepA, batteries: nat, battery: nat, day: Weekday, t: int) {
    InWindow(a, day, t) && battery in SlotTargetIndices(a.batteryScope, batteries)
  }

  /** An accepted slot with `end == start + ":00"` passes validation yet denotes an empty window. */
  predicate Degenerate(a: StepA) {
    a.endTime == a.startTime + ":00"
  }

  /** A form that is active at a single instant of some day. */
  predicate SingleInstant(a: StepA) {
    Degenerate(a) && HasWindow(a) && a.days != []
  }

  /** What a stored slot went through: cross-field validation and a scope the selector could offer. */
  ghost predicate Accepted(a: StepA) {
    ValidateStepA(a) == None && (a.batteryScope == SCOPE_ALL || exists i: nat :: a.batteryScope == ScopeName(i))
  }

  /** Validation compares strings; what it guarantees about the times is exactly this. */
  lemma AcceptedWindow(a: StepA)
    requires Accepted(a) && HasWindow(a)
    ensures ParseTime(a.startTime).value <= ParseTime(a.endTime).value
    ensures ParseTime(a.startTime) == ParseTime(a.endTime) <==> Degenerate(a)
  {
    StringOrderIsTimeOrder(a.startTime, a.endTime);
  }

  /** Which fields decide, and with which error, when both times are readable. */
  lemma ValidationExact(a: StepA)
    requires HasWindow(a)
    ensures var directed := a.allowCharge || a.allowDischarge;
            var powered := a.mode == Manual ==> a.powerOverride;
            var ordered := ParseTime(a.startTime).value < ParseTime(a.endTime).value || Degenerate(a);
            && (ValidateStepA(a) == Some(SlotDoesNothing) <==> !directed)
            && (ValidateStepA(a) == Some(ManualRequiresPower) <==> directed && !powered)
            && (ValidateStepA(a) == Some(MidnightCrossing) <==> directed && powered && !ordered)
            && (ValidateStepA(a) == None <==> directed && powered && ordered)
  {
    StringOrderIsTimeOrder(a.startTime, a.endTime);
  }

  /** The closed window is the half-open one and its end. */
  lemma InWindowExact(a: StepA, day: Weekday, t: int)
    requires Accepted(a) && HasWindow(a)
    ensures InWindow(a, day, t) <==>
            day in a.days && (ParseTime(a.startTime).value <= t < ParseTime(a.endTime).value || ParseTime(a.endTime) == Some(t))
  {
    AcceptedWindow(a);
  }

  /** A slot is active at every instant it covers, and at its end. */
  lemma ActiveExact(a: StepA, batteries: nat, battery: nat, day: Weekday, t: int)
    requires Accepted(a)
    ensures Active(a, batteries, battery, day, t) <==>
            Covers(a, batteries, battery, day, t) || (Targets(a, batteries, battery, day) && ParseTime(a.endTime) == Some(t))
  {
    if HasWindow(a) {
      InWindowExact(a, day, t);
    }
  }

  lemma CommonTargetSharesScope(a: StepA, b: StepA, batteries: nat, battery: nat, day: Weekday)
    requires Accepted(a) && Accepted(b)
    requires Targets(a, batteries, battery, day) && Targets(b, batteries, battery, day)
    ensures SharesDay(a, b) && SharesScope(a, b)
  {
    if a.batteryScope != SCOPE_ALL && b.batteryScope != SCOPE_ALL {
      var i: nat :| a.batteryScope == ScopeName(i);
      var j: nat :| b.batteryScope == ScopeName(j);
      ScopeNameTargets(i, batteries);
      ScopeNameTargets(j, batteries);
    }
  }

  /** `a` is a single instant, and `t` is that instant, strictly inside the window of `b`. */
  predicate PointInside(a: StepA, b: StepA, batteries: nat, battery: nat, day: Weekday, t: int) {
    && Targets(a, batteries, battery, day) && Covers(b, batteries, battery, day, t)
    && ParseTime(a.startTime) == ParseTime(a.endTime) == Some(t) && ParseTime(b.startTime).value < t
  }

  /** `battery`, `day`, `t` belongs to both windows, or is an empty one strictly inside the other. */
  predicate Meet(a: StepA, b: StepA, batteries: nat, battery: nat, day: Weekday, t: int) {
    || (Covers(a, batteries, battery, day, t) && Covers(b, batteries, battery, day, t))
    || PointInside(a, b, batteries, battery, day, t)
    || PointInside(b, a, batteries, battery, day, t)
  }

  lemma ConflictMeets(a: StepA, b: StepA, batteries: nat, battery: nat, day: Weekday)
    requires HasWindow(a) && HasWindow(b) && ConflictsWith(a, b) == Some(true)
    requires ParseTime(a.startTime).value <= ParseTime(a.endTime).value
    requires ParseTime(b.startTime).value <= ParseTime(b.endTime).value
    requires Targets(a, batteries, battery, day) && Targets(b, batteries, battery, day)
    ensures var s1, s2 := ParseTime(a.startTime).value, ParseTime(b.startTime).value;
            Meet(a, b, batteries, battery, day, if s1 < s2 then s2 else s1)
  {
  }

  lemma MeetingOverlaps(a: StepA, b: StepA, batteries: nat, battery: nat, day: Weekday, t: int)
    requires Meet(a, b, batteries, battery, day, t)
    ensures TimeRangesOverlap(a.startTime, a.endTime, b.startTime, b.endTime) == Some(true)
  {
  }

  lemma MeetingConflicts(a: StepA, b: StepA, batteries: nat, battery: nat, day: Weekday, t: int)
    requires Accepted(a) && Accepted(b) && Meet(a, b, batteries, battery, day, t)
    ensures ConflictsWith(a, b) == Some(true)
  {
    CommonTargetSharesScope(a, b, batteries, battery, day);
    MeetingOverlaps(a, b, batteries, battery, day, t);
  }

  /** The check is exact: it reports a conflict just when the windows meet somewhere for some battery. */
  lemma ConflictExact(a: StepA, b: StepA, batteries: nat)
    requires Accepted(a) && Accepted(b) && HasWindow(a) && HasWindow(b)
    requires InScopeOptions(a.batteryScope, batteries) && InScopeOptions(b.batteryScope, batteries) && batteries > 0
    ensures ConflictsWith(a, b) == Some(true) <==>
            exists battery, day, t :: Meet(a, b, batteries, battery, day, t)
  {
    if ConflictsWith(a, b) == Some(true) {
      AcceptedWindow(a);
      AcceptedWindow(b);
      ScopeTestExact(a.batteryScope, b.batteryScope, batteries);
      var battery :| battery in SlotTargetIndices(a.batteryScope, batteries) && battery in SlotTargetIndices(b.batteryScope, batteries);
      var day :| day in a.days && day in b.days;
      ConflictMeets(a, b, batteries, battery, day);
    }
    if battery, day, t :| Meet(a, b, batteries, battery, day, t) {
      MeetingConflicts(a, b, batteries, battery, day, t);
    }
  }

  ghost predicate AllAccepted(slots: seq<Slot>) {
    forall i :: 0 <= i < |slots| ==> Accepted(slots[i].form)
  }

  /** Conflict-free, made of accepted forms, and no longer than the maximum. */
  ghost predicate SlotsFine(slots: seq<Slot>) {
    PairwiseClear(slots) && AllAccepted(slots) && |slots| <= MAX_TIME_SLOTS
  }

  /** A list the conflict check can compare with: accepted, readable, each scope on offer. */
  ghost predicate Comparable(slots: seq<Slot>, batteries: nat) {
    && AllAccepted(slots)
    && forall k :: 0 <= k < |slots| ==> HasWindow(slots[k].form) && InScopeOptions(slots[k].form.batteryScope, batteries)
  }

  /** The form meets one of the slots somewhere. */
  ghost predicate MeetsSome(a: StepA, slots: seq<Slot>, batteries: nat) {
    exists k, battery, day, t :: 0 <= k < |slots| && Meet(a, slots[k].form, batteries, battery, day, t)
  }

  lemma ReadablePair(a: StepA, b: StepA)
    requires HasWindow(a) && HasWindow(b)
    ensures ConflictsWith(a, b).Some?
  {
  }

  /** A scan that can read every time it needs reports an overlap exactly when there is one. */
  lemma {:induction false} ScanDecides(a: StepA, slots: seq<Slot>)
    requires forall k :: 0 <= k < |slots| ==> ConflictsWith(a, slots[k].form).Some?
    ensures SlotsOverlap(a, slots).Some?
    ensures SlotsOverlap(a, slots) == Some(true) <==>
            exists k :: 0 <= k < |slots| && ConflictsWith(a, slots[k].form) == Some(true)
  {
    if slots != [] {
      assert forall k :: 1 <= k < |slots| ==> slots[k] == slots[1..][k - 1];
      ScanDecides(a, slots[1..]);
    }
  }

  /** Against comparable slots the scan reports an overlap exactly when the form meets one of them. */
  lemma ScanExact(a: StepA, slots: seq<Slot>, batteries: nat)
    requires Accepted(a) && HasWindow(a) && InScopeOptions(a.batteryScope, batteries) && batteries > 0
    requires Comparable(slots, batteries)
    ensures SlotsOverlap(a, slots) == Some(MeetsSome(a, slots, batteries))
  {
    forall k | 0 <= k < |slots| ensures ConflictsWith(a, slots[k].form).Some? {
      ReadablePair(a, slots[k].form);
    }
    ScanDecides(a, slots);
    forall k | 0 <= k < |slots|
      ensures ConflictsWith(a, slots[k].form) == Some(true) <==>
              exists battery, day, t :: Meet(a, slots[k].form, batteries, battery, day, t)
    {
      ConflictExact(a, slots[k].form, batteries);
    }
  }

  /** At most one slot of a conflict-free list covers an instant of a battery. */
  lemma SingleOwner(slots: seq<Slot>, i: nat, j: nat, batteries: nat, battery: nat, day: Weekday, t: int)
    requires PairwiseClear(slots) && AllAccepted(slots) && i < |slots| && j < |slots|
    requires Covers(slots[i].form, batteries, battery, day, t)
    requires Covers(slots[j].form, batteries, battery, day, t)
    ensures i == j
  {
    if i != j {
      var low, high := if i < j then i else j, if i < j then j else i;
      CommonTargetSharesScope(slots[high].form, slots[low].form, batteries, battery, day);
    }
  }

  /** Two slots active at one instant only touch there: one ends as the other starts. */
  lemma ActivePairTouches(slots: seq<Slot>, i: nat, j: nat, batteries: nat, battery: nat, day: Weekday, t: int)
    requires PairwiseClear(slots) && AllAccepted(slots) && i < j < |slots|
    requires Active(slots[i].form, batteries, battery, day, t)
    requires Active(slots[j].form, batteries, battery, day, t)
    ensures ParseTime(slots[i].form.endTime) == ParseTime(slots[j].form.startTime) == Some(t)
         || ParseTime(slots[j].form.endTime) == ParseTime(slots[i].form.startTime) == Some(t)
  {
    CommonTargetSharesScope(slots[j].form, slots[i].form, batteries, battery, day);
  }

  /** Three slots of the list are active for one battery at one instant. */
  predicate AllActive(slots: seq<Slot>, i: int, j: int, k: int, batteries: nat, battery: nat, day: Weekday, t: int) {
    && 0 <= i < j < k < |slots|
    && Active(slots[i].form, batteries, battery, day, t)
    && Active(slots[j].form, batteries, battery, day, t)
    && Active(slots[k].form, batteries, battery, day, t)
  }

  lemma ThreeSpans(s1: int, e1: int, s2: int, e2: int, s3: int, e3: int, t: int)
    requires s1 <= e1 && s2 <= e2 && s3 <= e3
    requires (e1 == s2 == t) || (e2 == s1 == t)
    requires (e2 == s3 == t) || (e3 == s2 == t)
    requires (e1 == s3 == t) || (e3 == s1 == t)
    ensures s1 == e1 || s2 == e2 || s3 == e3
  {
  }

  /** A third active slot is possible only when one of the three is degenerate. */
  lemma ThirdActiveSlotIsDegenerate(slots: seq<Slot>, i: nat, j: nat, k: nat,
                                    batteries: nat, battery: nat, day: Weekday, t: int)
    requires PairwiseClear(slots) && AllAccepted(slots) && AllActive(slots, i, j, k, batteries, battery, day, t)
    ensures SingleInstant(slots[i].form) || SingleInstant(slots[j].form) || SingleInstant(slots[k].form)
  {
    AcceptedWindow(slots[i].form);
    AcceptedWindow(slots[j].form);
    AcceptedWindow(slots[k].form);
    ActivePairTouches(slots, i, j, batteries, battery, day, t);
    ActivePairTouches(slots, j, k, batteries, battery, day, t);
    ActivePairTouches(slots, i, k, batteries, battery, day, t);
    ThreeSpans(ParseTime(slots[i].form.startTime).value, ParseTime(slots[i].form.endTime).value,
               ParseTime(slots[j].form.startTime).value, ParseTime(slots[j].form.endTime).value,
               ParseTime(slots[k].form.startTime).value, ParseTime(slots[k].form.endTime).value, t);
  }

  /** A slot may be stored beside a copy of itself exactly when it is degenerate (or applies on no day). */
  lemma SelfConflictExact(a: StepA)
    requires Accepted(a) && HasWindow(a) && a.days != []
    ensures ConflictsWith(a, a) == Some(false) <==> Degenerate(a)
  {
    AcceptedWindow(a);
    assert a.days[0] in a.days;
  }

  const TEN_TO_TEN := StepA("10:00", "10:00:00", [Mon], SCOPE_ALL, false, true, false, false, Pd)

  /** There is such a form: ten o'clock to ten o'clock, written in two ways. */
  lemma TenToTenIsAccepted()
    ensures Accepted(TEN_TO_TEN) && Degenerate(TEN_TO_TEN)
    ensures ParseTime(TEN_TO_TEN.startTime) == ParseTime(TEN_TO_TEN.endTime) == Some(36_000 * MICROS_PER_SECOND)
  {
    TenParses();
    var a, b := "10:00", "10:00:00";
    assert b == a + ":00" && a + "" == a;
    LessAppend(a, "", a, ":00");
  }

  lemma TenParses()
    ensures ParseTime("10:00") == ParseTime("10:00:00") == Some(36_000 * MICROS_PER_SECOND)
  {
    var a, b := "10:00", "10:00:00";
    assert a[..2] == b[..2] == "10" && a[2..] == b[2..5] == b[5..] == ":00" && a[3..] == b[3..5] == b[6..] == "00";
    assert IsPair("10", 24) && PairValue("10") == 10 && PairValue("00") == 0;
    assert ":00"[1..] == "00" && IsField(":00");
  }

  ghost predicate ThreeActive(slots: seq<Slot>, batteries: nat) {
    exists i, j, k, battery, day, t :: AllActive(slots, i, j, k, batteries, battery, day, t)
  }

  lemma ActiveSomewhere(a: StepA, batteries: nat) returns (battery: nat, day: Weekday, t: int)
    requires Accepted(a) && SingleInstant(a) && InScopeOptions(a.batteryScope, batteries) && batteries > 0
    ensures Active(a, batteries, battery, day, t)
  {
    AcceptedWindow(a);
    ScopeTestExact(a.batteryScope, a.batteryScope, batteries);
    battery :| battery in SlotTargetIndices(a.batteryScope, batteries);
    day, t := a.days[0], ParseTime(a.startTime).value;
    assert day in a.days;
  }

  function Copies(slot: Slot, n: nat): seq<Slot> {
    seq(n, _ => slot)
  }

  /** Any such form can be stored three times without a conflict, and the three are then active together. */
  lemma ThreeActiveSlots(slot: Slot, batteries: nat)
    requires Accepted(slot.form) && SingleInstant(slot.form) && InScopeOptions(slot.form.batteryScope, batteries) && batteries > 0
    ensures SlotsFine(Copies(slot, 3)) && ThreeActive(Copies(slot, 3), batteries)
  {
    var slots := Copies(slot, 3);
    SelfConflictExact(slot.form);
    var battery, day, t := ActiveSomewhere(slot.form, batteries);
    assert AllActive(slots, 0, 1, 2, batteries, battery, day, t);
  }

  ghost predicate MadeOf(slots: seq<Slot>, forms: set<StepA>) {
    forall i :: 0 <= i < |slots| ==> slots[i].form in forms
  }

  /** At most two slots are ever active at once, whatever is stored of some forms, exactly when none of them is a single instant. */
  lemma AtMostTwoExact(forms: set<StepA>, batteries: nat)
    requires batteries > 0 && forall a | a in forms :: Accepted(a) && InScopeOptions(a.batteryScope, batteries)
    ensures (forall slots | SlotsFine(slots) && MadeOf(slots, forms) :: !ThreeActive(slots, batteries)) <==>
            (forall a | a in forms :: !SingleInstant(a))
  {
    if a :| a in forms && SingleInstant(a) {
      var slot := Slot(a, map[], map[]);
      ThreeActiveSlots(slot, batteries);
      assert MadeOf(Copies(slot, 3), forms);
    } else {
      forall slots | SlotsFine(slots) && MadeOf(slots, forms) ensures !ThreeActive(slots, batteries) {
        NeverThree(slots, batteries);
      }
    }
  }

  lemma NeverThree(slots: seq<Slot>, batteries: nat)
    requires SlotsFine(slots) && forall m :: 0 <= m < |slots| ==> !SingleInstant(slots[m].form)
    ensures !ThreeActive(slots, batteries)
  {
    if i, j, k, battery, day, t :| AllActive(slots, i, j, k, batteries, battery, day, t) {
      ThirdActiveSlotIsDegenerate(slots, i, j, k, batteries, battery, day, t);
      assert false;
    }
  }
}
