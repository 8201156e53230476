/**
 * The options flow that edits the stored slots, the enable switch that shares
 * the config entry with it, and what holds after any run of the two.
 */
module SlotFlow {
  import opened Wrappers
  import opened Sequences
  import opened TimeSlots
  import opened SlotForm
  import opened SlotSave
  import opened TimeOfDay
  import opened DischargeWindow

  // ---------------------------------------------------------- the state machine

  /** The form shown last; the flow manager hands user input to no other step. */
  datatype Page = Ask | Form | Details | More | Done

  datatype Flow = Flow(page: Page, timeSlots: seq<Slot>, pending: Option<StepA>)

  /** The config entry's slots and batteries, and the one open options flow. */
  datatype World = World(stored: seq<Slot>, batteries: seq<Battery>, flow: Flow)

  datatype Event =
    | Open
    | Answer(configure: bool)
    | SubmitForm(a: StepA)
    | SubmitDetails(b: StepB)
    | SubmitMore(more: bool)
    | Toggle(index: nat, on: bool)
    | SetBatteries(batteries: seq<Battery>)

  function Toggled(slots: seq<Slot>, index: nat, on: bool): seq<Slot> {
    if index < |slots|
    then slots[index := slots[index].(hidden := slots[index].hidden[ENABLED := JsonBool(on)])]
    else slots
  }

  /** The stored slot at the position now being edited. */
  function Existing(stored: seq<Slot>, index: nat): Option<Slot> {
    if index < |stored| then Some(stored[index]) else None
  }

  function AppendSlot(w: World, slot: Slot): World {
    var slots := w.flow.timeSlots + [slot];
    if |slots| < MAX_TIME_SLOTS
    then w.(flow := Flow(More, slots, None))
    else w.(flow := Flow(Done, slots, None), stored := slots)
  }

  function Append(w: World, a: StepA, stepB: Option<StepB>): World {
    AppendSlot(w, Finalized(a, stepB, Existing(w.stored, |w.flow.timeSlots|)))
  }

  /** Why a submitted first page is sent back, if it is; `None` inside means unreadable times. */
  function Rejection(a: StepA, slots: seq<Slot>): Option<Option<FormError>> {
    match ValidateStepA(a)
    case Some(error) => Some(Some(error))
    case None =>
      match SlotsOverlap(a, slots)
      case None => Some(None)
      case Some(true) => Some(Some(OverlappingSlots))
      case Some(false) => None
  }

  function AfterForm(w: World, a: StepA): World {
    if Rejection(a, w.flow.timeSlots).Some? then w
    else if a.socOverride || a.powerOverride then w.(flow := w.flow.(pending := Some(a), page := Details))
    else Append(w, a, None)
  }

  function AfterDetails(w: World, b: StepB): World {
    match w.flow.pending
    case None => w.(flow := w.flow.(page := Form))
    case Some(a) => Append(w, a, Some(b))
  }

  /** One event. Input for a form that is not shown, or a scope not on offer, changes nothing. */
  function Next(w: World, e: Event): World {
    match e
    case Open => w.(flow := Flow(Ask, [], None))
    case Answer(configure) =>
      if w.flow.page != Ask then w
      else if configure then w.(flow := w.flow.(timeSlots := [], page := Form))
      else w.(stored := [], flow := w.flow.(page := Done))
    case SubmitForm(a) =>
      if w.flow.page != Form || !InScopeOptions(a.batteryScope, |w.batteries|) then w else AfterForm(w, a)
    case SubmitDetails(b) => if w.flow.page != Details then w else AfterDetails(w, b)
    case SubmitMore(more) =>
      if w.flow.page != More then w
      else if more then w.(flow := w.flow.(page := Form))
      else w.(stored := w.flow.timeSlots, flow := w.flow.(page := Done))
    case Toggle(index, on) => w.(stored := Toggled(w.stored, index, on))
    case SetBatteries(batteries) => w.(batteries := batteries)
  }

  function Run(w: World, events: seq<Event>): World
    decreases events
  {
    if events == [] then w else Run(Next(w, events[0]), events[1..])
  }

  // --------------------------------------------------------------- the classes

  class ConfigEntry {
    var slots: seq<Slot>
    var batteries: seq<Battery>

    constructor (slots: seq<Slot>, batteries: seq<Battery>)
      ensures this.slots == slots && this.batteries == batteries
    {
      this.slots, this.batteries := slots, batteries;
    }
  }

  class TimeSlotSwitch {
    const entry: ConfigEntry
    const index: nat

    constructor (entry: ConfigEntry, index: nat)
      ensures this.entry == entry && this.index == index
    {
      this.entry, this.index := entry, index;
    }

    method UpdateSlotEnabled(on: bool)
      modifies entry`slots
      ensures entry.slots == Toggled(old(entry.slots), index, on)
    {
      var slots := entry.slots;
      if index < |slots| {
        slots := slots[index := slots[index].(hidden := slots[index].hidden[ENABLED := JsonBool(on)])];
        entry.slots := slots;
      }
    }
  }

  class OptionsFlow {
    const entry: ConfigEntry
    var page: Page
    var timeSlots: seq<Slot>
    var pending: Option<StepA>

    function View(): World
      reads this, entry
    {
      World(entry.slots, entry.batteries, Flow(page, timeSlots, pending))
    }

    constructor (entry: ConfigEntry)
      ensures this.entry == entry
      ensures View() == Next(old(World(entry.slots, entry.batteries, Flow(Done, [], None))), Open)
    {
      this.entry := entry;
      page, timeSlots, pending := Ask, [], None;
    }

    method StepTimeSlots(configure: bool)
      requires page == Ask
      modifies this, entry`slots
      ensures View() == Next(old(View()), Answer(configure))
    {
      if configure {
        timeSlots := [];
        page := Form;
      } else {
        entry.slots := [];
        page := Done;
      }
    }

    method StepAddTimeSlot(a: StepA) returns (rejection: Option<Option<FormError>>)
      requires page == Form && InScopeOptions(a.batteryScope, |entry.batteries|)
      modifies this, entry`slots
      ensures View() == Next(old(View()), SubmitForm(a))
      ensures rejection == Rejection(a, old(timeSlots))
    {
      var error := ValidateStepA(a);
      if error.Some? {
        return Some(error);
      }
      var overlap := ScanForOverlap(a, timeSlots);
      if overlap == None {
        return Some(None);
      }
      if overlap.value {
        return Some(Some(OverlappingSlots));
      }
      pending := Some(a);
      if a.socOverride || a.powerOverride {
        page := Details;
      } else {
        FinalizeTimeSlot(None);
      }
      return None;
    }

    method StepAddTimeSlotDetails(b: StepB)
      requires page == Details
      modifies this, entry`slots
      ensures View() == Next(old(View()), SubmitDetails(b))
    {
      if pending == None {
        page := Form;
      } else {
        FinalizeTimeSlot(Some(b));
      }
    }

    method FinalizeTimeSlot(stepB: Option<StepB>)
      requires pending.Some?
      modifies this, entry`slots
      ensures View() == Append(old(View()), old(pending).value, stepB)
    {
      var slot := FinalizeSlot(pending.value, stepB, Existing(entry.slots, |timeSlots|));
      timeSlots := timeSlots + [slot];
      pending := None;
      if |timeSlots| < MAX_TIME_SLOTS {
        page := More;
      } else {
        entry.slots := timeSlots;
        page := Done;
      }
    }

    method StepAddMoreSlots(more: bool)
      requires page == More
      modifies this, entry`slots
      ensures View() == Next(old(View()), SubmitMore(more))
    {
      if more {
        page := Form;
      } else {
        entry.slots := timeSlots;
        page := Done;
      }
    }
  }

  /**
   * When exactly the first page is taken, and why it is sent back otherwise:
   * for readable times and offered scopes, by the fields alone.
   */
  lemma RejectionExact(a: StepA, slots: seq<Slot>, batteries: nat)
    requires HasWindow(a) && InScopeOptions(a.batteryScope, batteries) && batteries > 0 && Comparable(slots, batteries)
    ensures var directed := a.allowCharge || a.allowDischarge;
            var powered := a.mode == Manual ==> a.powerOverride;
            var ordered := ParseTime(a.startTime).value < ParseTime(a.endTime).value || Degenerate(a);
            && (Rejection(a, slots) == Some(Some(SlotDoesNothing)) <==> !directed)
            && (Rejection(a, slots) == Some(Some(ManualRequiresPower)) <==> directed && !powered)
            && (Rejection(a, slots) == Some(Some(MidnightCrossing)) <==> directed && powered && !ordered)
            && (Rejection(a, slots) == Some(Some(OverlappingSlots)) <==>
                  directed && powered && ordered && MeetsSome(a, slots, batteries))
            && (Rejection(a, slots) == None <==> directed && powered && ordered && !MeetsSome(a, slots, batteries))
  {
    ValidationExact(a);
    if ValidateStepA(a) == None {
      ScanExact(a, slots, batteries);
    }
  }

  /** Input for a page that is not shown, a scope that is not on offer, and a rejected page change nothing at all. */
  lemma RefusedInputChangesNothing(w: World, e: Event)
    requires match e
             case Answer(_) => w.flow.page != Ask
             case SubmitForm(a) =>
               || w.flow.page != Form || !InScopeOptions(a.batteryScope, |w.batteries|)
               || Rejection(a, w.flow.timeSlots).Some?
             case SubmitDetails(_) => w.flow.page != Details
             case SubmitMore(_) => w.flow.page != More
             case _ => false
    ensures Next(w, e) == w
  {
  }

  /** The switch and a change of the batteries leave the open flow alone, and one another's part of the entry. */
  lemma FlowIsItsOwn(w: World, index: nat, on: bool, batteries: seq<Battery>)
    ensures Next(w, Toggle(index, on)).(stored := w.stored) == w
    ensures Next(w, SetBatteries(batteries)).(batteries := w.batteries) == w
  {
  }

  /** Declining the opening question clears the stored list. */
  lemma DecliningClears(w: World)
    ensures Run(w, [Open, Answer(false)]) == World([], w.batteries, Flow(Done, [], None))
  {
    assert [Open, Answer(false)][1..] == [Answer(false)] && [Answer(false)][1..] == [];
    assert Run(Next(w, Open), [Answer(false)]) == Next(Next(w, Open), Answer(false));
  }

  // ------------------------------------------------------------- over whole runs

  /** What holds of the open flow, whatever is stored. */
  ghost predicate FlowFine(flow: Flow) {
    && SlotsFine(flow.timeSlots)
    && (flow.page in {Form, Details, More} ==> |flow.timeSlots| < MAX_TIME_SLOTS)
    && (flow.pending.Some? <==> flow.page == Details)
    && (flow.pending.Some? ==> Accepted(flow.pending.value)
                               && SlotsOverlap(flow.pending.value, flow.timeSlots) == Some(false))
  }

  ghost predicate Invariant(w: World) {
    SlotsFine(w.stored) && FlowFine(w.flow)
  }

  /** A new installation, before any flow, is where every run starts. */
  lemma FreshInstall(batteries: seq<Battery>)
    ensures Invariant(World([], batteries, Flow(Done, [], None)))
  {
  }

  lemma AppendKeepsFlowFine(w: World, a: StepA, stepB: Option<StepB>)
    requires SlotsFine(w.flow.timeSlots) && |w.flow.timeSlots| < MAX_TIME_SLOTS
    requires Accepted(a) && SlotsOverlap(a, w.flow.timeSlots) == Some(false)
    ensures FlowFine(Append(w, a, stepB).flow)
    ensures Append(w, a, stepB).stored == (if Append(w, a, stepB).flow.page == Done then Append(w, a, stepB).flow.timeSlots else w.stored)
  {
    ClearOfAll(a, w.flow.timeSlots);
  }

  lemma NextForm(w: World, a: StepA)
    requires w.flow.page == Form && InScopeOptions(a.batteryScope, |w.batteries|)
    ensures Next(w, SubmitForm(a)) == AfterForm(w, a)
  {
  }

  lemma NextDetails(w: World, b: StepB)
    requires w.flow.page == Details && w.flow.pending.Some?
    ensures Next(w, SubmitDetails(b)) == Append(w, w.flow.pending.value, Some(b))
  {
  }

  /** What a step must keep of the open flow, and of the stored list if it ends the flow. */
  ghost predicate StepFine(w: World, after: World) {
    && FlowFine(after.flow)
    && (after.flow.page == Done != w.flow.page ==> SlotsFine(after.stored))
    && (SlotsFine(w.stored) ==> SlotsFine(after.stored))
  }

  lemma FormKeepsFlowFine(w: World, a: StepA)
    requires FlowFine(w.flow) && w.flow.page == Form && InScopeOptions(a.batteryScope, |w.batteries|)
    ensures StepFine(w, AfterForm(w, a))
  {
    if Rejection(a, w.flow.timeSlots).None? {
      assert Accepted(a);
      if !(a.socOverride || a.powerOverride) {
        AppendKeepsFlowFine(w, a, None);
      }
    }
  }

  lemma ToggleKeepsFine(slots: seq<Slot>, index: nat, on: bool)
    requires SlotsFine(slots)
    ensures SlotsFine(Toggled(slots, index, on))
  {
    var toggled := Toggled(slots, index, on);
    assert forall k :: 0 <= k < |toggled| ==> toggled[k].form == slots[k].form;
  }

  lemma NextKeepsFlowFine(w: World, e: Event)
    requires FlowFine(w.flow)
    ensures StepFine(w, Next(w, e))
  {
    match e
    case SubmitForm(a) =>
      if w.flow.page == Form && InScopeOptions(a.batteryScope, |w.batteries|) {
        NextForm(w, a);
        FormKeepsFlowFine(w, a);
      }
    case SubmitDetails(b) =>
      if w.flow.page == Details {
        NextDetails(w, b);
        AppendKeepsFlowFine(w, w.flow.pending.value, Some(b));
      }
    case Toggle(index, on) =>
      if SlotsFine(w.stored) {
        ToggleKeepsFine(w.stored, index, on);
      }
    case _ =>
  }

  /** Opening a flow needs nothing of the stored list, and whatever ends the flow stores a fine one. */
  lemma SavingRepairsStored(w: World, events: seq<Event>, e: Event)
    requires Next(Run(Next(w, Open), events), e).flow.page == Done != Run(Next(w, Open), events).flow.page
    ensures SlotsFine(Next(Run(Next(w, Open), events), e).stored)
  {
    RunKeepsFlowFine(Next(w, Open), events);
    NextKeepsFlowFine(Run(Next(w, Open), events), e);
  }

  lemma {:induction false} RunKeepsFlowFine(w: World, events: seq<Event>)
    requires FlowFine(w.flow)
    ensures FlowFine(Run(w, events).flow)
    decreases events
  {
    if events != [] {
      NextKeepsFlowFine(w, events[0]);
      RunKeepsFlowFine(Next(w, events[0]), events[1..]);
    }
  }

  lemma {:induction false} RunKeepsInvariant(w: World, events: seq<Event>)
    requires Invariant(w)
    ensures Invariant(Run(w, events))
    decreases events
  {
    if events != [] {
      NextKeepsFlowFine(w, events[0]);
      RunKeepsInvariant(Next(w, events[0]), events[1..]);
    }
  }

  /** After any run, no instant of a battery belongs to two stored slots. */
  lemma OneOwnerAfterAnyRun(w: World, events: seq<Event>, i: nat, j: nat,
                            batteries: nat, battery: nat, day: Weekday, t: int)
    requires Invariant(w)
    requires i < |Run(w, events).stored| && j < |Run(w, events).stored|
    requires Covers(Run(w, events).stored[i].form, batteries, battery, day, t)
    requires Covers(Run(w, events).stored[j].form, batteries, battery, day, t)
    ensures i == j
    ensures |Run(w, events).stored| <= 8
  {
    RunKeepsInvariant(w, events);
    SingleOwner(Run(w, events).stored, i, j, batteries, battery, day, t);
  }

  /** After any run every stored slot can act: a permitted direction, power for manual mode, no reversed window. */
  lemma StoredSlotsCanAct(w: World, events: seq<Event>, i: nat)
    requires Invariant(w) && i < |Run(w, events).stored|
    ensures var a := Run(w, events).stored[i].form;
            && (a.allowCharge || a.allowDischarge)
            && (a.mode == Manual ==> a.powerOverride)
            && (HasWindow(a) ==> ParseTime(a.startTime).value <= ParseTime(a.endTime).value)
            && (HasWindow(a) && ParseTime(a.startTime) == ParseTime(a.endTime) ==> Degenerate(a))
  {
    RunKeepsInvariant(w, events);
    var a := Run(w, events).stored[i].form;
    if HasWindow(a) {
      AcceptedWindow(a);
    }
  }

  /** At any point of a run the slot waiting for its second page fits: no conflict, and room for one more. */
  lemma PendingFitsAfterAnyRun(w: World, events: seq<Event>)
    requires Invariant(w) && Run(w, events).flow.pending.Some?
    ensures var flow := Run(w, events).flow;
            && |flow.timeSlots| < 8
            && forall k :: 0 <= k < |flow.timeSlots| ==> ConflictsWith(flow.pending.value, flow.timeSlots[k].form) == Some(false)
  {
    RunKeepsInvariant(w, events);
    ClearOfAll(Run(w, events).flow.pending.value, Run(w, events).flow.timeSlots);
  }

  /** The switch changes one slot's flag and nothing else, and an unchanged re-save keeps what it set. */
  lemma ToggleExact(slots: seq<Slot>, index: nat, on: bool, batteries: seq<Battery>)
    requires index < |slots|
    ensures var toggled := Toggled(slots, index, on);
            && |toggled| == |slots|
            && (forall k | 0 <= k < |slots| && k != index :: toggled[k] == slots[k])
            && toggled[index].(hidden := slots[index].hidden) == slots[index]
            && (Governs(toggled[index]) <==> on && slots[index].form.allowDischarge)
            && (Resavable(slots[index], batteries) ==> Resaved(toggled[index], batteries) == toggled[index])
  {
    var toggled := Toggled(slots, index, on);
    if Resavable(slots[index], batteries) {
      assert Resavable(toggled[index], batteries);
      ResavableIsKept(toggled[index], batteries);
    }
  }

  /**
   * After any run, under the closed reading of the window: two active slots
   * touch at the instant, and a third one means one of them is degenerate.
   */
  lemma ActiveAfterAnyRun(w: World, events: seq<Event>, i: nat, j: nat,
                          batteries: nat, battery: nat, day: Weekday, t: int)
    requires Invariant(w)
    requires i < j < |Run(w, events).stored|
    requires Active(Run(w, events).stored[i].form, batteries, battery, day, t)
    requires Active(Run(w, events).stored[j].form, batteries, battery, day, t)
    ensures var s := Run(w, events).stored;
            || ParseTime(s[i].form.endTime) == ParseTime(s[j].form.startTime) == Some(t)
            || ParseTime(s[j].form.endTime) == ParseTime(s[i].form.startTime) == Some(t)
    ensures var s := Run(w, events).stored;
            forall k | AllActive(s, i, j, k, batteries, battery, day, t) ::
              SingleInstant(s[i].form) || SingleInstant(s[j].form) || SingleInstant(s[k].form)
  {
    RunKeepsInvariant(w, events);
    ActiveTogether(Run(w, events).stored, i, j, batteries, battery, day, t);
  }

  lemma ActiveTogether(s: seq<Slot>, i: nat, j: nat, batteries: nat, battery: nat, day: Weekday, t: int)
    requires SlotsFine(s) && i < j < |s|
    requires Active(s[i].form, batteries, battery, day, t) && Active(s[j].form, batteries, battery, day, t)
    ensures || ParseTime(s[i].form.endTime) == ParseTime(s[j].form.startTime) == Some(t)
            || ParseTime(s[j].form.endTime) == ParseTime(s[i].form.startTime) == Some(t)
    ensures forall k | AllActive(s, i, j, k, batteries, battery, day, t) ::
              SingleInstant(s[i].form) || SingleInstant(s[j].form) || SingleInstant(s[k].form)
  {
    ActivePairTouches(s, i, j, batteries, battery, day, t);
    forall k | AllActive(s, i, j, k, batteries, battery, day, t)
      ensures SingleInstant(s[i].form) || SingleInstant(s[j].form) || SingleInstant(s[k].form)
    {
      ThirdActiveSlotIsDegenerate(s, i, j, k, batteries, battery, day, t);
    }
  }

  // --------------------------------------------- three active slots, reached

  lemma {:induction false} RunConcat(w: World, first: seq<Event>, second: seq<Event>)
    ensures Run(w, first + second) == Run(Run(w, first), second)
    decreases first
  {
    if first == [] {
      assert first + second == second;
    } else {
      assert (first + second)[1..] == first[1..] + second;
      RunConcat(Next(w, first[0]), first[1..], second);
    }
  }

  lemma RunTwo(w: World, e: Event, f: Event)
    ensures Run(w, [e, f]) == Next(Next(w, e), f)
  {
    var events := [e, f];
    assert events[1..] == [f] && [f][1..] == [];
    assert Run(Next(w, e), [f]) == Next(Next(w, e), f);
  }

  lemma RunThree(w: World, e: Event, f: Event, g: Event)
    ensures Run(w, [e, f, g]) == Next(Next(Next(w, e), f), g)
  {
    assert [e, f, g][1..] == [f, g];
    RunTwo(Next(w, e), f, g);
  }

  function Submissions(a: StepA, stepB: Option<StepB>, more: bool): seq<Event> {
    match stepB
    case None => [SubmitForm(a), SubmitMore(more)]
    case Some(b) => [SubmitForm(a), SubmitDetails(b), SubmitMore(more)]
  }

  /** A slot of a fine list passes when it is entered again after those before it. */
  lemma StoredFormAccepted(stored: seq<Slot>, i: nat)
    requires SlotsFine(stored) && i < |stored|
    ensures Rejection(stored[i].form, stored[..i]) == None
  {
    ClearOfAll(stored[i].form, stored[..i]);
    assert Accepted(stored[i].form);
  }

  /** Filling in both pages of `slot` as the next one. */
  lemma EntersSlot(w: World, slot: Slot, stepB: Option<StepB>, more: bool)
    requires w.flow.page == Form && w.flow.pending == None && w.stored == []
    requires if more then |w.flow.timeSlots| + 1 < MAX_TIME_SLOTS else |w.flow.timeSlots| + 1 <= MAX_TIME_SLOTS
    requires Rejection(slot.form, w.flow.timeSlots) == None && InScopeOptions(slot.form.batteryScope, |w.batteries|)
    requires stepB.Some? <==> slot.form.socOverride || slot.form.powerOverride
    requires slot == Finalized(slot.form, stepB, None)
    ensures Run(w, Submissions(slot.form, stepB, more)) ==
            World(if more then [] else w.flow.timeSlots + [slot], w.batteries,
                  Flow(if more then Form else Done, w.flow.timeSlots + [slot], None))
  {
    match stepB
    case None => RunTwo(w, SubmitForm(slot.form), SubmitMore(more));
    case Some(b) => RunThree(w, SubmitForm(slot.form), SubmitDetails(b), SubmitMore(more));
  }

  lemma RunOn(w: World, events: seq<Event>, middle: World, more: seq<Event>, end: World)
    requires Run(w, events) == middle && Run(middle, more) == end
    ensures Run(w, events + more) == end
  {
    RunConcat(w, events, more);
  }

  /** The slot is what its two pages make of it, on offer for the batteries there are. */
  predicate MadeBy(slot: Slot, stepB: Option<StepB>, batteries: nat) {
    && InScopeOptions(slot.form.batteryScope, batteries)
    && (stepB.Some? <==> slot.form.socOverride || slot.form.powerOverride)
    && slot == Finalized(slot.form, stepB, None)
  }

  /** The world with the first `i` slots entered, on the next first page or finished. */
  function Entered(batteries: seq<Battery>, slots: seq<Slot>, i: nat, more: bool): World
    requires i <= |slots|
  {
    World(if more then [] else slots[..i], batteries, Flow(if more then Form else Done, slots[..i], None))
  }

  lemma EntersNext(batteries: seq<Battery>, slots: seq<Slot>, i: nat, stepB: Option<StepB>)
    requires SlotsFine(slots) && i < |slots| && MadeBy(slots[i], stepB, |batteries|)
    ensures Run(Entered(batteries, slots, i, true), Submissions(slots[i].form, stepB, i + 1 < |slots|))
            == Entered(batteries, slots, i + 1, i + 1 < |slots|)
  {
    StoredFormAccepted(slots, i);
    EntersSlot(Entered(batteries, slots, i, true), slots[i], stepB, i + 1 < |slots|);
    PrefixGrows(slots, i);
  }

  lemma {:induction false} EnteredUpTo(batteries: seq<Battery>, slots: seq<Slot>, pages: seq<Option<StepB>>, i: nat)
    returns (events: seq<Event>)
    requires SlotsFine(slots) && |pages| == |slots| && i <= |slots| && slots != []
    requires forall k :: 0 <= k < |slots| ==> MadeBy(slots[k], pages[k], |batteries|)
    ensures Run(World([], batteries, Flow(Done, [], None)), events) == Entered(batteries, slots, i, i < |slots|)
  {
    var w := World([], batteries, Flow(Done, [], None));
    if i == 0 {
      RunTwo(w, Open, Answer(true));
      return [Open, Answer(true)];
    }
    events := EnteredUpTo(batteries, slots, pages, i - 1);
    EntersNext(batteries, slots, i - 1, pages[i - 1]);
    RunOn(w, events, Entered(batteries, slots, i - 1, true), Submissions(slots[i - 1].form, pages[i - 1], i < |slots|),
          Entered(batteries, slots, i, i < |slots|));
    events := events + Submissions(slots[i - 1].form, pages[i - 1], i < |slots|);
  }

  /**
   * The checks refuse nothing that fits: a new installation reaches every fine
   * list, slot by slot and in order, by entering its pages.
   */
  lemma EveryFineListIsReached(batteries: seq<Battery>, slots: seq<Slot>, pages: seq<Option<StepB>>) returns (events: seq<Event>)
    requires PairwiseClear(slots) && AllAccepted(slots) && |slots| <= 8 && |pages| == |slots|
    requires forall k :: 0 <= k < |slots| ==> MadeBy(slots[k], pages[k], |batteries|)
    ensures Run(World([], batteries, Flow(Done, [], None)), events).stored == slots
  {
    if slots == [] {
      return [];
    }
    events := EnteredUpTo(batteries, slots, pages, |slots|);
    WholePrefix(slots);
  }

  lemma CopiesReached(batteries: seq<Battery>, slot: Slot, stepB: Option<StepB>) returns (events: seq<Event>)
    requires SlotsFine(Copies(slot, 3)) && MadeBy(slot, stepB, |batteries|)
    ensures Run(World([], batteries, Flow(Done, [], None)), events).stored == Copies(slot, 3)
  {
    events := EveryFineListIsReached(batteries, Copies(slot, 3), seq(3, _ => stepB));
  }

  /** A new installation reaches three slots active at one instant by entering any such form three times. */
  lemma ThreeActiveSlotsReached(batteries: seq<Battery>, slot: Slot, stepB: Option<StepB>) returns (events: seq<Event>)
    requires Accepted(slot.form) && SingleInstant(slot.form) && MadeBy(slot, stepB, |batteries|) && batteries != []
    ensures ThreeActive(Run(World([], batteries, Flow(Done, [], None)), events).stored, |batteries|)
  {
    ThreeActiveSlots(slot, |batteries|);
    events := CopiesReached(batteries, slot, stepB);
  }

  // --------------------------------------------------------- unchanged re-save

  /** What the first page shows where nothing is stored yet, before its defaults fill in. */
  const BLANK := Slot(StepA("", "", [], SCOPE_ALL, false, true, false, false, Pd), map[], map[])

  /** The slot whose values the pages open with. */
  function Edited(w: World): Slot {
    var i := |w.flow.timeSlots|;
    if i < |w.stored| then w.stored[i] else BLANK
  }

  /** The second page as it opens for the pending slot. */
  function ShownDetails(w: World): StepB {
    if w.flow.pending.None? then map[] else Encode(DefaultLimits(w.flow.pending.value, Edited(w), w.batteries))
  }

  /** What submitting the page exactly as it is shown sends; a rejected page is shown again with the same values. */
  function DefaultInput(w: World): Event {
    match w.flow.page
    case Ask => Answer(w.stored != [])
    case Form => SubmitForm(DefaultForm(Edited(w).form, |w.batteries|))
    case Details => SubmitDetails(ShownDetails(w))
    case More => SubmitMore(|w.flow.timeSlots| < |w.stored|)
    case Done => Open
  }

  function AcceptDefault(w: World): World {
    if w.flow.page == Done then w else Next(w, DefaultInput(w))
  }

  function Iterate(step: World -> World, w: World, n: nat): World {
    if n == 0 then w else step(Iterate(step, w, n - 1))
  }

  /** Opening the flow and accepting `n` pages, one after the other, exactly as it shows them. */
  function AcceptDefaults(w: World, n: nat): World {
    Iterate(AcceptDefault, Next(w, Open), n)
  }

  predicate NeedsDetails(a: StepA) {
    a.socOverride || a.powerOverride
  }

  /**
   * Where such a replay of `stored` stands. `forms` are the first pages the stored
   * slots open with, `next` the slots an unchanged save makes of them; the replay
   * has collected the first of these, and stores them when it ends at the list's
   * own length or at the flow's limit.
   */
  predicate Following(w: World, stored: seq<Slot>, batteries: seq<Battery>, forms: seq<StepA>, next: seq<Slot>) {
    var n := |w.flow.timeSlots|;
    && |forms| == |stored| == |next| && w.batteries == batteries && w.flow.timeSlots <= next
    && (w.flow.page == Done || (w.stored == stored && n < MAX_TIME_SLOTS))
    && match w.flow.page
       case Ask => w.flow.pending == None && n == 0
       case Form => w.flow.pending == None && n < |stored|
       case Details => n < |stored| && w.flow.pending == Some(forms[n]) && NeedsDetails(forms[n])
       case More => w.flow.pending == None
       case Done => w.stored == w.flow.timeSlots && w.flow.pending == None && (n == |stored| || n == MAX_TIME_SLOTS)
  }

  /** What accepting one page does to it; `sure` says that no first page is rejected. */
  predicate Accepts(w: World, after: World, forms: seq<StepA>, next: seq<Slot>, sure: bool) {
    var n := |w.flow.timeSlots|;
    match w.flow.page
    case Ask => after == if w.stored == [] then w.(flow := w.flow.(page := Done)) else w.(flow := w.flow.(page := Form))
    case Form =>
      || (!sure && after == w)
      || (n < |forms| && NeedsDetails(forms[n]) && after == w.(flow := w.flow.(pending := Some(forms[n]), page := Details)))
      || (n < |next| && after == AppendSlot(w, next[n]))
    case Details => n < |next| && after == AppendSlot(w, next[n])
    case More =>
      after == if n < |w.stored| then w.(flow := w.flow.(page := Form))
               else w.(stored := w.flow.timeSlots, flow := w.flow.(page := Done))
    case Done => after == w
  }

  ghost predicate AlwaysAccepts(step: World -> World, stored: seq<Slot>, batteries: seq<Battery>,
                                forms: seq<StepA>, next: seq<Slot>, sure: bool) {
    forall w | Following(w, stored, batteries, forms, next) :: Accepts(w, step(w), forms, next, sure)
  }

  lemma AppendFollows(w: World, stored: seq<Slot>, batteries: seq<Battery>, forms: seq<StepA>, next: seq<Slot>)
    requires Following(w, stored, batteries, forms, next) && w.flow.page in {Form, Details}
    ensures Following(AppendSlot(w, next[|w.flow.timeSlots|]), stored, batteries, forms, next)
  {
    PrefixGrows(next, |w.flow.timeSlots|);
  }

  lemma StepFollows(w: World, after: World, stored: seq<Slot>, batteries: seq<Battery>, forms: seq<StepA>, next: seq<Slot>,
                    sure: bool)
    requires Following(w, stored, batteries, forms, next) && Accepts(w, after, forms, next, sure)
    ensures Following(after, stored, batteries, forms, next)
  {
    if w.flow.page in {Form, Details} {
      AppendFollows(w, stored, batteries, forms, next);
    }
  }

  lemma {:induction false} ReplayFollows(step: World -> World, w: World, n: nat, stored: seq<Slot>, batteries: seq<Battery>,
                                         forms: seq<StepA>, next: seq<Slot>, sure: bool)
    requires AlwaysAccepts(step, stored, batteries, forms, next, sure) && Following(w, stored, batteries, forms, next)
    ensures Following(Iterate(step, w, n), stored, batteries, forms, next)
  {
    if n > 0 {
      ReplayFollows(step, w, n - 1, stored, batteries, forms, next, sure);
      var before := Iterate(step, w, n - 1);
      StepFollows(before, step(before), stored, batteries, forms, next, sure);
    }
  }

  /** How many pages are still to come, at most, if none is rejected. */
  function PagesLeft(w: World, n: nat): int {
    var left := 3 * (n - |w.flow.timeSlots|);
    match w.flow.page
    case Ask => left + 1
    case Form => left
    case Details => left - 1
    case More => left + 1
    case Done => 0
  }

  lemma StepNears(w: World, after: World, stored: seq<Slot>, batteries: seq<Battery>, forms: seq<StepA>, next: seq<Slot>)
    requires Following(w, stored, batteries, forms, next) && Accepts(w, after, forms, next, true)
    ensures after.flow.page == Done || PagesLeft(after, |stored|) < PagesLeft(w, |stored|)
  {
  }

  lemma {:induction false} ReplayNears(step: World -> World, w: World, n: nat, stored: seq<Slot>, batteries: seq<Battery>,
                                       forms: seq<StepA>, next: seq<Slot>)
    requires AlwaysAccepts(step, stored, batteries, forms, next, true) && Following(w, stored, batteries, forms, next)
    ensures var end := Iterate(step, w, n);
            end.flow.page == Done || PagesLeft(end, |stored|) <= PagesLeft(w, |stored|) - n
  {
    if n > 0 {
      ReplayNears(step, w, n - 1, stored, batteries, forms, next);
      ReplayFollows(step, w, n - 1, stored, batteries, forms, next, true);
      var before := Iterate(step, w, n - 1);
      StepNears(before, step(before), stored, batteries, forms, next);
    }
  }

  lemma NoPagesLeft(end: World, stored: seq<Slot>, batteries: seq<Battery>, forms: seq<StepA>)
    requires |stored| <= MAX_TIME_SLOTS && Following(end, stored, batteries, forms, stored)
    requires end.flow.page == Done || PagesLeft(end, |stored|) <= 0
    ensures end == World(stored, batteries, Flow(Done, stored, None))
  {
  }

  // ---- what the flow itself does

  /** A page opened on a stored slot: what it shows, and what is made of it. */
  predicate OpensWith(stored: Slot, batteries: seq<Battery>, form: StepA, next: Slot) {
    form == DefaultForm(stored.form, |batteries|) && next == Resaved(stored, batteries)
  }

  ghost predicate AllOpenWith(stored: seq<Slot>, batteries: seq<Battery>, forms: seq<StepA>, next: seq<Slot>) {
    |forms| == |stored| == |next| && forall k :: 0 <= k < |stored| ==> OpensWith(stored[k], batteries, forms[k], next[k])
  }

  /** The first page as shown is on offer, so it is judged. */
  lemma AcceptForm(w: World)
    requires w.flow.page == Form
    ensures AcceptDefault(w) == AfterForm(w, DefaultForm(Edited(w).form, |w.batteries|))
  {
    NextForm(w, DefaultForm(Edited(w).form, |w.batteries|));
  }

  lemma FormMerged(w: World, form: StepA, next: Slot)
    requires |w.flow.timeSlots| < |w.stored| && OpensWith(Edited(w), w.batteries, form, next) && !NeedsDetails(form)
    ensures Append(w, form, None) == AppendSlot(w, next)
  {
  }

  lemma AcceptDetails(w: World)
    requires w.flow.page == Details && w.flow.pending.Some?
    ensures AcceptDefault(w) == Append(w, w.flow.pending.value, Some(ShownDetails(w)))
  {
    NextDetails(w, ShownDetails(w));
  }

  /** What a merge appends where something is stored. */
  lemma AppendOver(w: World, a: StepA, stepB: Option<StepB>, merged: Slot)
    requires |w.flow.timeSlots| < |w.stored| && merged == Finalized(a, stepB, Some(Edited(w)))
    ensures Append(w, a, stepB) == AppendSlot(w, merged)
  {
  }

  lemma ShownIsDefault(w: World, form: StepA, stepB: StepB)
    requires w.flow.pending == Some(form) && NeedsDetails(form) && stepB == ShownDetails(w)
    ensures DefaultStepB(form, Edited(w), w.batteries) == Some(stepB)
  {
  }

  lemma MergedIsResaved(slot: Slot, batteries: seq<Battery>, form: StepA, stepB: Option<StepB>)
    requires form == DefaultForm(slot.form, |batteries|) && stepB == DefaultStepB(form, slot, batteries)
    ensures Finalized(form, stepB, Some(slot)) == Resaved(slot, batteries)
  {
  }

  lemma DetailsMerged(w: World, form: StepA, stepB: StepB, merged: Slot)
    requires |w.flow.timeSlots| < |w.stored| && w.flow.pending == Some(form) && NeedsDetails(form)
    requires form == DefaultForm(Edited(w).form, |w.batteries|) && stepB == ShownDetails(w)
    requires merged == Finalized(form, Some(stepB), Some(Edited(w)))
    ensures Append(w, form, Some(stepB)) == AppendSlot(w, merged)
    ensures merged == Resaved(Edited(w), w.batteries)
  {
    ShownIsDefault(w, form, stepB);
    MergedIsResaved(Edited(w), w.batteries, form, Some(stepB));
    AppendOver(w, form, Some(stepB), merged);
  }

  lemma PageAccepted(w: World, form: StepA, next: Slot, forms: seq<StepA>, all: seq<Slot>, sure: bool)
    requires w.flow.page in {Form, Details} && |w.flow.timeSlots| < |w.stored| == |forms| == |all|
    requires form == forms[|w.flow.timeSlots|] && next == all[|w.flow.timeSlots|]
    requires OpensWith(Edited(w), w.batteries, form, next)
    requires w.flow.page == Details ==> w.flow.pending == Some(form) && NeedsDetails(form)
    requires sure && w.flow.page == Form ==> Rejection(form, w.flow.timeSlots) == None
    ensures Accepts(w, AcceptDefault(w), forms, all, sure)
  {
    if w.flow.page == Form {
      AcceptForm(w);
      if !NeedsDetails(form) {
        FormMerged(w, form, next);
      }
    } else {
      AcceptDetails(w);
      DetailsMerged(w, form, ShownDetails(w), Finalized(form, Some(ShownDetails(w)), Some(Edited(w))));
    }
  }

  lemma QuestionAccepted(w: World, forms: seq<StepA>, next: seq<Slot>, sure: bool)
    requires w.flow.page in {Ask, More, Done}
    requires w.flow.page == Ask ==> w.flow.timeSlots == []
    ensures Accepts(w, AcceptDefault(w), forms, next, sure)
  {
  }

  /** What the flow shows for the slot it has come to. */
  lemma EditedOpensWith(w: World, stored: seq<Slot>, batteries: seq<Battery>, forms: seq<StepA>, next: seq<Slot>)
    requires AllOpenWith(stored, batteries, forms, next) && |w.flow.timeSlots| < |stored|
    requires w.stored == stored && w.batteries == batteries
    ensures OpensWith(Edited(w), w.batteries, forms[|w.flow.timeSlots|], next[|w.flow.timeSlots|])
  {
    assert Edited(w) == stored[|w.flow.timeSlots|];
  }

  lemma OneAccepted(w: World, stored: seq<Slot>, batteries: seq<Battery>, forms: seq<StepA>, next: seq<Slot>, sure: bool)
    requires AllOpenWith(stored, batteries, forms, next) && Following(w, stored, batteries, forms, next)
    requires sure && w.flow.page == Form ==> Rejection(forms[|w.flow.timeSlots|], w.flow.timeSlots) == None
    ensures Accepts(w, AcceptDefault(w), forms, next, sure)
  {
    if w.flow.page in {Form, Details} {
      var i := |w.flow.timeSlots|;
      EditedOpensWith(w, stored, batteries, forms, next);
      PageAccepted(w, forms[i], next[i], forms, next, sure);
    } else {
      QuestionAccepted(w, forms, next, sure);
    }
  }

  lemma FlowAccepts(stored: seq<Slot>, batteries: seq<Battery>, forms: seq<StepA>, next: seq<Slot>, sure: bool)
    requires AllOpenWith(stored, batteries, forms, next)
    requires sure ==> forall i: nat | i < |stored| :: Rejection(forms[i], next[..i]) == None
    ensures AlwaysAccepts(AcceptDefault, stored, batteries, forms, next, sure)
  {
    forall w | Following(w, stored, batteries, forms, next) ensures Accepts(w, AcceptDefault(w), forms, next, sure) {
      assert w.flow.timeSlots == next[..|w.flow.timeSlots|];
      OneAccepted(w, stored, batteries, forms, next, sure);
    }
  }

  /** Every slot comes back unchanged from an unchanged save. */
  ghost predicate AllResavable(stored: seq<Slot>, batteries: seq<Battery>) {
    forall k :: 0 <= k < |stored| ==> Resavable(stored[k], batteries)
  }

  lemma KeptOpensWith(slot: Slot, batteries: seq<Battery>)
    requires Resavable(slot, batteries)
    ensures OpensWith(slot, batteries, slot.form, slot)
  {
    ResavableIsKept(slot, batteries);
  }

  /**
   * Opening the flow and accepting every page as shown stores the same list again,
   * disabled flags included, after at most three pages a slot and the opening question.
   */
  lemma UnchangedResave(w: World, n: nat)
    requires SlotsFine(w.stored) && AllResavable(w.stored, w.batteries) && n > 3 * |w.stored|
    ensures AcceptDefaults(w, n) == w.(flow := Flow(Done, w.stored, None))
  {
    var stored, asked := w.stored, Next(w, Open);
    var forms := seq(|stored|, k requires 0 <= k < |stored| => stored[k].form);
    forall k | 0 <= k < |stored| ensures OpensWith(stored[k], w.batteries, forms[k], stored[k]) {
      KeptOpensWith(stored[k], w.batteries);
    }
    forall i: nat | i < |stored| ensures Rejection(forms[i], stored[..i]) == None {
      StoredFormAccepted(stored, i);
    }
    FlowAccepts(stored, w.batteries, forms, stored, true);
    ReplayFollows(AcceptDefault, asked, n, stored, w.batteries, forms, stored, true);
    ReplayNears(AcceptDefault, asked, n, stored, w.batteries, forms, stored);
    NoPagesLeft(AcceptDefaults(w, n), stored, w.batteries, forms);
  }

  /** The replay ended with the list it began with. */
  predicate EndsUnchanged(end: World, stored: seq<Slot>) {
    end.flow.page == Done && end.stored == stored
  }

  lemma EndedUnchangedIsResaved(w: World, n: nat, k: nat)
    requires EndsUnchanged(AcceptDefaults(w, n), w.stored) && k < |w.stored|
    ensures Resaved(w.stored[k], w.batteries) == w.stored[k]
  {
    var forms := seq(|w.stored|, i requires 0 <= i < |w.stored| => DefaultForm(w.stored[i].form, |w.batteries|));
    var next := seq(|w.stored|, i requires 0 <= i < |w.stored| => Resaved(w.stored[i], w.batteries));
    FlowAccepts(w.stored, w.batteries, forms, next, false);
    ReplayFollows(AcceptDefault, Next(w, Open), n, w.stored, w.batteries, forms, next, false);
    assert next[k] == w.stored[k];
  }

  /** Whatever ends a flow stores a fine list. */
  ghost predicate FineSoFar(w: World) {
    FlowFine(w.flow) && (w.flow.page == Done ==> SlotsFine(w.stored))
  }

  lemma {:induction false} IterateKeeps(step: World -> World, p: World -> bool, w: World, n: nat)
    requires p(w) && forall v | p(v) :: p(step(v))
    ensures p(Iterate(step, w, n))
  {
    if n > 0 {
      IterateKeeps(step, p, w, n - 1);
    }
  }

  lemma ReplayStoresFine(w: World, n: nat)
    requires AcceptDefaults(w, n).flow.page == Done
    ensures SlotsFine(AcceptDefaults(w, n).stored)
  {
    forall v | FineSoFar(v) ensures FineSoFar(AcceptDefault(v)) {
      if v.flow.page != Done {
        NextKeepsFlowFine(v, DefaultInput(v));
      }
    }
    IterateKeeps(AcceptDefault, v => FineSoFar(v), Next(w, Open), n);
  }

  lemma EndedUnchangedNeeds(w: World, n: nat)
    requires EndsUnchanged(AcceptDefaults(w, n), w.stored)
    ensures SlotsFine(w.stored) && AllResavable(w.stored, w.batteries)
  {
    ReplayStoresFine(w, n);
    forall k | 0 <= k < |w.stored| ensures Resavable(w.stored[k], w.batteries) {
      EndedUnchangedIsResaved(w, n, k);
      ResaveExact(w.stored[k], w.batteries);
    }
  }

  /**
   * Accepting every page as shown ever ends with the stored list exactly when that
   * list is fine and every slot resavable; otherwise it ends with another one or
   * stays at a rejected page for good.
   */
  lemma UnchangedResaveExact(w: World)
    ensures (exists n: nat :: EndsUnchanged(AcceptDefaults(w, n), w.stored)) <==>
            SlotsFine(w.stored) && AllResavable(w.stored, w.batteries)
  {
    if n: nat :| EndsUnchanged(AcceptDefaults(w, n), w.stored) {
      EndedUnchangedNeeds(w, n);
    }
    if SlotsFine(w.stored) && AllResavable(w.stored, w.batteries) {
      var n := 3 * |w.stored| + 1;
      UnchangedResave(w, n);
      assert EndsUnchanged(AcceptDefaults(w, n), w.stored);
    }
  }
}
