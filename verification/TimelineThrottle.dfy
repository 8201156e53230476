/**
 * Publication of the operation timeline: structural events go out at once,
 * continuous activity is coalesced behind one timer at the throttle edge.
 */
module TimelineThrottle {
  import opened Wrappers

  const THROTTLE_S := 15.0

  /** Whether the entity belongs to a running system, and whether that system has an event loop. */
  datatype Host = Detached | Live(hasLoop: bool)

  datatype Publication = Publication(at: real, immediate: bool)

  /** The entity's fields, the event loop's live timers, and everything published so far. */
  datatype Throttle = Throttle(
    last: real, handle: Option<nat>, host: Host, subscribed: bool,
    timers: map<nat, real>, nextId: nat,
    log: seq<Publication>)

  datatype Event = Update(now: real, immediate: bool) | Fire(now: real, id: nat) | Remove(now: real)

  function Cancelled(s: Throttle): Throttle {
    s.(handle := None, timers := if s.handle.Some? then s.timers - {s.handle.value} else s.timers)
  }

  function PublishedAt(s: Throttle, now: real, immediate: bool): Throttle {
    if s.host.Detached? then s.(handle := None)
    else s.(handle := None, last := now, log := s.log + [Publication(now, immediate)])
  }

  function Updated(s: Throttle, now: real, immediate: bool): Throttle {
    var remaining := THROTTLE_S - (now - s.last);
    if s.host.Detached? then s
    else if immediate || remaining <= 0.0 then PublishedAt(Cancelled(s), now, immediate)
    else if s.handle.None? && s.host.hasLoop then
      s.(handle := Some(s.nextId), timers := s.timers[s.nextId := now + remaining], nextId := s.nextId + 1)
    else s
  }

  function Next(s: Throttle, e: Event): Throttle {
    match e
    case Update(now, immediate) => Updated(s, now, immediate)
    case Fire(now, id) => PublishedAt(s.(timers := s.timers - {id}), now, false)
    case Remove(_) => Cancelled(s).(subscribed := false)
  }

  // ----------------------------------------------------------------- the classes

  /** The event loop's timer queue. */
  class EventLoop {
    var timers: map<nat, real>
    var nextId: nat

    constructor ()
      ensures timers == map[] && nextId == 0
    {
      timers, nextId := map[], 0;
    }

    method CallLater(due: real) returns (id: nat)
      modifies this
      ensures id == old(nextId) && nextId == id + 1 && timers == old(timers)[id := due]
    {
      id := nextId;
      timers := timers[id := due];
      nextId := nextId + 1;
    }

    method Cancel(id: nat)
      modifies this
      ensures timers == old(timers) - {id} && nextId == old(nextId)
    {
      timers := timers - {id};
    }
  }

  class DailyOperationTimelineSensor {
    const loop: EventLoop
    var host: Host
    var subscribed: bool
    var lastEventUpdateAt: real
    var timelinePublishHandle: Option<nat>
    ghost var log: seq<Publication>

    ghost function View(): Throttle
      reads this, loop
    {
      Throttle(lastEventUpdateAt, timelinePublishHandle, host, subscribed, loop.timers, loop.nextId, log)
    }

    constructor (loop: EventLoop, hasLoop: bool)
      ensures this.loop == loop
      ensures View() == Throttle(0.0, None, Live(hasLoop), false, loop.timers, loop.nextId, [])
    {
      this.loop := loop;
      host, subscribed := Live(hasLoop), false;
      lastEventUpdateAt, timelinePublishHandle, log := 0.0, None, [];
    }

    /** The manager's listener is registered; it is the only caller of the update handler. */
    method AsyncAddedToHass()
      modifies this
      ensures View() == old(View()).(subscribed := true)
    {
      subscribed := true;
    }

    /** The callbacks registered for removal: the timer is cancelled and the listener unsubscribed. */
    method AsyncRemove(ghost now: real)
      modifies this, loop
      ensures View() == Next(old(View()), Remove(now))
    {
      CancelTimelinePublish();
      subscribed := false;
    }

    method CancelTimelinePublish()
      modifies this, loop
      ensures View() == Cancelled(old(View()))
    {
      var handle := timelinePublishHandle;
      timelinePublishHandle := None;
      if handle != None {
        loop.Cancel(handle.value);
      }
    }

    method PublishTimelineUpdate(now: real, ghost immediate: bool)
      modifies this
      ensures View() == PublishedAt(old(View()), now, immediate)
    {
      timelinePublishHandle := None;
      if host == Detached {
        return;
      }
      lastEventUpdateAt := now;
      log := log + [Publication(now, immediate)];
    }

    method HandleTimelineUpdate(now: real, immediate: bool)
      modifies this, loop
      ensures View() == Next(old(View()), Update(now, immediate))
    {
      if host == Detached {
        return;
      }
      if immediate {
        CancelTimelinePublish();
        PublishTimelineUpdate(now, true);
        return;
      }
      var remaining := THROTTLE_S - (now - lastEventUpdateAt);
      if remaining <= 0.0 {
        CancelTimelinePublish();
        PublishTimelineUpdate(now, false);
        return;
      }
      if timelinePublishHandle == None {
        if host.hasLoop {
          var id := loop.CallLater(now + remaining);
          timelinePublishHandle := Some(id);
        }
      }
    }

    /** The event loop pops a due timer and runs its callback. */
    method TimerFires(now: real, id: nat)
      requires id in loop.timers
      modifies this, loop
      ensures View() == Next(old(View()), Fire(now, id))
    {
      loop.Cancel(id);
      PublishTimelineUpdate(now, false);
    }
  }

  // ------------------------------------------------------------- over whole runs

  /** Time does not go back, only a due timer of the loop can fire, and only a subscribed entity is told of updates. */
  predicate Legal(s: Throttle, now: real, e: Event) {
    && now <= e.now && (e.Fire? ==> e.id in s.timers && s.timers[e.id] <= e.now)
    && (e.Update? ==> s.subscribed)
  }

  function Run(s: Throttle, events: seq<Event>): Throttle
    decreases events
  {
    if events == [] then s else Run(Next(s, events[0]), events[1..])
  }

  predicate LegalRun(s: Throttle, now: real, events: seq<Event>)
    decreases events
  {
    events == [] || (Legal(s, now, events[0]) && LegalRun(Next(s, events[0]), events[0].now, events[1..]))
  }

  function EndTime(now: real, events: seq<Event>): real {
    if events == [] then now else events[|events| - 1].now
  }

  /** One timer at most, it is the one the entity holds, and it is due one throttle after the last publication. */
  predicate OneTimer(s: Throttle) {
    && s.timers.Keys == (if s.handle.Some? then {s.handle.value} else {})
    && (s.handle.Some? ==> s.timers[s.handle.value] == s.last + THROTTLE_S)
    && (s.host.Detached? ==> s.handle.None?)
    && (forall id | id in s.timers :: id < s.nextId)
  }

  /** Publications are in order, and the non-immediate ones keep their distance to whatever came before. */
  predicate Spaced(log: seq<Publication>) {
    forall k :: 0 < k < |log| ==>
      log[k - 1].at + (if log[k].immediate then 0.0 else THROTTLE_S) <= log[k].at
  }

  predicate Invariant(s: Throttle, now: real) {
    && OneTimer(s) && Spaced(s.log) && s.last <= now
    && (s.log != [] ==> s.last == s.log[|s.log| - 1].at)
  }

  /** A sensor just created and added, at any time of the monotonic clock. */
  lemma FreshSensor(hasLoop: bool, nextId: nat, now: real)
    requires now >= 0.0
    ensures Invariant(Throttle(0.0, None, Live(hasLoop), true, map[], nextId, []), now)
  {
  }

  lemma NextKeepsInvariant(s: Throttle, now: real, e: Event)
    requires Invariant(s, now) && Legal(s, now, e)
    ensures Invariant(Next(s, e), e.now)
  {
  }

  /** In every legal run, late timers included: one timer at the edge, and no non-immediate publication too early. */
  lemma {:induction false} RunKeepsInvariant(s: Throttle, now: real, events: seq<Event>)
    requires Invariant(s, now) && LegalRun(s, now, events)
    ensures Invariant(Run(s, events), EndTime(now, events))
    decreases events
  {
    if events != [] {
      NextKeepsInvariant(s, now, events[0]);
      RunKeepsInvariant(Next(s, events[0]), events[0].now, events[1..]);
    }
  }

  // ------------------------------------------------------------------------ rate

  /** The number of non-immediate publications in the window `[a, b]`. */
  function CoalescedIn(log: seq<Publication>, a: real, b: real): nat {
    var n := |log|;
    if n == 0 then 0
    else CoalescedIn(log[..n - 1], a, b) + (if !log[n - 1].immediate && a <= log[n - 1].at <= b then 1 else 0)
  }

  lemma {:induction false} LastOfMany(log: seq<Publication>, a: real, b: real)
    requires Spaced(log) && CoalescedIn(log, a, b) > 0
    ensures log[|log| - 1].at >= a + THROTTLE_S * (CoalescedIn(log, a, b) - 1) as real
    ensures THROTTLE_S * (CoalescedIn(log, a, b) - 1) as real <= b - a
  {
    var n := |log|;
    if n > 1 && CoalescedIn(log[..n - 1], a, b) > 0 {
      LastOfMany(log[..n - 1], a, b);
    }
  }

  /** Any window of length `span` holds at most `floor(span / 15) + 1` non-immediate publications. */
  lemma RateBound(s: Throttle, now: real, events: seq<Event>, a: real, span: real)
    requires Invariant(s, now) && LegalRun(s, now, events) && span >= 0.0
    ensures CoalescedIn(Run(s, events).log, a, a + span) <= (span / 15.0).Floor + 1
  {
    RunKeepsInvariant(s, now, events);
    var log := Run(s, events).log;
    if CoalescedIn(log, a, a + span) > 0 {
      LastOfMany(log, a, a + span);
      var count := (CoalescedIn(log, a, a + span) - 1) as real;
      assert count <= span / THROTTLE_S;
    }
  }

  // ----------------------------------------------------------------------- delay

  /** No live timer is overdue when the event happens. */
  predicate OnTime(s: Throttle, e: Event) {
    forall id | id in s.timers :: e.now <= s.timers[id]
  }

  predicate OnTimeRun(s: Throttle, events: seq<Event>)
    decreases events
  {
    events == [] || (OnTime(s, events[0]) && OnTimeRun(Next(s, events[0]), events[1..]))
  }

  predicate NeverRemoved(events: seq<Event>) {
    forall i :: 0 <= i < |events| ==> !events[i].Remove?
  }

  /** Something was published in `[from, till]`. */
  predicate PublishedWithin(log: seq<Publication>, from: real, till: real) {
    exists k :: 0 <= k < |log| && from <= log[k].at <= till
  }

  lemma {:induction false} LogGrows(s: Throttle, events: seq<Event>)
    ensures s.log <= Run(s, events).log
    decreases events
  {
    if events != [] {
      LogGrows(Next(s, events[0]), events[1..]);
    }
  }

  /** A pending timer either still waits at the end of the run or was overtaken by a publication before its edge. */
  lemma {:induction false} PendingIsServed(s: Throttle, now: real, events: seq<Event>)
    requires Invariant(s, now) && LegalRun(s, now, events) && OnTimeRun(s, events) && NeverRemoved(events)
    requires s.handle.Some? && now <= s.last + THROTTLE_S
    ensures var end := Run(s, events);
            || PublishedWithin(end.log, now, s.last + THROTTLE_S)
            || (end.handle.Some? && end.last == s.last && EndTime(now, events) <= s.last + THROTTLE_S)
    decreases events
  {
    if events != [] {
      var e, next, rest := events[0], Next(s, events[0]), events[1..];
      NextKeepsInvariant(s, now, e);
      assert NeverRemoved(rest) by {
        assert forall i :: 0 <= i < |rest| ==> rest[i] == events[i + 1];
      }
      if next.handle.Some? {
        PendingIsServed(next, e.now, rest);
        assert next.last == s.last;
        if PublishedWithin(Run(next, rest).log, e.now, s.last + THROTTLE_S) {
          var k :| 0 <= k < |Run(next, rest).log| && e.now <= Run(next, rest).log[k].at <= s.last + THROTTLE_S;
          assert PublishedWithin(Run(s, events).log, now, s.last + THROTTLE_S);
        }
      } else {
        LogGrows(next, rest);
        var k := |s.log|;
        assert next.log[k] == Run(s, events).log[k] && next.log[k].at == e.now;
        assert PublishedWithin(Run(s, events).log, now, s.last + THROTTLE_S);
      }
    }
  }

  /** When an update must be out: at once if it is immediate or the throttle has passed, else at the throttle's edge. */
  function Deadline(s: Throttle, e: Event): real
    requires e.Update?
  {
    if e.immediate || e.now >= s.last + 15.0 then e.now else s.last + 15.0
  }

  /**
   * With timers on time, an update at `e.now` is published by its deadline: once
   * the run is past that, a publication in between is in the log.
   */
  lemma UpdateIsPublished(s: Throttle, now: real, e: Event, rest: seq<Event>)
    requires Invariant(s, now) && s.host == Live(true) && e.Update?
    requires LegalRun(s, now, [e] + rest) && OnTimeRun(s, [e] + rest) && NeverRemoved(rest)
    requires EndTime(e.now, rest) > Deadline(s, e)
    ensures PublishedWithin(Run(s, [e] + rest).log, e.now, Deadline(s, e)) && Deadline(s, e) <= e.now + 15.0
  {
    assert ([e] + rest)[1..] == rest;
    NextKeepsInvariant(s, now, e);
    var next := Next(s, e);
    if next.handle.Some? {
      assert next.last == s.last;
      PendingIsServed(next, e.now, rest);
      if PublishedWithin(Run(next, rest).log, e.now, next.last + THROTTLE_S) {
        var k :| 0 <= k < |Run(next, rest).log| && e.now <= Run(next, rest).log[k].at <= next.last + THROTTLE_S;
      }
    } else {
      LogGrows(next, rest);
      var k := |s.log|;
      assert next.log[k] == Run(s, [e] + rest).log[k] && next.log[k].at == e.now;
    }
  }

  /** What a run adds to the log is marked immediate only where an immediate update asked for it. */
  lemma {:induction false} ImmediateOnRequest(s: Throttle, events: seq<Event>, k: nat)
    requires |s.log| <= k < |Run(s, events).log| && Run(s, events).log[k].immediate
    ensures Update(Run(s, events).log[k].at, true) in events
    decreases events
  {
    if events != [] {
      LogGrows(Next(s, events[0]), events[1..]);
      if k >= |Next(s, events[0]).log| {
        ImmediateOnRequest(Next(s, events[0]), events[1..], k);
        assert Update(Run(s, events).log[k].at, true) in events[1..];
      } else {
        assert events[0] == Update(Run(s, events).log[k].at, true);
      }
    }
  }

  /** Removal leaves no timer and no listener, so nothing is published any more even while the host lives on. */
  lemma SilentAfterRemoval(s: Throttle, now: real, events: seq<Event>)
    requires OneTimer(s) && LegalRun(Next(s, Remove(now)), now, events)
    ensures Run(Next(s, Remove(now)), events).log == s.log && Run(Next(s, Remove(now)), events).timers == map[]
  {
    UnsubscribedStaysSilent(Next(s, Remove(now)), now, events);
  }

  lemma {:induction false} UnsubscribedStaysSilent(s: Throttle, now: real, events: seq<Event>)
    requires !s.subscribed && s.timers == map[] && s.handle.None? && LegalRun(s, now, events)
    ensures Run(s, events).log == s.log && Run(s, events).timers == map[]
    decreases events
  {
    if events != [] {
      UnsubscribedStaysSilent(Next(s, events[0]), events[0].now, events[1..]);
    }
  }
}
