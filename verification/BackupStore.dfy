/**
 * The persisted totals of the backup meter: loading filters malformed records,
 * and a restart rebuilds the meter from its record without the sampling state.
 */
module BackupStore {
  import opened Wrappers
  import opened BackupEnergy

  datatype Record = Record(totalKwh: real, dailyKwh: real, resetDate: Option<int>)

  /** One value of the stored document; a missing key is `None`. */
  datatype Raw = NotADict | Dict(total: Option<Reading>, daily: Option<Reading>, resetDate: Option<int>)

  predicate NonNegative(value: Reading) {
    value.Number? && value.r >= 0.0
  }

  /** The record a stored value loads as, if it survives the filter. */
  function Kept(raw: Raw): Option<Record> {
    if raw.NotADict? || raw.total.None? then None
    else
      var daily := if raw.daily.None? then Number(0.0) else raw.daily.value;
      if NonNegative(raw.total.value) && NonNegative(daily)
      then Some(Record(raw.total.value.r, daily.r, raw.resetDate))
      else None
  }

  /** `data` is what loading `stored` must produce: every surviving record, nothing else. */
  ghost predicate LoadedFrom(data: map<string, Record>, stored: map<string, Raw>) {
    && (forall k :: k in data <==> k in stored && Kept(stored[k]).Some?)
    && (forall k | k in data :: Kept(stored[k]) == Some(data[k]))
  }

  /** Lifetime and same-day totals; another day's record contributes no daily energy. */
  function Restored(data: map<string, Record>, key: string, today: int): Record {
    if key !in data then Record(0.0, 0.0, Some(today))
    else Record(data[key].totalKwh, if data[key].resetDate == Some(today) then data[key].dailyKwh else 0.0, Some(today))
  }

  class BackupDischargeEnergyStore {
    var data: map<string, Record>

    constructor ()
      ensures data == map[]
    {
      data := map[];
    }

    method Load(stored: map<string, Raw>)
      modifies this
      ensures LoadedFrom(data, stored)
    {
      var kept: map<string, Record> := map[];
      var left := stored.Keys;
      while left != {}
        invariant left <= stored.Keys
        invariant forall k :: k in kept <==> k in stored && k !in left && Kept(stored[k]).Some?
        invariant forall k | k in kept :: Kept(stored[k]) == Some(kept[k])
      {
        var k :| k in left;
        var record := Kept(stored[k]);
        if record.Some? {
          kept := kept[k := record.value];
        }
        left := left - {k};
      }
      data := kept;
    }

    function Get(key: string, today: int): Record
      reads this
    {
      Restored(data, key, today)
    }

    method Set(key: string, totalKwh: real, dailyKwh: real, resetDate: Option<int>)
      modifies this
      ensures data == old(data)[key := Record(totalKwh, dailyKwh, resetDate)]
    {
      data := data[key := Record(totalKwh, dailyKwh, resetDate)];
    }
  }

  /** One battery: its meter, the store it shares with the others, and its published data. */
  class BackupCoordinator {
    const accumulator: BackupDischargeAccumulator
    const store: BackupDischargeEnergyStore
    const key: string
    const data: CoordinatorData

    constructor (store: BackupDischargeEnergyStore, key: string, data: CoordinatorData, today: int)
      ensures this.store == store && this.key == key && this.data == data && fresh(accumulator)
      ensures accumulator.View() == MeterFrom(store.Get(key, today))
    {
      this.store, this.key, this.data := store, key, data;
      var restored := store.Get(key, today);
      accumulator := new BackupDischargeAccumulator(restored.totalKwh, restored.dailyKwh, restored.resetDate);
    }

    method UpdateBackupDischargeEnergy(sample: Option<Sample>)
      modifies accumulator, store, data
      ensures World(accumulator.View(), store.data) == Polled(old(World(accumulator.View(), store.data)), key, sample)
      ensures data.values == Published(old(data.values), accumulator.View())
    {
      var changed := false;
      if sample.Some? {
        changed := accumulator.Observe(sample.value);
      }
      accumulator.Publish(data);
      if changed {
        store.Set(key, accumulator.kwh, accumulator.dailyKwh, accumulator.resetDate);
      }
    }
  }

  // ------------------------------------------------------------ meter and record

  /** The running meter of one battery and the store's records of all of them. */
  datatype World = World(meter: Meter, data: map<string, Record>)

  function RecordOf(m: Meter): Record {
    Record(m.kwh, m.dailyKwh, m.resetDate)
  }

  /** A record is written only when a sample counted. */
  function Step(w: World, key: string, s: Sample): World {
    var m := Observed(w.meter, s);
    World(m, if Counts(w.meter, s) then w.data[key := RecordOf(m)] else w.data)
  }

  function Polled(w: World, key: string, sample: Option<Sample>): World {
    match sample case None => w case Some(s) => Step(w, key, s)
  }

  function Steps(w: World, key: string, samples: seq<Sample>): World
    decreases samples
  {
    var n := |samples|;
    if n == 0 then w else Step(Steps(w, key, samples[..n - 1]), key, samples[n - 1])
  }

  function MeterFrom(r: Record): Meter {
    Meter(r.totalKwh, r.dailyKwh, r.resetDate, None, false)
  }

  /** The meter and the records right after a start on the given local date, whatever was recorded before. */
  function Rebuilt(data: map<string, Record>, key: string, start: int): World {
    World(MeterFrom(Restored(data, key, start)), data)
  }

  /** What the store writes to disk. */
  function Persisted(data: map<string, Record>): map<string, Raw> {
    map k | k in data :: Dict(Some(Number(data[k].totalKwh)), Some(Number(data[k].dailyKwh)), data[k].resetDate)
  }

  predicate AllNonNegative(data: map<string, Record>) {
    forall k | k in data :: data[k].totalKwh >= 0.0 && data[k].dailyKwh >= 0.0
  }

  /** Which stored values survive loading, and as what: a non-negative total, and no bad daily total. */
  lemma LoadFilterExact(loaded: map<string, Record>, stored: map<string, Raw>, key: string)
    requires LoadedFrom(loaded, stored) && key in stored
    ensures key in loaded <==>
            && stored[key].Dict?
            && stored[key].total.Some? && stored[key].total.value.Number? && stored[key].total.value.r >= 0.0
            && (stored[key].daily.None? || (stored[key].daily.value.Number? && stored[key].daily.value.r >= 0.0))
    ensures key in loaded ==>
            loaded[key] == Record(stored[key].total.value.r,
                                  if stored[key].daily.None? then 0.0 else stored[key].daily.value.r, stored[key].resetDate)
  {
    if key in loaded {
      assert Kept(stored[key]) == Some(loaded[key]);
    }
  }

  /** The load filter drops no record with non-negative totals, and changes none. */
  lemma LoadKeepsRecords(data: map<string, Record>, loaded: map<string, Record>)
    requires AllNonNegative(data) && LoadedFrom(loaded, Persisted(data))
    ensures loaded == data
  {
    var stored := Persisted(data);
    assert forall k | k in stored :: Kept(stored[k]) == Some(data[k]);
  }

  /** Whatever the document holds, everything loaded from it is non-negative. */
  lemma LoadedIsNonNegative(loaded: map<string, Record>, stored: map<string, Raw>)
    requires LoadedFrom(loaded, stored)
    ensures AllNonNegative(loaded)
  {
    forall k | k in loaded ensures loaded[k].totalKwh >= 0.0 && loaded[k].dailyKwh >= 0.0 {
      assert Kept(stored[k]) == Some(loaded[k]);
    }
  }

  lemma StepsMeter(w: World, key: string, samples: seq<Sample>)
    ensures Steps(w, key, samples).meter == Run(w.meter, samples)
  {
  }

  lemma {:induction false} OthersUntouched(w: World, key: string, samples: seq<Sample>)
    ensures Steps(w, key, samples).data - {key} == w.data - {key}
  {
    if samples != [] {
      OthersUntouched(w, key, samples[..|samples| - 1]);
    }
  }

  /** The totals are non-negative and the record carries the meter's lifetime total. */
  predicate TotalsSynced(w: World, key: string) {
    && w.meter.kwh >= 0.0 && w.meter.dailyKwh >= 0.0 && AllNonNegative(w.data)
    && w.meter.kwh == (if key in w.data then w.data[key].totalKwh else 0.0)
  }

  lemma {:induction false} StepsKeepTotalsSynced(w: World, key: string, samples: seq<Sample>)
    requires TotalsSynced(w, key)
    ensures TotalsSynced(Steps(w, key, samples), key)
  {
    var n := |samples|;
    if n > 0 {
      StepsKeepTotalsSynced(w, key, samples[..n - 1]);
      var before, s := Steps(w, key, samples[..n - 1]), samples[n - 1];
      if Counts(before.meter, s) {
        EnergyPositive(s.power.r, s.now - before.meter.last.value);
      }
    }
  }

  // -------------------------------------------------------------------- restarts

  /** Stop, write, load, and rebuild the meter on the given local date. */
  ghost predicate RestartsAs(data: map<string, Record>, key: string, today: int, m: Meter) {
    exists loaded :: LoadedFrom(loaded, Persisted(data)) && m == MeterFrom(Restored(loaded, key, today))
  }

  lemma RestartIsRebuilt(data: map<string, Record>, key: string, today: int, m: Meter)
    requires AllNonNegative(data) && RestartsAs(data, key, today, m)
    ensures m == MeterFrom(Restored(data, key, today))
  {
    var loaded :| LoadedFrom(loaded, Persisted(data)) && m == MeterFrom(Restored(loaded, key, today));
    LoadKeepsRecords(data, loaded);
  }

  lemma {:induction false} IntegralConcat(s: seq<Sample>, t: seq<Sample>)
    requires s != [] && t != []
    ensures Integral(s + t) == Integral(s) + Between(s[|s| - 1], t[0]) + Integral(t)
  {
    var n := |t|;
    assert (s + t)[..|s + t| - 1] == s + t[..n - 1];
    if n == 1 {
      assert s + t[..0] == s;
    } else {
      IntegralConcat(s, t[..n - 1]);
    }
  }

  lemma {:induction false} RunConcat(m: Meter, s: seq<Sample>, t: seq<Sample>)
    ensures Run(m, s + t) == Run(Run(m, s), t)
  {
    var n := |t|;
    if n == 0 {
      assert s + t == s;
    } else {
      assert (s + t)[..|s + t| - 1] == s + t[..n - 1];
      RunConcat(m, s, t[..n - 1]);
    }
  }

  /**
   * A restart between `s` and `t` costs exactly the interval joining them, and
   * that interval is worth at most its power over the largest accepted gap.
   */
  lemma RestartLosesOneInterval(w: World, key: string, s: seq<Sample>, today: int, t: seq<Sample>, restarted: Meter)
    requires TotalsSynced(w, key) && w.meter.last == None && s != [] && t != []
    requires RestartsAs(Steps(w, key, s).data, key, today, restarted)
    ensures Run(restarted, t).kwh == Run(w.meter, s + t).kwh - Between(s[|s| - 1], t[0])
    ensures 0.0 <= Between(s[|s| - 1], t[0])
    ensures IsActive(t[0].power) ==> Between(s[|s| - 1], t[0]) <= Energy(t[0].power.r, MAX_GAP_S)
  {
    var after := Steps(w, key, s);
    StepsMeter(w, key, s);
    StepsKeepTotalsSynced(w, key, s);
    RestartIsRebuilt(after.data, key, today, restarted);
    RunIsIntegral(restarted, t);
    RunIsIntegral(w.meter, s);
    RunIsIntegral(w.meter, s + t);
    IntegralConcat(s, t);
  }

  /** One life of a meter: the local date it is rebuilt on, and its samples until the next restart. */
  datatype Life = Life(start: int, samples: seq<Sample>)

  function AfterLife(data: map<string, Record>, key: string, life: Life): map<string, Record> {
    Steps(Rebuilt(data, key, life.start), key, life.samples).data
  }

  /** The records after all lives, each rebuilt from what the ones before left behind. */
  function AfterLives(data: map<string, Record>, key: string, lives: seq<Life>): map<string, Record>
    decreases lives
  {
    var n := |lives|;
    if n == 0 then data else AfterLife(AfterLives(data, key, lives[..n - 1]), key, lives[n - 1])
  }

  function SumOfIntegrals(lives: seq<Life>): real {
    var n := |lives|;
    if n == 0 then 0.0 else SumOfIntegrals(lives[..n - 1]) + Integral(lives[n - 1].samples)
  }

  lemma LifeTotal(data: map<string, Record>, key: string, life: Life, today: int)
    requires AllNonNegative(data)
    ensures AllNonNegative(AfterLife(data, key, life))
    ensures Restored(AfterLife(data, key, life), key, today).totalKwh
            == Restored(data, key, today).totalKwh + Integral(life.samples)
  {
    var w := Rebuilt(data, key, life.start);
    StepsKeepTotalsSynced(w, key, life.samples);
    StepsMeter(w, key, life.samples);
    RunIsIntegral(w.meter, life.samples);
  }

  /** Over any number of restarts the recorded lifetime total is the start plus every life's own integral. */
  lemma {:induction false} LifetimeOverRestarts(data: map<string, Record>, key: string, lives: seq<Life>, today: int)
    requires AllNonNegative(data)
    ensures AllNonNegative(AfterLives(data, key, lives))
    ensures Restored(AfterLives(data, key, lives), key, today).totalKwh
            == Restored(data, key, today).totalKwh + SumOfIntegrals(lives)
    decreases lives
  {
    var n := |lives|;
    if n > 0 {
      LifetimeOverRestarts(data, key, lives[..n - 1], today);
      LifeTotal(AfterLives(data, key, lives[..n - 1]), key, lives[n - 1], today);
    }
  }

  // ------------------------------------------------- the daily total over a restart

  /** The local date the meter stands on after `samples`. */
  function DateAfter(start: int, samples: seq<Sample>): int {
    if samples == [] then start else samples[|samples| - 1].date
  }

  /** The local date changed after the record was last written, so the record is older than the meter. */
  predicate Stale(data: map<string, Record>, key: string, start: int, samples: seq<Sample>) {
    var n := |samples|;
    if n == 0 then key in data && data[key].resetDate != Some(start)
    else
      && (n == 1 || Between(samples[n - 2], samples[n - 1]) == 0.0)
      && (Stale(data, key, start, samples[..n - 1]) || DateAfter(start, samples[..n - 1]) != samples[n - 1].date)
  }

  /** The record carries the meter's totals until the date changes, and then the meter's day is still empty. */
  predicate Tracks(w: World, key: string, stale: bool) {
    if key in w.data && !stale then w.data[key] == RecordOf(w.meter) else w.meter.dailyKwh == 0.0
  }

  lemma {:induction false} RecordTracksMeter(data: map<string, Record>, key: string, start: int, samples: seq<Sample>)
    ensures var w := Steps(Rebuilt(data, key, start), key, samples);
            Tracks(w, key, Stale(data, key, start, samples)) && w.meter.resetDate == Some(DateAfter(start, samples))
  {
    var n := |samples|;
    if n > 0 {
      var w0 := Rebuilt(data, key, start);
      RecordTracksMeter(data, key, start, samples[..n - 1]);
      StepsMeter(w0, key, samples[..n - 1]);
      CountsBetween(w0.meter, samples);
    }
  }

  /** From a meter without a sample, an interval counts exactly when its two ends say so. */
  lemma CountsBetween(m: Meter, samples: seq<Sample>)
    requires m.last == None && samples != []
    ensures var n := |samples|;
            Counts(Run(m, samples[..n - 1]), samples[n - 1]) <==> n > 1 && Between(samples[n - 2], samples[n - 1]) > 0.0
  {
    var n := |samples|;
    if n > 1 {
      LastSample(m, samples[..n - 1]);
    }
  }

  /**
   * Rebuilding on `today` gives the daily total the running meter would have
   * rolled over to, unless a stale non-zero record happens to carry that very date.
   */
  lemma RestartDailyExact(data: map<string, Record>, key: string, start: int, samples: seq<Sample>, today: int)
    ensures var w := Steps(Rebuilt(data, key, start), key, samples);
            Restored(w.data, key, today).dailyKwh == RolledOver(w.meter, today).dailyKwh <==>
            !(key in w.data && w.data[key].resetDate == Some(today) && w.data[key].dailyKwh != 0.0
              && Stale(data, key, start, samples))
  {
    RecordTracksMeter(data, key, start, samples);
  }

  /** The record, if there is one, is dated no later than `date`. */
  predicate DatedBy(data: map<string, Record>, key: string, date: int) {
    key in data && data[key].resetDate.Some? ==> data[key].resetDate.value <= date
  }

  /** Dates only move forward, from `start` on. */
  predicate ForwardFrom(start: int, samples: seq<Sample>) {
    ForwardDates(samples) && (samples != [] ==> start <= samples[0].date)
  }

  /** A stale record is from an earlier day as long as dates only move forward. */
  lemma {:induction false} StaleRecordIsOlder(data: map<string, Record>, key: string, start: int, samples: seq<Sample>)
    requires ForwardFrom(start, samples) && DatedBy(data, key, start)
    ensures var w, date := Steps(Rebuilt(data, key, start), key, samples), DateAfter(start, samples);
            && DatedBy(w.data, key, date)
            && (key in w.data && Stale(data, key, start, samples) ==> w.data[key].resetDate != Some(date))
  {
    var n := |samples|;
    if n > 0 {
      var w0, before := Rebuilt(data, key, start), samples[..n - 1];
      StaleRecordIsOlder(data, key, start, before);
      StepsMeter(w0, key, before);
      CountsBetween(w0.meter, samples);
      if n > 1 {
        assert before[n - 2] == samples[n - 2];
      }
    }
  }

  /** Two meters that differ only by an amount lost from the totals. */
  predicate Behind(ahead: Meter, behind: Meter, total: real, daily: real) {
    ahead == behind.(kwh := behind.kwh + total, dailyKwh := behind.dailyKwh + daily)
  }

  predicate SameDay(t: seq<Sample>, date: int) {
    forall i :: 0 <= i < |t| ==> t[i].date == date
  }

  /** The lost amount stays missing from the lifetime total and, until the next rollover, from the daily one. */
  lemma {:induction false} StaysBehind(ahead: Meter, behind: Meter, lost: real, t: seq<Sample>)
    requires Behind(ahead, behind, lost, lost) && ahead.resetDate.Some?
    ensures Behind(Run(ahead, t), Run(behind, t), lost, if SameDay(t, ahead.resetDate.value) then lost else 0.0)
    ensures SameDay(t, ahead.resetDate.value) ==> Run(ahead, t).resetDate == ahead.resetDate
  {
    var n := |t|;
    if n > 0 {
      StaysBehind(ahead, behind, lost, t[..n - 1]);
      assert SameDay(t, ahead.resetDate.value) <==>
             SameDay(t[..n - 1], ahead.resetDate.value) && t[n - 1].date == ahead.resetDate.value;
    }
  }

  /** What a restart rebuilds from the running meter: its totals as of `today`, without the sampling state. */
  lemma RestartedMeter(data: map<string, Record>, key: string, start: int, s: seq<Sample>, today: int, restarted: Meter)
    requires AllNonNegative(data) && ForwardFrom(start, s) && DatedBy(data, key, start) && DateAfter(start, s) <= today
    requires RestartsAs(Steps(Rebuilt(data, key, start), key, s).data, key, today, restarted)
    ensures var running := Run(Rebuilt(data, key, start).meter, s);
            restarted == Meter(running.kwh, RolledOver(running, today).dailyKwh, Some(today), None, false)
  {
    var w0 := Rebuilt(data, key, start);
    var w := Steps(w0, key, s);
    StepsMeter(w0, key, s);
    StepsKeepTotalsSynced(w0, key, s);
    RestartIsRebuilt(w.data, key, today, restarted);
    StaleRecordIsOlder(data, key, start, s);
    RestartDailyExact(data, key, start, s, today);
  }

  /** How far such a meter is behind after more samples. */
  lemma RestartedStaysBehind(running: Meter, restarted: Meter, last: Sample, today: int, t: seq<Sample>)
    requires running.last == Some(last.now) && running.lastActive == IsActive(last.power) && running.resetDate == Some(last.date)
    requires restarted == Meter(running.kwh, RolledOver(running, today).dailyKwh, Some(today), None, false)
    requires t != [] && last.date <= today <= t[0].date
    ensures Run(restarted, t).dailyKwh == Run(running, t).dailyKwh - (if SameDay(t, t[0].date) then Between(last, t[0]) else 0.0)
  {
    var rest := t[1..];
    FirstSampleAfterRestart(running, restarted, last, today, t[0]);
    StaysBehind(Observed(running, t[0]), Observed(restarted, t[0]), Between(last, t[0]), rest);
    assert SameDay(t, t[0].date) <==> SameDay(rest, t[0].date) by {
      assert forall i :: 1 <= i < |t| ==> t[i] == rest[i - 1];
    }
    RunFromFirst(running, t);
    RunFromFirst(restarted, t);
  }

  /**
   * While dates only move forward, a restart makes the daily total short by the
   * joining interval on the date of the first sample after it, and by nothing on
   * any later date; the restart may fall on any date between the two samples.
   */
  lemma RestartDailyLoss(data: map<string, Record>, key: string, start: int, s: seq<Sample>, today: int, t: seq<Sample>,
                         restarted: Meter)
    requires AllNonNegative(data) && s != [] && t != [] && ForwardFrom(start, s + t) && DatedBy(data, key, start)
    requires s[|s| - 1].date <= today <= t[0].date
    requires RestartsAs(Steps(Rebuilt(data, key, start), key, s).data, key, today, restarted)
    ensures Run(restarted, t).dailyKwh == Run(Rebuilt(data, key, start).meter, s + t).dailyKwh
            - (if SameDay(t, t[0].date) then Between(s[|s| - 1], t[0]) else 0.0)
  {
    var m := Rebuilt(data, key, start).meter;
    ForwardParts(s, t);
    RestartedMeter(data, key, start, s, today, restarted);
    LastSample(m, s);
    RestartedStaysBehind(Run(m, s), restarted, s[|s| - 1], today, t);
    RunConcat(m, s, t);
  }

  lemma RunFromFirst(m: Meter, t: seq<Sample>)
    requires t != []
    ensures Run(m, t) == Run(Observed(m, t[0]), t[1..])
  {
    assert t == [t[0]] + t[1..] && [t[0]][..0] == [];
    RunConcat(m, [t[0]], t[1..]);
    assert Run(m, [t[0]]) == Observed(Run(m, [t[0]][..0]), t[0]);
  }

  /** Dates only move forward, over all lives, from the record's date up to `today`. */
  predicate ForwardLives(data: map<string, Record>, key: string, lives: seq<Life>, today: int)
    decreases lives
  {
    var n := |lives|;
    if n == 0 then DatedBy(data, key, today)
    else
      var life := lives[n - 1];
      && ForwardFrom(life.start, life.samples) && DateAfter(life.start, life.samples) <= today
      && ForwardLives(data, key, lives[..n - 1], life.start)
  }

  function SumOnDate(lives: seq<Life>, date: int): real {
    var n := |lives|;
    if n == 0 then 0.0 else SumOnDate(lives[..n - 1], date) + OnDate(lives[n - 1].samples, date)
  }

  /** From any rebuilt meter, the daily total is what was restored for that day and what the run itself counted on it. */
  lemma {:induction false} DailyFromRestored(m: Meter, start: int, samples: seq<Sample>)
    requires ForwardFrom(start, samples) && m.last == None && m.resetDate == Some(start)
    ensures var date := DateAfter(start, samples);
            Run(m, samples).dailyKwh == OnDate(samples, date) + (if start == date then m.dailyKwh else 0.0)
  {
    var n := |samples|;
    if n > 0 {
      var before := samples[..n - 1];
      DailyFromRestored(m, start, before);
      CountsBetween(m, samples);
      if n > 1 {
        LastSample(m, before);
        assert before[n - 2] == samples[n - 2];
        if samples[n - 2].date != samples[n - 1].date {
          NothingLater(before, samples[n - 1].date);
        }
      }
    }
  }

  /** One life adds to the record's total for `today` exactly the intervals it counted on that date. */
  lemma LifeDaily(data: map<string, Record>, key: string, life: Life, today: int)
    requires ForwardFrom(life.start, life.samples) && DatedBy(data, key, life.start)
    requires DateAfter(life.start, life.samples) <= today
    ensures DatedBy(AfterLife(data, key, life), key, today)
    ensures Restored(AfterLife(data, key, life), key, today).dailyKwh
            == Restored(data, key, today).dailyKwh + OnDate(life.samples, today)
  {
    var start, s := life.start, life.samples;
    var w0 := Rebuilt(data, key, start);
    StaleRecordIsOlder(data, key, start, s);
    RestartDailyExact(data, key, start, s, today);
    RecordTracksMeter(data, key, start, s);
    StepsMeter(w0, key, s);
    DailyFromRestored(w0.meter, start, s);
    if DateAfter(start, s) < today {
      NothingLater(s, today);
    }
  }

  /**
   * Over any number of restarts, while dates move forward, the recorded total of
   * `today` is what was recorded for it and what every life counted on it.
   */
  lemma {:induction false} DailyOverRestarts(data: map<string, Record>, key: string, lives: seq<Life>, today: int)
    requires ForwardLives(data, key, lives, today)
    ensures DatedBy(AfterLives(data, key, lives), key, today)
    ensures Restored(AfterLives(data, key, lives), key, today).dailyKwh
            == Restored(data, key, today).dailyKwh + SumOnDate(lives, today)
    decreases lives
  {
    var n := |lives|;
    if n > 0 {
      var before, life := lives[..n - 1], lives[n - 1];
      DailyOverRestarts(data, key, before, life.start);
      StartsBy(life, today);
      ForwardToLater(data, key, before, life.start, today);
      DailyOverRestarts(data, key, before, today);
      LifeDaily(AfterLives(data, key, before), key, life, today);
    }
  }

  lemma StartsBy(life: Life, today: int)
    requires ForwardFrom(life.start, life.samples) && DateAfter(life.start, life.samples) <= today
    ensures life.start <= today
  {
  }

  lemma ForwardToLater(data: map<string, Record>, key: string, lives: seq<Life>, date: int, later: int)
    requires ForwardLives(data, key, lives, date) && date <= later
    ensures ForwardLives(data, key, lives, later)
  {
  }

  lemma ForwardParts(s: seq<Sample>, t: seq<Sample>)
    requires s != [] && t != [] && ForwardDates(s + t)
    ensures ForwardDates(s) && s[|s| - 1].date <= t[0].date
  {
    var st := s + t;
    assert st[|s| - 1] == s[|s| - 1] && st[|s|] == t[0];
    forall i, j | 0 <= i < j < |s| ensures s[i].date <= s[j].date {
      assert st[i] == s[i] && st[j] == s[j];
    }
  }

  lemma FirstSampleAfterRestart(running: Meter, restarted: Meter, last: Sample, today: int, first: Sample)
    requires running.last == Some(last.now) && running.lastActive == IsActive(last.power) && running.resetDate == Some(last.date)
    requires restarted == Meter(running.kwh, RolledOver(running, today).dailyKwh, Some(today), None, false)
    requires last.date <= today <= first.date
    ensures Behind(Observed(running, first), Observed(restarted, first), Between(last, first), Between(last, first))
  {
  }

  /** With a clock that is set back a day, the rebuilt daily total can exceed the running one. */
  lemma DateSetBack()
    ensures var s := [Sample(0.0, Number(1000.0), 5), Sample(360.0, Number(1000.0), 5), Sample(400.0, Number(0.0), 6)];
            var w := Steps(Rebuilt(map[], "entry:0", 5), "entry:0", s);
            RolledOver(w.meter, 5).dailyKwh == 0.0 && Restored(w.data, "entry:0", 5).dailyKwh == 0.1
  {
    var s := [Sample(0.0, Number(1000.0), 5), Sample(360.0, Number(1000.0), 5), Sample(400.0, Number(0.0), 6)];
    var key := "entry:0";
    assert s[..2] == [s[0], s[1]] && s[..2][..1] == [s[0]] && s[..2][..1][..0] == [];
    var w1 := Step(Rebuilt(map[], key, 5), key, s[0]);
    assert w1 == World(Meter(0.0, 0.0, Some(5), Some(0.0), true), map[]);
    var w2 := Step(w1, key, s[1]);
    assert w2 == World(Meter(0.1, 0.1, Some(5), Some(360.0), true), map[key := Record(0.1, 0.1, Some(5))]);
    assert Steps(Rebuilt(map[], key, 5), key, s[..2][..1]) == w1;
    assert Steps(Rebuilt(map[], key, 5), key, s[..2]) == w2;
  }

  // ------------------------------------------- the corrected meter over restarts

  /** A poll, or a stop and a new start on the given local date. */
  datatype Event = Polling(poll: Poll) | Restart(today: int)

  function After(w: World, key: string, events: seq<Event>): World
    decreases events
  {
    var n := |events|;
    if n == 0 then w
    else
      var before := After(w, key, events[..n - 1]);
      match events[n - 1]
      case Polling(poll) => Polled(before, key, poll.sample)
      case Restart(today) => Rebuilt(before.data, key, today)
  }

  /** No poll and no restart loses lifetime energy. */
  lemma {:induction false} LifetimeNeverFalls(w: World, key: string, events: seq<Event>, i: nat)
    requires TotalsSynced(w, key) && i <= |events|
    ensures TotalsSynced(After(w, key, events), key)
    ensures After(w, key, events[..i]).meter.kwh <= After(w, key, events).meter.kwh
    decreases events
  {
    var n := |events|;
    if n > 0 {
      var before, e := After(w, key, events[..n - 1]), events[n - 1];
      LifetimeNeverFalls(w, key, events[..n - 1], if i < n then i else 0);
      if e.Polling? && e.poll.sample.Some? && Counts(before.meter, e.poll.sample.value) {
        EnergyPositive(e.poll.sample.value.power.r, e.poll.sample.value.now - before.meter.last.value);
      }
    }
    if i < n {
      assert events[..n - 1][..i] == events[..i];
    } else {
      assert events[..i] == events;
    }
  }

  /** The corrected total shown after event `i`, a poll. */
  function Shown(w: World, key: string, events: seq<Event>, i: nat): Option<real>
    requires i < |events| && events[i].Polling?
  {
    EffectiveTotal(Published(events[i].poll.values, After(w, key, events[..i + 1]).meter))
  }

  /** The valid hardware readings never fall from one poll to a later one. */
  predicate RawNeverFalls(events: seq<Event>) {
    forall a, b :: 0 <= a < b < |events| && events[a].Polling? && events[b].Polling?
      && Valid(events[a].poll.values, RAW_KEY).Some? && Valid(events[b].poll.values, RAW_KEY).Some?
      ==> Valid(events[a].poll.values, RAW_KEY).value <= Valid(events[b].poll.values, RAW_KEY).value
  }

  /** The corrected meter does not run backwards over any polls and restarts either. */
  lemma CorrectedOverRestarts(w: World, key: string, events: seq<Event>, i: nat, j: nat)
    requires TotalsSynced(w, key) && RawNeverFalls(events)
    requires i <= j < |events| && events[i].Polling? && events[j].Polling?
    requires Shown(w, key, events, i).Some? && Shown(w, key, events, j).Some?
    ensures Shown(w, key, events, i).value <= Shown(w, key, events, j).value
  {
    LifetimeNeverFalls(w, key, events[..i + 1], 0);
    LifetimeNeverFalls(w, key, events[..j + 1], i + 1);
    assert events[..j + 1][..i + 1] == events[..i + 1];
    ReadAfterPublish(events[i].poll.values, After(w, key, events[..i + 1]).meter);
    ReadAfterPublish(events[j].poll.values, After(w, key, events[..j + 1]).meter);
  }
}
