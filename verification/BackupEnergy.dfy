/**
 * The backup-port energy meter: sampled power is integrated over intervals whose
 * two ends are active and not too far apart, per lifetime and per local day.
 */
module BackupEnergy {
  import opened Wrappers

  const MAX_GAP_S := 600.0
  const WATT_SECONDS_PER_KWH := 3_600_000.0

  /** What `float()` makes of a value. */
  datatype Reading = Number(r: real) | NonFinite | Unparsable

  /** One power sample; local dates are counted in days. */
  datatype Sample = Sample(now: real, power: Reading, date: int)

  datatype Meter = Meter(kwh: real, dailyKwh: real, resetDate: Option<int>, last: Option<real>, lastActive: bool)

  const ZERO := Meter(0.0, 0.0, None, None, false)

  /** The energy in kWh of a constant power. */
  function Energy(watts: real, seconds: real): real {
    watts * seconds / WATT_SECONDS_PER_KWH
  }

  predicate IsActive(power: Reading) {
    power.Number? && power.r > 0.0
  }

  function RolledOver(m: Meter, date: int): Meter {
    if m.resetDate != Some(date) then m.(dailyKwh := 0.0, resetDate := Some(date)) else m
  }

  /** The interval since the previous sample counts. */
  predicate Counts(m: Meter, s: Sample) {
    m.last.Some? && 0.0 < s.now - m.last.value <= MAX_GAP_S && m.lastActive && IsActive(s.power)
  }

  function Observed(m: Meter, s: Sample): Meter {
    var rolled := RolledOver(m, s.date).(last := Some(s.now), lastActive := IsActive(s.power));
    if Counts(m, s) then
      var energy := Energy(s.power.r, s.now - m.last.value);
      rolled.(kwh := rolled.kwh + energy, dailyKwh := rolled.dailyKwh + energy)
    else rolled
  }

  class BackupDischargeAccumulator {
    var kwh: real
    var dailyKwh: real
    var resetDate: Option<int>
    var lastSampleMonotonic: Option<real>
    var lastSampleActive: bool

    function View(): Meter
      reads this
    {
      Meter(kwh, dailyKwh, resetDate, lastSampleMonotonic, lastSampleActive)
    }

    constructor (kwh: real, dailyKwh: real, resetDate: Option<int>)
      ensures View() == Meter(kwh, dailyKwh, resetDate, None, false)
    {
      this.kwh, this.dailyKwh, this.resetDate := kwh, dailyKwh, resetDate;
      lastSampleMonotonic, lastSampleActive := None, false;
    }

    method Observe(s: Sample) returns (changed: bool)
      modifies this
      ensures View() == Observed(old(View()), s)
      ensures changed <==> kwh > old(kwh)
      ensures changed <==> Counts(old(View()), s)
    {
      if resetDate != Some(s.date) {
        dailyKwh := 0.0;
        resetDate := Some(s.date);
      }
      var last := lastSampleMonotonic;
      lastSampleMonotonic := Some(s.now);
      if s.power == Unparsable {
        lastSampleActive := false;
        return false;
      }
      var currentSampleActive := s.power.Number? && s.power.r > 0.0;
      var previousSampleActive := lastSampleActive;
      lastSampleActive := currentSampleActive;
      if last == None {
        return false;
      }
      var elapsed := s.now - last.value;
      if elapsed <= 0.0 || elapsed > MAX_GAP_S {
        return false;
      }
      if !previousSampleActive || !currentSampleActive {
        return false;
      }
      EnergyPositive(s.power.r, elapsed);
      var energy := Energy(s.power.r, elapsed);
      kwh := kwh + energy;
      dailyKwh := dailyKwh + energy;
      return true;
    }

    method Publish(data: CoordinatorData)
      modifies data
      ensures data.values == Published(old(data.values), old(View()))
    {
      data.values := data.values[BACKUP_KEY := Number(kwh)][BACKUP_DAILY_KEY := Number(dailyKwh)];
      if RAW_KEY !in data.values || !data.values[RAW_KEY].Number? || data.values[RAW_KEY].r < 0.0 {
        data.values := data.values - {EFFECTIVE_KEY};
        return;
      }
      data.values := data.values[EFFECTIVE_KEY := Number(data.values[RAW_KEY].r + kwh)];
    }
  }

  lemma EnergyMonotone(watts: real, a: real, b: real)
    requires watts >= 0.0 && a <= b
    ensures Energy(watts, a) <= Energy(watts, b)
  {
    assert watts * (b - a) >= 0.0;
  }

  lemma EnergyPositive(watts: real, seconds: real)
    requires watts > 0.0 && seconds > 0.0
    ensures Energy(watts, seconds) > 0.0
  {
  }

  // -------------------------------------------------------- what a run adds up to

  /** The energy of one interval, from its two end samples alone. */
  function Between(p: Sample, q: Sample): (energy: real)
    ensures energy >= 0.0
    ensures IsActive(q.power) ==> energy <= Energy(q.power.r, MAX_GAP_S)
    ensures energy > 0.0 <==> IsActive(p.power) && IsActive(q.power) && 0.0 < q.now - p.now <= MAX_GAP_S
  {
    if IsActive(p.power) && IsActive(q.power) && 0.0 < q.now - p.now <= MAX_GAP_S then
      EnergyPositive(q.power.r, q.now - p.now);
      EnergyMonotone(q.power.r, q.now - p.now, MAX_GAP_S);
      Energy(q.power.r, q.now - p.now)
    else 0.0
  }

  /** Energy is proportional to power and to time, and a kilowatt for an hour is a kilowatt hour. */
  lemma EnergyLaws(a: real, b: real, x: real, y: real)
    ensures Energy(a + b, x) == Energy(a, x) + Energy(b, x)
    ensures Energy(a, x + y) == Energy(a, x) + Energy(a, y)
    ensures Energy(1000.0, 3600.0) == 1.0
  {
    assert (a + b) * x == a * x + b * x;
    assert a * (x + y) == a * x + a * y;
  }

  function Integral(samples: seq<Sample>): (energy: real)
    ensures energy >= 0.0
  {
    var n := |samples|;
    if n < 2 then 0.0 else Integral(samples[..n - 1]) + Between(samples[n - 2], samples[n - 1])
  }

  /** Each further sample adds its own power over the gap, if both ends are active and the gap is at most ten minutes. */
  lemma IntegralNext(samples: seq<Sample>, q: Sample)
    requires samples != []
    ensures var p := samples[|samples| - 1];
            var counted := p.power.Number? && p.power.r > 0.0 && q.power.Number? && q.power.r > 0.0
                           && 0.0 < q.now - p.now <= 600.0;
            Integral(samples + [q]) == Integral(samples) + (if counted then q.power.r * (q.now - p.now) / 3_600_000.0 else 0.0)
  {
    assert (samples + [q])[..|samples|] == samples;
  }

  function Run(m: Meter, samples: seq<Sample>): Meter
    decreases samples
  {
    var n := |samples|;
    if n == 0 then m else Observed(Run(m, samples[..n - 1]), samples[n - 1])
  }

  /** After at least one sample the sampling state is that of the last one. */
  lemma LastSample(m: Meter, samples: seq<Sample>)
    requires samples != []
    ensures var end, s := Run(m, samples), samples[|samples| - 1];
            end.last == Some(s.now) && end.lastActive == IsActive(s.power) && end.resetDate == Some(s.date)
  {
  }

  /** The meter refines its integral: a run from a meter without a sample adds exactly the counted intervals. */
  lemma {:induction false} RunIsIntegral(m: Meter, samples: seq<Sample>)
    requires m.last == None
    ensures Run(m, samples).kwh == m.kwh + Integral(samples)
  {
    var n := |samples|;
    if n > 0 {
      RunIsIntegral(m, samples[..n - 1]);
      if n > 1 {
        LastSample(m, samples[..n - 1]);
      }
    }
  }

  predicate ForwardClock(samples: seq<Sample>) {
    forall i, j :: 0 <= i < j < |samples| ==> samples[i].now <= samples[j].now
  }

  predicate PowerAtMost(samples: seq<Sample>, limit: real) {
    forall i :: 0 <= i < |samples| && samples[i].power.Number? ==> samples[i].power.r <= limit
  }

  lemma GainStep(gain: real, more: real, limit: real, a: real, b: real, c: real)
    requires gain <= Energy(limit, b - a) && more <= Energy(limit, c - b)
    ensures gain + more <= Energy(limit, c - a)
  {
    assert limit * (b - a) + limit * (c - b) == limit * (c - a);
  }

  /** On a clock that never goes back, power at most `limit` bounds the gain by the elapsed time. */
  lemma {:induction false} GainBound(samples: seq<Sample>, limit: real)
    requires limit >= 0.0 && samples != [] && ForwardClock(samples) && PowerAtMost(samples, limit)
    ensures Integral(samples) <= Energy(limit, samples[|samples| - 1].now - samples[0].now)
  {
    var n := |samples|;
    if n == 1 {
      assert limit * 0.0 == 0.0;
    } else {
      var before, p, q := samples[..n - 1], samples[n - 2], samples[n - 1];
      GainBound(before, limit);
      IntervalBound(p, q, limit);
      GainStep(Integral(before), Between(p, q), limit, samples[0].now, p.now, q.now);
    }
  }

  lemma IntervalBound(p: Sample, q: Sample, limit: real)
    requires p.now <= q.now && limit >= 0.0 && (q.power.Number? ==> q.power.r <= limit)
    ensures Between(p, q) <= Energy(limit, q.now - p.now)
  {
    var d := q.now - p.now;
    EnergyMonotone(limit, 0.0, d);
    if IsActive(q.power) {
      assert (limit - q.power.r) * d >= 0.0;
    }
  }

  // ------------------------------------------------------------------------ days

  /** The counted energy of the days that ended during the run. */
  function ClosedDays(m: Meter, samples: seq<Sample>): real {
    var n := |samples|;
    if n == 0 then 0.0 else
      var before := Run(m, samples[..n - 1]);
      ClosedDays(m, samples[..n - 1]) + (if before.resetDate != Some(samples[n - 1].date) then before.dailyKwh else 0.0)
  }

  /** From a zero start, the closed days plus the current day are the lifetime total. */
  lemma {:induction false} DayConservation(samples: seq<Sample>)
    ensures ClosedDays(ZERO, samples) + Run(ZERO, samples).dailyKwh == Run(ZERO, samples).kwh
    ensures 0.0 <= Run(ZERO, samples).dailyKwh <= Run(ZERO, samples).kwh
    ensures ClosedDays(ZERO, samples) >= 0.0
  {
    var n := |samples|;
    if n > 0 {
      DayConservation(samples[..n - 1]);
      var m, s := Run(ZERO, samples[..n - 1]), samples[n - 1];
      if Counts(m, s) {
        EnergyPositive(s.power.r, s.now - m.last.value);
      }
    }
  }

  /** The counted energy of intervals ending on `date`. */
  function OnDate(samples: seq<Sample>, date: int): (energy: real)
    ensures 0.0 <= energy <= Integral(samples)
  {
    var n := |samples|;
    if n < 2 then 0.0
    else OnDate(samples[..n - 1], date)
         + (if samples[n - 1].date == date then Between(samples[n - 2], samples[n - 1]) else 0.0)
  }

  predicate ForwardDates(samples: seq<Sample>) {
    forall i, j :: 0 <= i < j < |samples| ==> samples[i].date <= samples[j].date
  }

  lemma {:induction false} NothingLater(samples: seq<Sample>, date: int)
    requires forall i :: 0 <= i < |samples| ==> samples[i].date != date
    ensures OnDate(samples, date) == 0.0
  {
    if |samples| >= 2 {
      NothingLater(samples[..|samples| - 1], date);
    }
  }

  /** While dates only move forward, the daily total is what the intervals ending today sum to. */
  lemma {:induction false} DailyIsToday(samples: seq<Sample>)
    requires samples != [] && ForwardDates(samples)
    ensures Run(ZERO, samples).dailyKwh == OnDate(samples, samples[|samples| - 1].date)
  {
    var n := |samples|;
    if n > 1 {
      var before := samples[..n - 1];
      DailyIsToday(before);
      LastSample(ZERO, before);
      if samples[n - 2].date != samples[n - 1].date {
        NothingLater(before, samples[n - 1].date);
      }
    }
  }

  // ------------------------------------------------------------- corrected meter

  const RAW_KEY := "total_discharging_energy"
  const BACKUP_KEY := "backup_discharging_energy"
  const BACKUP_DAILY_KEY := "backup_daily_discharging_energy"
  const EFFECTIVE_KEY := "effective_total_discharging_energy"

  /** The coordinator's data dictionary, restricted to numeric keys; `None` is an absent key. */
  class CoordinatorData {
    var values: map<string, Reading>

    constructor (values: map<string, Reading>)
      ensures this.values == values
    {
      this.values := values;
    }
  }

  function Valid(values: map<string, Reading>, key: string): Option<real> {
    if key in values && values[key].Number? && values[key].r >= 0.0 then Some(values[key].r) else None
  }

  function Published(values: map<string, Reading>, m: Meter): map<string, Reading> {
    var both := values[BACKUP_KEY := Number(m.kwh)][BACKUP_DAILY_KEY := Number(m.dailyKwh)];
    match Valid(both, RAW_KEY)
    case None => both - {EFFECTIVE_KEY}
    case Some(raw) => both[EFFECTIVE_KEY := Number(raw + m.kwh)]
  }

  function EffectiveTotal(values: map<string, Reading>): Option<real> {
    if values == map[] then None
    else if EFFECTIVE_KEY in values && values[EFFECTIVE_KEY] != Unparsable then Valid(values, EFFECTIVE_KEY)
    else Valid(values, RAW_KEY)
  }

  lemma KeysDistinct()
    ensures RAW_KEY != BACKUP_KEY && RAW_KEY != BACKUP_DAILY_KEY && RAW_KEY != EFFECTIVE_KEY
    ensures EFFECTIVE_KEY != BACKUP_KEY && EFFECTIVE_KEY != BACKUP_DAILY_KEY && BACKUP_KEY != BACKUP_DAILY_KEY
  {
    assert |RAW_KEY| == 24 && |BACKUP_KEY| == 25 && |BACKUP_DAILY_KEY| == 31 && |EFFECTIVE_KEY| == 34;
  }

  /**
   * Publishing sets the two backup totals, and the corrected one exactly when the
   * hardware value is valid; it leaves every other key, and doing it again changes nothing.
   */
  lemma PublishedTotals(values: map<string, Reading>, m: Meter, key: string)
    ensures var after := Published(values, m);
            && BACKUP_KEY in after && after[BACKUP_KEY] == Number(m.kwh)
            && BACKUP_DAILY_KEY in after && after[BACKUP_DAILY_KEY] == Number(m.dailyKwh)
            && (EFFECTIVE_KEY in after <==> Valid(values, RAW_KEY).Some?)
            && (key !in {BACKUP_KEY, BACKUP_DAILY_KEY, EFFECTIVE_KEY} ==>
                  (key in after <==> key in values) && (key in values ==> after[key] == values[key]))
    ensures Published(Published(values, m), m) == Published(values, m)
  {
    KeysDistinct();
    var both := values[BACKUP_KEY := Number(m.kwh)][BACKUP_DAILY_KEY := Number(m.dailyKwh)];
    assert Valid(both, RAW_KEY) == Valid(values, RAW_KEY);
    var after := Published(values, m);
    assert Valid(after, RAW_KEY) == Valid(values, RAW_KEY);
    assert after[BACKUP_KEY := Number(m.kwh)][BACKUP_DAILY_KEY := Number(m.dailyKwh)] == after;
  }

  /** Reading after publishing: hardware plus integrated energy, and nothing without a valid hardware value. */
  lemma ReadAfterPublish(values: map<string, Reading>, m: Meter)
    requires m.kwh >= 0.0
    ensures EffectiveTotal(Published(values, m)) ==
            match Valid(values, RAW_KEY) case None => None case Some(raw) => Some(raw + m.kwh)
    ensures EffectiveTotal(Published(values, m)) ==
            if RAW_KEY in values && values[RAW_KEY].Number? && values[RAW_KEY].r >= 0.0
            then Some(values[RAW_KEY].r + m.kwh) else None
  {
    KeysDistinct();
    assert BACKUP_KEY in Published(values, m);
    assert Valid(values[BACKUP_KEY := Number(m.kwh)][BACKUP_DAILY_KEY := Number(m.dailyKwh)], RAW_KEY) == Valid(values, RAW_KEY);
  }

  /** A battery that never publishes a corrected total reads as its hardware value, if that is a non-negative number. */
  lemma ReadUnpublished(values: map<string, Reading>)
    requires EFFECTIVE_KEY !in values || values[EFFECTIVE_KEY] == Unparsable
    ensures EffectiveTotal(values) ==
            if RAW_KEY in values && values[RAW_KEY].Number? && values[RAW_KEY].r >= 0.0 then Some(values[RAW_KEY].r) else None
  {
  }

  /** One poll of the device: perhaps a power sample, and the dictionary it left behind. */
  datatype Poll = Poll(sample: Option<Sample>, values: map<string, Reading>)

  function MeterAfter(m: Meter, polls: seq<Poll>): Meter
    decreases polls
  {
    var n := |polls|;
    if n == 0 then m
    else
      var before := MeterAfter(m, polls[..n - 1]);
      match polls[n - 1].sample case None => before case Some(s) => Observed(before, s)
  }

  /** The corrected total shown after poll `i`. */
  function Corrected(m: Meter, polls: seq<Poll>, i: nat): Option<real>
    requires i < |polls|
  {
    EffectiveTotal(Published(polls[i].values, MeterAfter(m, polls[..i + 1])))
  }

  lemma {:induction false} MeterNeverFalls(m: Meter, polls: seq<Poll>, i: nat)
    requires i <= |polls|
    ensures MeterAfter(m, polls[..i]).kwh <= MeterAfter(m, polls).kwh
  {
    var n := |polls|;
    if i < n {
      MeterNeverFalls(m, polls[..n - 1], i);
      assert polls[..n - 1][..i] == polls[..i];
      var before := MeterAfter(m, polls[..n - 1]);
      if polls[n - 1].sample.Some? && Counts(before, polls[n - 1].sample.value) {
        EnergyPositive(polls[n - 1].sample.value.power.r, polls[n - 1].sample.value.now - before.last.value);
      }
    } else {
      assert polls[..i] == polls;
    }
  }

  /** While the valid hardware readings never fall, no available corrected reading is below an earlier one. */
  lemma CorrectedNeverFalls(m: Meter, polls: seq<Poll>, i: nat, j: nat)
    requires m.kwh >= 0.0 && i <= j < |polls|
    requires forall a, b :: 0 <= a < b < |polls| && Valid(polls[a].values, RAW_KEY).Some? && Valid(polls[b].values, RAW_KEY).Some?
               ==> Valid(polls[a].values, RAW_KEY).value <= Valid(polls[b].values, RAW_KEY).value
    requires Corrected(m, polls, i).Some? && Corrected(m, polls, j).Some?
    ensures Corrected(m, polls, i).value <= Corrected(m, polls, j).value
  {
    MeterNeverFalls(m, polls[..i + 1], 0);
    MeterNeverFalls(m, polls[..j + 1], i + 1);
    assert polls[..j + 1][..i + 1] == polls[..i + 1] && polls[..i + 1][..0] == [];
    ReadAfterPublish(polls[i].values, MeterAfter(m, polls[..i + 1]));
    ReadAfterPublish(polls[j].values, MeterAfter(m, polls[..j + 1]));
  }
}
