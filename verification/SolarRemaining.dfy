/** One "remaining today" budget from whichever forecast sensor is available. */
module SolarRemaining {
  import opened Wrappers
  import opened BackupEnergy
  import opened SolarHorizon

  const EPSILON_KWH := 0.000000001
  const FALLBACK_HOUR := 11.0

  datatype Unit = Wh | Kwh | OtherUnit

  /** A sensor's state; `periods` is empty when the provider's periods are missing or malformed. */
  datatype SensorState = SensorState(value: Reading, unit: Unit, periods: seq<Period>)

  datatype Source = Remaining | Today | Fallback

  datatype Conversion = Untouched | UnsafeZero | DatedZeroScalar | DatedPeriods | TemporalFraction | PreSolar

  datatype Forecast = Forecast(kwh: real, source: Source, periods: seq<Period>)

  datatype Budget = Budget(remainingKwh: real, source: Source, periods: Option<seq<Period>>, conversion: Conversion)

  /** Everything a read depends on: both sensors, the instant, today's end, and the solar curve if known. */
  datatype Context = Context(
    remainingSensor: Option<SensorState>, todaySensor: Option<SensorState>,
    now: real, midnight: real, hour: real, fractionDone: Option<real>)

  function StateKwh(s: SensorState): Option<real> {
    if !s.value.Number? || s.value.r < 0.0 then None
    else match s.unit
      case Wh => Some(s.value.r / 1000.0)
      case Kwh => Some(s.value.r)
      case OtherUnit => None
  }

  function ForecastFrom(sensor: Option<SensorState>, source: Source): Option<Forecast> {
    if sensor.None? || StateKwh(sensor.value).None? then None
    else Some(Forecast(StateKwh(sensor.value).value, source, sensor.value.periods))
  }

  /** The remaining sensor wins; the whole-day one is the fallback. */
  function ReadForecast(c: Context): Option<Forecast> {
    var remaining := ForecastFrom(c.remainingSensor, Remaining);
    if remaining.Some? then remaining else ForecastFrom(c.todaySensor, Today)
  }

  function DatedRemaining(c: Context, periods: seq<Period>): real {
    EnergyBetween(periods, c.now, c.midnight)
  }

  /** The contract never carries a negative amount. */
  function NormalisedBudget(kwh: real, source: Source, periods: Option<seq<Period>>, conversion: Conversion): Budget {
    Budget(if kwh >= 0.0 then kwh else 0.0, source, periods, conversion)
  }

  function NonEmpty(periods: seq<Period>): Option<seq<Period>> {
    if periods == [] then None else Some(periods)
  }

  function BudgetOf(c: Context, f: Forecast): Budget {
    var dated := DatedRemaining(c, f.periods);
    if f.kwh <= EPSILON_KWH && dated > EPSILON_KWH then
      NormalisedBudget(dated, f.source, Some(f.periods), DatedZeroScalar)
    else if f.source == Remaining then NormalisedBudget(f.kwh, Remaining, NonEmpty(f.periods), Untouched)
    else if f.periods != [] then NormalisedBudget(dated, Today, NonEmpty(f.periods), DatedPeriods)
    else
      match c.fractionDone
      case Some(done) => NormalisedBudget(f.kwh * Max(0.0, 1.0 - done), Today, None, TemporalFraction)
      case None =>
        if c.hour < FALLBACK_HOUR then NormalisedBudget(f.kwh, Today, None, PreSolar)
        else NormalisedBudget(0.0, Today, None, UnsafeZero)
  }

  function ReadBudget(c: Context): Budget {
    match ReadForecast(c)
    case None => NormalisedBudget(0.0, Fallback, None, UnsafeZero)
    case Some(f) => BudgetOf(c, f)
  }

  /** The diagnostic fields a read may leave on the controller. */
  class Controller {
    var source: Option<Source>
    var diagnosticSource: Option<Source>
    var periods: seq<Period>
    var conversion: Option<Conversion>

    constructor ()
      ensures source == None && diagnosticSource == None && periods == [] && conversion == None
    {
      source, diagnosticSource, periods, conversion := None, None, [], None;
    }

    method ReadSolarForecast(c: Context, update: bool) returns (forecast: Option<Forecast>)
      modifies this
      ensures forecast == ReadForecast(c)
      ensures if !update then unchanged(this) else
              && conversion == old(conversion)
              && source == diagnosticSource
              && (forecast.Some? ==> source == Some(forecast.value.source) && periods == forecast.value.periods)
              && (forecast.None? ==> source == None && periods == [])
    {
      forecast := ForecastFrom(c.remainingSensor, Remaining);
      if forecast == None {
        forecast := ForecastFrom(c.todaySensor, Today);
      }
      if update {
        if forecast != None {
          source, diagnosticSource := Some(forecast.value.source), Some(forecast.value.source);
          periods := forecast.value.periods;
        } else {
          source, diagnosticSource, periods := None, None, [];
        }
      }
    }

    method ReadRemainingSolar(c: Context, update: bool) returns (budget: Budget)
      modifies this
      ensures budget == ReadBudget(c) && budget.remainingKwh >= 0.0
      ensures !update ==> unchanged(this)
      ensures update ==> source == diagnosticSource == Some(budget.source)
      ensures update && budget.source != Fallback ==> conversion == Some(budget.conversion)
      ensures update && budget.source == Fallback ==> conversion == old(conversion) && periods == []
    {
      var forecast := ReadSolarForecast(c, update);
      if forecast == None {
        if update {
          source, diagnosticSource := Some(Fallback), Some(Fallback);
        }
        return NormalisedBudget(0.0, Fallback, None, UnsafeZero);
      }
      var f := forecast.value;
      var dated := PeriodEnergyBetween(f.periods, c.now, c.midnight);
      if f.kwh <= EPSILON_KWH && dated > EPSILON_KWH {
        if update {
          conversion := Some(DatedZeroScalar);
        }
        return NormalisedBudget(dated, f.source, Some(f.periods), DatedZeroScalar);
      }
      if f.source == Remaining {
        if update {
          conversion := Some(Untouched);
        }
        return NormalisedBudget(f.kwh, Remaining, NonEmpty(f.periods), Untouched);
      }
      var remaining, how;
      if f.periods != [] {
        remaining, how := dated, DatedPeriods;
      } else if c.fractionDone != None {
        remaining, how := f.kwh * Max(0.0, 1.0 - c.fractionDone.value), TemporalFraction;
      } else if c.hour < FALLBACK_HOUR {
        remaining, how := f.kwh, PreSolar;
      } else {
        remaining, how := 0.0, UnsafeZero;
      }
      if update {
        conversion := Some(how);
      }
      return NormalisedBudget(remaining, Today, NonEmpty(f.periods), how);
    }
  }

  // ------------------------------------------------------------------ properties

  /** The whole-day forecast with dated periods is what this read falls back to. */
  predicate ReadsDatedToday(c: Context, periods: seq<Period>) {
    ReadForecast(c).Some? && ReadForecast(c).value.source == Today && ReadForecast(c).value.periods == periods
    && periods != []
  }

  /** Whether the scalar is zero or not, a dated whole-day forecast yields exactly what overlaps the rest of the day. */
  lemma DatedReadIsOverlap(c: Context, periods: seq<Period>)
    requires ReadsDatedToday(c, periods)
    ensures ReadBudget(c).remainingKwh == EnergyBetween(periods, c.now, c.midnight)
  {
    HorizonBounds(periods, c.now, c.midnight);
  }

  /** Two reads in one day differ by exactly the energy between them, so the budget never rises. */
  lemma SuccessiveReads(first: Context, second: Context, periods: seq<Period>)
    requires ReadsDatedToday(first, periods) && ReadsDatedToday(second, periods)
    requires first.midnight == second.midnight && first.now <= second.now <= first.midnight
    ensures ReadBudget(first).remainingKwh - ReadBudget(second).remainingKwh
            == EnergyBetween(periods, first.now, second.now)
    ensures ReadBudget(second).remainingKwh <= ReadBudget(first).remainingKwh
  {
    DatedReadIsOverlap(first, periods);
    DatedReadIsOverlap(second, periods);
    HorizonAdditive(periods, first.now, second.now, first.midnight);
    HorizonBounds(periods, first.now, second.now);
  }

  /** A remaining-today value passes through exactly unless it is a zero contradicted by dated energy still to come. */
  lemma RemainingPassesThrough(c: Context)
    requires ReadForecast(c).Some? && ReadForecast(c).value.source == Remaining
    ensures var f := ReadForecast(c).value;
            var dated := EnergyBetween(f.periods, c.now, c.midnight);
            && (ReadBudget(c).remainingKwh == f.kwh <==> !(f.kwh <= 0.000000001 < dated))
            && (f.kwh <= 0.000000001 < dated ==> ReadBudget(c).remainingKwh == dated)
    ensures ReadBudget(c).source == Remaining
  {
    var f := ReadForecast(c).value;
    HorizonBounds(f.periods, c.now, c.midnight);
    assert f.kwh >= 0.0;
  }

  /**
   * The remaining sensor decides exactly when it is usable, and then the
   * whole-day sensor, the solar curve and the hour are irrelevant.
   */
  lemma RemainingSensorWins(c: Context, other: Option<SensorState>, fractionDone: Option<real>, hour: real)
    ensures ReadBudget(c).source == Remaining <==> c.remainingSensor.Some? && StateKwh(c.remainingSensor.value).Some?
    ensures ReadBudget(c).source == Remaining ==>
            ReadBudget(c.(todaySensor := other, fractionDone := fractionDone, hour := hour)) == ReadBudget(c)
  {
  }

  function Product(kwh: real, left: real): real {
    kwh * left
  }

  lemma ProductBelow(kwh: real, left: real)
    requires kwh >= 0.0 && left >= 0.0
    ensures Product(kwh, left) <= kwh <==> kwh == 0.0 || left <= 1.0
    ensures Product(kwh, left) >= 0.0
  {
    assert kwh * left - kwh == kwh * (left - 1.0);
    if kwh > 0.0 && left > 1.0 {
      assert kwh * (left - 1.0) > 0.0;
    }
  }

  /** The whole-day forecast without dated periods, read along the solar curve. */
  predicate ReadsFraction(c: Context) {
    && ReadForecast(c).Some? && ReadForecast(c).value.source == Today && ReadForecast(c).value.periods == []
    && c.fractionDone.Some?
  }

  lemma FractionBudget(c: Context)
    requires ReadsFraction(c)
    ensures ReadForecast(c).value.kwh >= 0.0
    ensures ReadBudget(c).remainingKwh == Product(ReadForecast(c).value.kwh, Max(0.0, 1.0 - c.fractionDone.value))
  {
    var kwh, left := ReadForecast(c).value.kwh, Max(0.0, 1.0 - c.fractionDone.value);
    HorizonBounds([], c.now, c.midnight);
    ProductBelow(kwh, left);
    assert ReadBudget(c) == NormalisedBudget(Product(kwh, left), Today, None, TemporalFraction);
  }

  /** Without dated periods the budget is the share of the whole day still to come, a fraction of it. */
  lemma FractionBound(c: Context)
    requires ReadsFraction(c) && 0.0 <= c.fractionDone.value <= 1.0
    ensures ReadBudget(c).remainingKwh == Product(ReadForecast(c).value.kwh, 1.0 - c.fractionDone.value)
    ensures 0.0 <= ReadBudget(c).remainingKwh <= ReadForecast(c).value.kwh
  {
    FractionBudget(c);
    ProductBelow(ReadForecast(c).value.kwh, 1.0 - c.fractionDone.value);
  }

  /** The range is needed below: the budget stays within the whole-day total exactly when the fraction is not negative. */
  lemma NegativeFractionExceeds(c: Context)
    requires ReadsFraction(c)
    ensures ReadBudget(c).remainingKwh <= ReadForecast(c).value.kwh <==>
            ReadForecast(c).value.kwh == 0.0 || c.fractionDone.value >= 0.0
  {
    FractionBudget(c);
    ProductBelow(ReadForecast(c).value.kwh, Max(0.0, 1.0 - c.fractionDone.value));
  }

  // --------------------------------------------------------- units and the fallback

  /** A sensor that says a non-negative number of kilowatt hours or watt hours. */
  predicate Usable(sensor: Option<SensorState>) {
    sensor.Some? && sensor.value.value.Number? && sensor.value.value.r >= 0.0 && sensor.value.unit in {Wh, Kwh}
  }

  /** Which sensor is read, and that there is no budget when neither can be. */
  lemma SensorsRead(c: Context)
    ensures Usable(c.remainingSensor) ==>
              ReadForecast(c) == Some(Forecast(StateKwh(c.remainingSensor.value).value, Remaining, c.remainingSensor.value.periods))
    ensures !Usable(c.remainingSensor) && Usable(c.todaySensor) ==>
              ReadForecast(c) == Some(Forecast(StateKwh(c.todaySensor.value).value, Today, c.todaySensor.value.periods))
    ensures !Usable(c.remainingSensor) && !Usable(c.todaySensor) ==>
              ReadForecast(c) == None && ReadBudget(c) == Budget(0.0, Fallback, None, UnsafeZero)
  {
  }

  /** A thousand watt hours are one kilowatt hour, whichever sensor says so. */
  lemma UnitsAgree(c: Context, value: real, periods: seq<Period>)
    ensures var inWh, inKwh := SensorState(Number(1000.0 * value), Wh, periods), SensorState(Number(value), Kwh, periods);
            && StateKwh(inKwh) == (if value >= 0.0 then Some(value) else None)
            && ReadBudget(c.(remainingSensor := Some(inWh))) == ReadBudget(c.(remainingSensor := Some(inKwh)))
            && ReadBudget(c.(todaySensor := Some(inWh))) == ReadBudget(c.(todaySensor := Some(inKwh)))
  {
    assert 1000.0 * value / 1000.0 == value;
    assert 1000.0 * value < 0.0 <==> value < 0.0;
  }

  /** Without a curve and without dated periods the whole day counts before eleven, and nothing from then on. */
  lemma WithoutCurve(c: Context)
    requires ReadForecast(c).Some? && ReadForecast(c).value.source == Today && ReadForecast(c).value.periods == []
    requires c.fractionDone == None
    ensures ReadBudget(c).remainingKwh == (if c.hour < 11.0 then ReadForecast(c).value.kwh else 0.0)
    ensures ReadBudget(c).conversion == (if c.hour < 11.0 then PreSolar else UnsafeZero)
  {
    HorizonBounds([], c.now, c.midnight);
    assert ReadForecast(c).value.kwh >= 0.0;
  }
}
