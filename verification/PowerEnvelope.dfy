/** The configured power envelope of a fleet and the slider bounds derived from it. */
module PowerEnvelope {
  import opened Wrappers

  /** A stored setting: no key, a key without a value, an integer, or junk. */
  datatype Setting = Missing | Null | Value(n: int) | Junk

  datatype Battery = Battery(
    maxCharge: Setting, maxDischarge: Setting,
    deviceCharge: Setting, deviceDischarge: Setting,
    configuredCharge: Setting, configuredDischarge: Setting,
    userCharge: Setting, userDischarge: Setting)

  datatype Fleet = Fleet(batteries: seq<Battery>, enabled: Option<bool>, chargeCap: Setting, dischargeCap: Setting)

  datatype Power = Power(charge: nat, discharge: nat)

  function NonNegativeInt(s: Setting): nat {
    if s.Value? && s.n > 0 then s.n else 0
  }

  /** Falls back when there is no value, whether or not the key is there. */
  function Or(s: Setting, other: Setting): Setting {
    if s.Missing? || s.Null? then other else s
  }

  /** Falls back only when the key is missing. */
  function OrIfMissing(s: Setting, other: Setting): Setting {
    if s.Missing? then other else s
  }

  function Min(a: nat, b: nat): nat { if a < b then a else b }

  function EffectiveLimits(b: Battery): Power {
    Power(
      Min(NonNegativeInt(Or(b.deviceCharge, b.maxCharge)),
          NonNegativeInt(Or(b.configuredCharge, OrIfMissing(b.userCharge, b.maxCharge)))),
      Min(NonNegativeInt(Or(b.deviceDischarge, b.maxDischarge)),
          NonNegativeInt(Or(b.configuredDischarge, OrIfMissing(b.userDischarge, b.maxDischarge)))))
  }

  function Total(batteries: seq<Battery>): Power {
    if batteries == [] then Power(0, 0)
    else
      var rest, b := Total(batteries[1..]), EffectiveLimits(batteries[0]);
      Power(b.charge + rest.charge, b.discharge + rest.discharge)
  }

  predicate LimitsEnabled(f: Fleet) {
    match f.enabled
    case Some(on) => on
    case None => NonNegativeInt(f.chargeCap) > 0 || NonNegativeInt(f.dischargeCap) > 0
  }

  /** A cap of zero leaves its direction alone. */
  function Capped(total: nat, cap: nat): nat {
    if cap != 0 then Min(total, cap) else total
  }

  function EffectiveSystem(f: Fleet): Power {
    var total := Total(f.batteries);
    if !LimitsEnabled(f) then total
    else Power(Capped(total.charge, NonNegativeInt(f.chargeCap)), Capped(total.discharge, NonNegativeInt(f.dischargeCap)))
  }

  /** The power no battery of the fleet can exceed on its own device. */
  function DeviceTotal(batteries: seq<Battery>): Power {
    if batteries == [] then Power(0, 0)
    else
      var rest, b := DeviceTotal(batteries[1..]), batteries[0];
      Power(NonNegativeInt(Or(b.deviceCharge, b.maxCharge)) + rest.charge,
            NonNegativeInt(Or(b.deviceDischarge, b.maxDischarge)) + rest.discharge)
  }

  lemma {:induction false} TotalWithinDevices(batteries: seq<Battery>)
    ensures Total(batteries).charge <= DeviceTotal(batteries).charge
    ensures Total(batteries).discharge <= DeviceTotal(batteries).discharge
  {
    if batteries != [] {
      TotalWithinDevices(batteries[1..]);
    }
  }

  /**
   * The cap only narrows: a direction is cut to exactly its cap when that is
   * active, non-zero and below the fleet's sum, and else keeps the sum.
   */
  lemma CapOnlyNarrows(f: Fleet)
    ensures var power, total := EffectiveSystem(f), Total(f.batteries);
            && power.charge <= total.charge <= DeviceTotal(f.batteries).charge
            && power.discharge <= total.discharge <= DeviceTotal(f.batteries).discharge
            && power.charge == (if LimitsEnabled(f) && 0 < NonNegativeInt(f.chargeCap) < total.charge
                                then NonNegativeInt(f.chargeCap) else total.charge)
            && power.discharge == (if LimitsEnabled(f) && 0 < NonNegativeInt(f.dischargeCap) < total.discharge
                                   then NonNegativeInt(f.dischargeCap) else total.discharge)
  {
    TotalWithinDevices(f.batteries);
  }

  /** An entry from before the switch behaves as if it were on. */
  lemma MissingSwitchIsOn(f: Fleet)
    ensures EffectiveSystem(f.(enabled := None)) == EffectiveSystem(f.(enabled := Some(true)))
    ensures EffectiveSystem(f.(enabled := Some(false))) == Total(f.batteries)
  {
  }

  function Plus(p: Power, q: Power): Power {
    Power(p.charge + q.charge, p.discharge + q.discharge)
  }

  lemma TotalStep(batteries: seq<Battery>)
    requires batteries != []
    ensures Total(batteries) == Plus(EffectiveLimits(batteries[0]), Total(batteries[1..]))
  {
  }

  lemma PlusAssoc(p: Power, q: Power, r: Power)
    ensures Plus(Plus(p, q), r) == Plus(p, Plus(q, r))
  {
  }

  /** Each direction of a fleet is the sum over its batteries. */
  lemma {:induction false} TotalAdds(first: seq<Battery>, second: seq<Battery>)
    ensures Total(first + second) == Plus(Total(first), Total(second))
  {
    if first == [] {
      assert first + second == second;
    } else {
      assert (first + second)[0] == first[0] && (first + second)[1..] == first[1..] + second;
      TotalAdds(first[1..], second);
      TotalStep(first + second);
      TotalStep(first);
      PlusAssoc(EffectiveLimits(first[0]), Total(first[1..]), Total(second));
    }
  }

  /** The smaller of two settings, and nothing for a negative one. */
  function Weaker(a: int, b: int): nat {
    if a <= 0 || b <= 0 then 0 else if a < b then a else b
  }

  /** One battery is as strong as the weaker of its device and its setting, in each direction by itself; junk is none. */
  lemma OneBattery(b: Battery, deviceCharge: int, configuredCharge: int, deviceDischarge: int, configuredDischarge: int)
    requires b.deviceCharge == Value(deviceCharge) && b.configuredCharge == Value(configuredCharge)
    requires b.deviceDischarge == Value(deviceDischarge) && b.configuredDischarge == Value(configuredDischarge)
    ensures Total([b]) == Power(Weaker(deviceCharge, configuredCharge), Weaker(deviceDischarge, configuredDischarge))
    ensures Total([b.(deviceCharge := Junk)]).charge == 0 && Total([b.(configuredDischarge := Junk)]).discharge == 0
  {
    SingleTotal(b);
    SingleTotal(b.(deviceCharge := Junk));
    SingleTotal(b.(configuredDischarge := Junk));
  }

  lemma SingleTotal(b: Battery)
    ensures Total([b]) == EffectiveLimits(b)
  {
    assert [b][1..] == [];
  }

  /**
   * A legacy entry has the limits of a normalised one with the same two numbers
   * exactly when each direction with power carries a soft ceiling of its own.
   */
  lemma LegacyMatchesNormalised(maxCharge: Setting, maxDischarge: Setting, userCharge: Setting, userDischarge: Setting)
    ensures EffectiveLimits(Battery(maxCharge, maxDischarge, Missing, Missing, Missing, Missing, userCharge, userDischarge))
            == EffectiveLimits(Battery(Missing, Missing, maxCharge, maxDischarge, userCharge, userDischarge, Missing, Missing))
            <==> (userCharge.Missing? ==> NonNegativeInt(maxCharge) == 0)
                 && (userDischarge.Missing? ==> NonNegativeInt(maxDischarge) == 0)
  {
    var legacy := Battery(maxCharge, maxDischarge, Missing, Missing, Missing, Missing, userCharge, userDischarge);
    var normalised := Battery(Missing, Missing, maxCharge, maxDischarge, userCharge, userDischarge, Missing, Missing);
    assert EffectiveLimits(legacy).charge == EffectiveLimits(normalised).charge <==>
           (userCharge.Missing? ==> NonNegativeInt(maxCharge) == 0);
  }

  // --------------------------------------------------------------- slider bounds

  /** `int(value // step * step)`; a step that is no positive number leaves the value alone. */
  function FloorToStep(value: nat, step: Option<real>): int {
    if step.None? || step.value <= 0.0 then value
    else ((value as real / step.value).Floor as real * step.value).Floor
  }

  function Multiple(k: int, step: real): real {
    k as real * step
  }

  predicate IsInteger(x: real) {
    x == x.Floor as real
  }

  /** `bound` is on the slider's grid, within the configured power, and no other grid point between them. */
  ghost predicate LargestWithin(bound: int, step: real, value: nat) {
    && bound <= value && (exists k: int :: Multiple(k, step) == bound as real)
    && forall k: int | Multiple(k, step) <= value as real :: Multiple(k, step) <= bound as real
  }

  /** The largest multiple within the value, not yet truncated to an integer. */
  function FlooredQuotient(value: nat, step: real): real
    requires step > 0.0
  {
    Multiple((value as real / step).Floor, step)
  }

  /** Multiplying by a positive step keeps the order. */
  lemma StepKeepsOrder(a: real, b: real, step: real)
    requires step > 0.0
    ensures a * step <= b * step <==> a <= b
  {
    if a > b {
      assert (a - b) * step > 0.0;
    } else {
      assert (b - a) * step >= 0.0;
    }
  }

  lemma FlooredQuotientIsLargest(value: nat, step: real)
    requires step > 0.0
    ensures 0.0 <= FlooredQuotient(value, step) <= value as real
    ensures forall k: int | Multiple(k, step) <= value as real :: Multiple(k, step) <= FlooredQuotient(value, step)
  {
    var x := value as real / step;
    assert x * step == value as real;
    var q := x.Floor;
    GridAround(0, x, step);
    GridAround(q, x, step);
    assert Multiple(0, step) == 0.0;
    forall k: int | Multiple(k, step) <= value as real ensures Multiple(k, step) <= Multiple(q, step) {
      GridAround(k, x, step);
    }
  }

  /** A grid point is within `x` steps exactly when it is within the whole number of them. */
  lemma GridAround(k: int, x: real, step: real)
    requires step > 0.0
    ensures Multiple(k, step) <= x * step <==> k as real <= x
    ensures Multiple(k, step) <= Multiple(x.Floor, step) <==> k as real <= x
  {
    StepKeepsOrder(k as real, x, step);
    var q := x.Floor;
    assert k as real <= x <==> k as real <= q as real;
    StepKeepsOrder(k as real, q as real, step);
  }

  /** For any step the bound is the largest multiple within the configured power exactly when that multiple is an integer. */
  lemma LargestMultipleExact(value: nat, step: real)
    requires step > 0.0
    ensures LargestWithin(FloorToStep(value, Some(step)), step, value) <==> IsInteger(FlooredQuotient(value, step))
    ensures 0 <= FloorToStep(value, Some(step)) <= value
  {
    FlooredQuotientIsLargest(value, step);
    var k := (value as real / step).Floor;
    assert Multiple(k, step) == FlooredQuotient(value, step) <= value as real;
    assert FloorToStep(value, Some(step)) == FlooredQuotient(value, step).Floor;
  }

  /** So on an integral step, the only kind the definitions of the dynamic sliders have, it always is. */
  lemma LargestMultiple(value: nat, step: nat)
    requires step > 0
    ensures LargestWithin(FloorToStep(value, Some(step as real)), step as real, value)
  {
    var k := (value as real / step as real).Floor;
    assert FlooredQuotient(value, step as real) == (k * step) as real;
    LargestMultipleExact(value, step as real);
  }

  datatype Dynamic = Static | SystemPower | ChargeCap | DischargeCap

  datatype Definition = Definition(min: real, max: real, step: Option<real>, scale: real, bounds: Dynamic)

  function Bounds(d: Definition, f: Fleet): (real, real)
    requires d.scale > 0.0
  {
    match d.bounds
    case Static => (d.min, d.max)
    case ChargeCap =>
      var hi := FloorToStep(Total(f.batteries).charge, d.step);
      (d.min, if hi > 0 then hi as real else d.max)
    case DischargeCap =>
      var hi := FloorToStep(Total(f.batteries).discharge, d.step);
      (d.min, if hi > 0 then hi as real else d.max)
    case SystemPower =>
      var hi := FloorToStep(EffectiveSystem(f).charge, d.step);
      var lo := FloorToStep(EffectiveSystem(f).discharge, d.step);
      (if lo > 0 then -(lo as real) / d.scale else d.min, if hi > 0 then hi as real / d.scale else d.max)
  }

  /** For every fleet the slider keeps a non-empty range, as long as its authored range straddles zero. */
  lemma BoundsNonDegenerate(d: Definition, f: Fleet)
    requires d.scale > 0.0 && d.min <= 0.0 < d.max
    ensures Bounds(d, f).0 < Bounds(d, f).1
  {
    if d.bounds.SystemPower? {
      var hi := FloorToStep(EffectiveSystem(f).charge, d.step);
      var lo := FloorToStep(EffectiveSystem(f).discharge, d.step);
      if hi > 0 {
        assert hi as real / d.scale > 0.0;
      }
      if lo > 0 {
        assert -(lo as real) / d.scale < 0.0;
      }
    }
  }

  /** `bound` is what a slider of this step makes of `power`: the largest multiple within it, or `fallback` if there is none. */
  ghost predicate BoundOf(bound: real, power: nat, step: real, scale: real, fallback: real)
    requires scale > 0.0
  {
    if power as real < step then bound == fallback
    else exists multiple: int | LargestWithin(multiple, step, power) :: bound == multiple as real / scale
  }

  lemma LargestIsPositive(power: nat, step: nat)
    requires step > 0
    ensures FloorToStep(power, Some(step as real)) > 0 <==> power >= step
  {
    LargestMultiple(power, step);
    var bound := FloorToStep(power, Some(step as real));
    assert Multiple(1, step as real) == step as real;
    var k: int :| Multiple(k, step as real) == bound as real;
    if bound > 0 {
      StepKeepsOrder(1.0, k as real, step as real);
      StepKeepsOrder(k as real, 0.0, step as real);
    }
  }

  /** A bound derived from `power`. */
  function Derived(power: nat, step: nat, scale: real, fallback: real): real
    requires step > 0 && scale > 0.0
  {
    var bound := FloorToStep(power, Some(step as real));
    if bound > 0 then bound as real / scale else fallback
  }

  lemma DerivedIsBound(power: nat, step: nat, scale: real, fallback: real)
    requires step > 0 && scale > 0.0
    ensures BoundOf(Derived(power, step, scale, fallback), power, step as real, scale, fallback)
  {
    LargestIsPositive(power, step);
    LargestMultiple(power, step);
  }

  lemma CapBounds(d: Definition, f: Fleet, step: nat)
    requires d.scale > 0.0 && step > 0 && d.step == Some(step as real)
    ensures d.bounds.ChargeCap? ==> Bounds(d, f) == (d.min, Derived(Total(f.batteries).charge, step, 1.0, d.max))
    ensures d.bounds.DischargeCap? ==> Bounds(d, f) == (d.min, Derived(Total(f.batteries).discharge, step, 1.0, d.max))
  {
  }

  lemma NegatedQuotient(x: real, scale: real)
    requires scale > 0.0
    ensures -x / scale == -(x / scale)
  {
  }

  lemma SystemBounds(d: Definition, f: Fleet, step: nat)
    requires d.scale > 0.0 && step > 0 && d.step == Some(step as real) && d.bounds.SystemPower?
    ensures Bounds(d, f).0 == -Derived(EffectiveSystem(f).discharge, step, d.scale, -d.min)
    ensures Bounds(d, f).1 == Derived(EffectiveSystem(f).charge, step, d.scale, d.max)
  {
    NegatedQuotient(FloorToStep(EffectiveSystem(f).discharge, d.step) as real, d.scale);
  }

  /** Every dynamic bound comes from its own direction's power, and the other end of a cap's slider is the authored one. */
  lemma BoundsExact(d: Definition, f: Fleet, step: nat)
    requires d.scale > 0.0 && step > 0 && d.step == Some(step as real)
    ensures d.bounds.Static? ==> Bounds(d, f) == (d.min, d.max)
    ensures d.bounds.ChargeCap? ==>
              Bounds(d, f).0 == d.min && BoundOf(Bounds(d, f).1, Total(f.batteries).charge, step as real, 1.0, d.max)
    ensures d.bounds.DischargeCap? ==>
              Bounds(d, f).0 == d.min && BoundOf(Bounds(d, f).1, Total(f.batteries).discharge, step as real, 1.0, d.max)
    ensures d.bounds.SystemPower? ==>
              && BoundOf(Bounds(d, f).1, EffectiveSystem(f).charge, step as real, d.scale, d.max)
              && BoundOf(-Bounds(d, f).0, EffectiveSystem(f).discharge, step as real, d.scale, -d.min)
  {
    CapBounds(d, f, step);
    DerivedIsBound(Total(f.batteries).charge, step, 1.0, d.max);
    DerivedIsBound(Total(f.batteries).discharge, step, 1.0, d.max);
    if d.bounds.SystemPower? {
      SystemBounds(d, f, step);
      DerivedIsBound(EffectiveSystem(f).charge, step, d.scale, d.max);
      DerivedIsBound(EffectiveSystem(f).discharge, step, d.scale, -d.min);
    }
  }
}
