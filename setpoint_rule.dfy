/** The setpoint rule both rule-based controllers apply: from the outdoor
    air temperature and the previous step's facility power, an adjustment
    of the cooling and heating setpoints around their bases, then a 2 °C
    deadband.  Power is in W, temperatures in °C. */
module SetpointRule {

  const PowerThresholdHigh: real := 150000.0
  const PowerThresholdLow: real := 50000.0
  const OatHotThreshold: real := 30.0
  const OatColdThreshold: real := 5.0
  const CoolingSetpointBase: real := 24.0
  const HeatingSetpointBase: real := 21.0
  const MaxCoolingAdjustment: real := 2.0
  const MaxHeatingAdjustment: real := 2.0

  /** The smallest gap kept between the cooling and heating setpoints. */
  const Deadband: real := 2.0

  /** How far the power is above the high threshold, per 100 kW, capped
      at 1. */
  function PowerFactor(power: real): (r: real)
    ensures r <= 1.0
    ensures power > PowerThresholdHigh ==> r > 0.0
  {
    var f := (power - PowerThresholdHigh) / 100000.0;
    if f <= 1.0 then f else 1.0
  }

  /** The (cooling, heating) adjustments chosen from the outdoor
      temperature `oat` and the power: reductions of conditioning in
      proportion to the power factor above the high threshold (all of it to
      cooling when hot, to heating when cold, half to each otherwise), half
      a degree more cooling or heating below the low threshold in hot or
      cold weather, and none otherwise. */
  function Adjustments(oat: real, power: real): (real, real) {
    if power > PowerThresholdHigh then
      var f := PowerFactor(power);
      if oat > OatHotThreshold then (f * MaxCoolingAdjustment, 0.0)
      else if oat < OatColdThreshold then (0.0, -f * MaxHeatingAdjustment)
      else (f * MaxCoolingAdjustment * 0.5, -f * MaxHeatingAdjustment * 0.5)
    else if power < PowerThresholdLow then
      if oat > OatHotThreshold then (-0.5, 0.0)
      else if oat < OatColdThreshold then (0.0, 0.5)
      else (0.0, 0.0)
    else (0.0, 0.0)
  }

  /** `compute_setpoints(oat, power)`: the adjusted bases, with the cooling
      setpoint raised to heating + 2 when the gap is smaller.  The heating
      setpoint is its adjusted base; the cooling setpoint is its adjusted
      base or exactly the deadband above heating, never below either. */
  function Setpoints(oat: real, power: real): (r: (real, real))
    ensures r.1 == HeatingSetpointBase + Adjustments(oat, power).1
    ensures r.0 - r.1 >= Deadband
    ensures r.0 >= CoolingSetpointBase + Adjustments(oat, power).0
    ensures r.0 == CoolingSetpointBase + Adjustments(oat, power).0 || r.0 == r.1 + Deadband
  {
    var (coolingAdjustment, heatingAdjustment) := Adjustments(oat, power);
    var newCooling := CoolingSetpointBase + coolingAdjustment;
    var newHeating := HeatingSetpointBase + heatingAdjustment;
    if newCooling - newHeating < 2.0 then (newHeating + 2.0, newHeating) else (newCooling, newHeating)
  }

  /** Above the high threshold the power factor lies in (0, 1], so the
      cooling setpoint rises by at most the maximum cooling adjustment and
      the heating setpoint falls by at most the maximum heating adjustment;
      neither moves the other way. */
  lemma HighPowerBounded(oat: real, power: real)
    requires power > PowerThresholdHigh
    ensures var (c, h) := Adjustments(oat, power);
      && 0.0 <= c <= MaxCoolingAdjustment
      && -MaxHeatingAdjustment <= h <= 0.0
    ensures PowerFactor(power) == if power - PowerThresholdHigh <= 100000.0 then (power - PowerThresholdHigh) / 100000.0 else 1.0
  {
  }

  /** Above the high threshold, hot weather moves only cooling, cold weather
      only heating, and mild weather both by half. */
  lemma HighPowerSplit(oat: real, power: real)
    requires power > PowerThresholdHigh
    ensures var (c, h) := Adjustments(oat, power); var f := PowerFactor(power);
      && (oat > OatHotThreshold ==> c == f * MaxCoolingAdjustment && h == 0.0)
      && (oat < OatColdThreshold ==> c == 0.0 && h == -f * MaxHeatingAdjustment)
      && (OatColdThreshold <= oat <= OatHotThreshold ==>
            c == f * MaxCoolingAdjustment * 0.5 && h == -f * MaxHeatingAdjustment * 0.5)
  {
  }

  /** Below the low threshold the only adjustments are half a degree more
      cooling in hot weather or half a degree more heating in cold weather;
      between the thresholds nothing is adjusted. */
  lemma LowAndMidPower(oat: real, power: real)
    ensures power < PowerThresholdLow ==>
      Adjustments(oat, power) ==
        (if oat > OatHotThreshold then (-0.5, 0.0) else if oat < OatColdThreshold then (0.0, 0.5) else (0.0, 0.0))
    ensures PowerThresholdLow <= power <= PowerThresholdHigh ==> Adjustments(oat, power) == (0.0, 0.0)
  {
  }

  /** With these constants the deadband never has to step in: the adjusted
      bases are always at least 2.5 °C apart, so the setpoints are the
      adjusted bases, cooling within [23.5, 26] and heating within
      [19, 21.5]. */
  lemma DeadbandNeverBinds(oat: real, power: real)
    ensures var (c, h) := Adjustments(oat, power);
      Setpoints(oat, power) == (CoolingSetpointBase + c, HeatingSetpointBase + h)
    ensures 23.5 <= Setpoints(oat, power).0 <= 26.0
    ensures 19.0 <= Setpoints(oat, power).1 <= 21.5
    ensures Setpoints(oat, power).0 - Setpoints(oat, power).1 >= 2.5
  {
    if power > PowerThresholdHigh {
      HighPowerBounded(oat, power);
    }
  }
}
