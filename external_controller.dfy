/** external_controller.py: the controller that lives outside the
    simulation and answers each observation of the step environment with an
    action, and the clock fix-up applied to observations before they are
    logged. */
module ExternalControl {
  import opened Wrappers
  import opened SetpointRule
  import StepEnv

  /** The two keys of an observation dict the controller reads; either may
      be missing (the environment sends the empty dict once it is done). */
  datatype Observation = Observation(outdoorTemp: Option<real>, totalPower: Option<real>)

  /** The dict view of what `step` returns: an observation has both keys,
      the empty dict neither. */
  function ObservationOf(obs: Option<StepEnv.Obs>): (r: Observation)
    ensures obs.Some? ==> r == Observation(Some(obs.value.outdoorTemp), Some(obs.value.totalPower))
    ensures obs.None? ==> r.outdoorTemp.None? && r.totalPower.None?
  {
    match obs
    case None => Observation(None, None)
    case Some(o) => Observation(Some(o.outdoorTemp), Some(o.totalPower))
  }

  /** The action dict: the uniform cooling and heating setpoints. */
  datatype SetpointAction = SetpointAction(coolingSetpoint: real, heatingSetpoint: real)

  /** The action as the step environment takes it: no per-zone entries and
      both uniform setpoints present. */
  function EnvAction(a: SetpointAction): (r: StepEnv.Action)
    ensures r.zoneSetpoints == [] && !StepEnv.EmptyAction(r)
    ensures r.coolingSetpoint == Some(a.coolingSetpoint) && r.heatingSetpoint == Some(a.heatingSetpoint)
  {
    StepEnv.Action([], Some(a.coolingSetpoint), Some(a.heatingSetpoint))
  }

  /** `RuleBasedController`: the previous observation's power and the
      number of actions computed. */
  class RuleBasedController {
    var previousPower: real
    var stepCount: int

    /** `RuleBasedController()`: no power seen, no step taken. */
    constructor()
      ensures previousPower == 0.0 && stepCount == 0
    {
      previousPower := 0.0;
      stepCount := 0;
    }

    /** `compute_action(obs)`: counts the call, decides from the current
        outdoor temperature (20 °C when missing) and the power of the
        previous call, and keeps the current power (0 when missing) for the
        next call.  The action is the shared rule's setpoints. */
    method ComputeAction(obs: Observation) returns (action: SetpointAction)
      modifies this
      ensures stepCount == old(stepCount) + 1
      ensures previousPower == obs.totalPower.GetOr(0.0)
      ensures (action.coolingSetpoint, action.heatingSetpoint) == Setpoints(obs.outdoorTemp.GetOr(20.0), old(previousPower))
      ensures action.coolingSetpoint - action.heatingSetpoint >= Deadband
    {
      stepCount := stepCount + 1;
      var oat := obs.outdoorTemp.GetOr(20.0);
      var power := obs.totalPower.GetOr(0.0);
      var controlPower := previousPower;
      var coolingAdj := 0.0;
      var heatingAdj := 0.0;
      if controlPower > PowerThresholdHigh {
        var powerFactor := (controlPower - PowerThresholdHigh) / 100000.0;
        if powerFactor > 1.0 {
          powerFactor := 1.0;
        }
        if oat > OatHotThreshold {
          coolingAdj := powerFactor * MaxCoolingAdjustment;
        } else if oat < OatColdThreshold {
          heatingAdj := -powerFactor * MaxHeatingAdjustment;
        } else {
          coolingAdj := powerFactor * MaxCoolingAdjustment * 0.5;
          heatingAdj := -powerFactor * MaxHeatingAdjustment * 0.5;
        }
      } else if controlPower < PowerThresholdLow {
        if oat > OatHotThreshold {
          coolingAdj := -0.5;
        } else if oat < OatColdThreshold {
          heatingAdj := 0.5;
        }
      }
      assert (coolingAdj, heatingAdj) == Adjustments(oat, controlPower);
      var coolingSp := CoolingSetpointBase + coolingAdj;
      var heatingSp := HeatingSetpointBase + heatingAdj;
      if coolingSp - heatingSp < 2.0 {
        coolingSp := heatingSp + 2.0;
      }
      previousPower := power;
      action := SetpointAction(coolingSp, heatingSp);
    }
  }

  /** The clock as minutes since the start of day 0. */
  function MinutesOf(day: int, hour: int, minute: int): int {
    (day * 24 + hour) * 60 + minute
  }

  /** The fix-up of the simulation clock before a timestamp is built: a
      minute of 60 or more becomes 0 of the next hour, and then an hour of
      24 or more becomes 0 of the next day.  For the clock the engine
      reports (minute within [0, 60], hour within [0, 23], or 24 with the
      minute below 60) the result names the same instant with the minute
      within [0, 59] and the hour within [0, 23]. */
  method NormalizeClock(day: int, hour: int, minute: int) returns (day': int, hour': int, minute': int)
    ensures minute' == (if minute >= 60 then 0 else minute)
    ensures var h := if minute >= 60 then hour + 1 else hour;
      && hour' == (if h >= 24 then 0 else h)
      && day' == (if h >= 24 then day + 1 else day)
    ensures 0 <= minute <= 60 && 0 <= hour <= 24 && (hour == 24 ==> minute < 60) ==>
      && 0 <= minute' < 60 && 0 <= hour' < 24
      && MinutesOf(day', hour', minute') == MinutesOf(day, hour, minute)
  {
    day', hour', minute' := day, hour, minute;
    if minute' >= 60 {
      minute' := 0;
      hour' := hour' + 1;
    }
    if hour' >= 24 {
      hour' := 0;
      day' := day' + 1;
    }
  }

}
