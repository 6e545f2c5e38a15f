/** battery_model.py: the battery energy storage model.  A step first loses
    self-discharge, then charges or discharges as the action says, clamped
    by the power rate, the efficiency and the state-of-charge window, and
    then updates the state of charge, the cycle count, the running totals,
    the step counter and the history.  Quantities are reals. */
module Battery {
  import opened Wrappers

  /** `BatteryAction`. */
  datatype BatteryAction = Idle | ChargeFromGrid | ChargeFromPv | DischargeToLoad | DischargeToGrid

  /** The fields of `BatteryConfig` that the model's operations read. */
  datatype BatteryConfig = BatteryConfig(
    timestepHours: real,
    capacityKwh: real,
    socMin: real,
    socMax: real,
    socInitial: real,
    maxChargeRateKw: real,
    maxDischargeRateKw: real,
    chargeEfficiency: real,
    dischargeEfficiency: real,
    selfDischargeRate: real)

  /** `BatteryConfig()` with its defaults. */
  const DefaultConfig := BatteryConfig(1.0 / 12.0, 100.0, 0.1, 0.9, 0.5, 50.0, 50.0, 0.95, 0.95, 0.0001)

  /** Which of `__post_init__`'s assertions fails first. */
  datatype ConfigError = InvalidSocLimits | InitialSocOutsideLimits | InvalidChargeEfficiency | InvalidDischargeEfficiency

  /** The validation of `__post_init__`: the first failing assertion, or
      `None` when the configuration is accepted. */
  function Validate(c: BatteryConfig): (r: Option<ConfigError>)
    ensures r.None? <==> (0.0 <= c.socMin < c.socMax <= 1.0 && c.socMin <= c.socInitial <= c.socMax &&
      0.0 < c.chargeEfficiency <= 1.0 && 0.0 < c.dischargeEfficiency <= 1.0)
    ensures r == Some(InvalidSocLimits) <==> !(0.0 <= c.socMin < c.socMax <= 1.0)
    ensures r == Some(InitialSocOutsideLimits) <==>
      (0.0 <= c.socMin < c.socMax <= 1.0) && !(c.socMin <= c.socInitial <= c.socMax)
    ensures r == Some(InvalidChargeEfficiency) <==>
      (0.0 <= c.socMin < c.socMax <= 1.0) && (c.socMin <= c.socInitial <= c.socMax) &&
      !(0.0 < c.chargeEfficiency <= 1.0)
    ensures r == Some(InvalidDischargeEfficiency) <==>
      (0.0 <= c.socMin < c.socMax <= 1.0) && (c.socMin <= c.socInitial <= c.socMax) &&
      (0.0 < c.chargeEfficiency <= 1.0) && !(0.0 < c.dischargeEfficiency <= 1.0)
  {
    if !(0.0 <= c.socMin < c.socMax <= 1.0) then Some(InvalidSocLimits)
    else if !(c.socMin <= c.socInitial <= c.socMax) then Some(InitialSocOutsideLimits)
    else if !(0.0 < c.chargeEfficiency <= 1.0) then Some(InvalidChargeEfficiency)
    else if !(0.0 < c.dischargeEfficiency <= 1.0) then Some(InvalidDischargeEfficiency)
    else None
  }

  /** The defaults pass the validation. */
  lemma DefaultConfigValid()
    ensures Validate(DefaultConfig) == None
  {
  }

  /** A configuration the model can run: accepted by the validation, with a
      positive capacity (the source divides by it). */
  predicate Runnable(c: BatteryConfig) {
    Validate(c).None? && c.capacityKwh > 0.0
  }

  /** `BatteryState`. */
  datatype BatteryState = BatteryState(
    soc: real,
    energyKwh: real,
    capacityKwh: real,
    temperatureC: real,
    cycles: real,
    totalEnergyChargedKwh: real,
    totalEnergyDischargedKwh: real,
    timestep: nat)

  /** Why a charge or discharge was limited; the source's message text
      carries these (with the limit's value formatted in). */
  datatype Reason = NoReason | MaxChargeRate | SocMax | MaxDischargeRate | SocMin | PvAvailability

  /** `StepResult`. */
  datatype StepResult = StepResult(
    action: BatteryAction,
    powerRequestedKw: real,
    powerActualKw: real,
    energyChangeKwh: real,
    socBefore: real,
    socAfter: real,
    gridPowerKw: real,
    pvPowerUsedKw: real,
    lossesKwh: real,
    constrained: bool,
    reason: Reason)

  /** What `_charge` and `_discharge` return: the actual power, the change of
      stored energy, whether a limit applied, and which. */
  datatype Transfer = Transfer(powerKw: real, energyChange: real, constrained: bool, reason: Reason)

  function Min(a: real, b: real): real { if a <= b then a else b }

  function Max(a: real, b: real): real { if a >= b then a else b }

  function Abs(x: real): real { if x < 0.0 then -x else x }

  /** `np.clip(x, lo, hi)`, that is `minimum(maximum(x, lo), hi)`. */
  function Clip(x: real, lo: real, hi: real): (r: real)
    ensures lo <= hi ==> lo <= r <= hi
    ensures lo <= x <= hi ==> r == x
    ensures lo <= hi && x < lo ==> r == lo
    ensures x > hi ==> r == hi
  {
    Min(Max(x, lo), hi)
  }

  /** Dividing by two positive factors and multiplying back. */
  lemma DivideTwiceBack(a: real, e: real, h: real)
    requires e > 0.0 && h > 0.0
    ensures a / e / h * h * e == a
  {
    var x := a / e;
    assert x * e == a;
    assert x / h * h == x;
  }

  /** An amount below `p * h * e`, divided by `e` and `h`, is below `p`. */
  lemma DivideTwiceBelow(a: real, p: real, e: real, h: real)
    requires e > 0.0 && h > 0.0 && a < p * h * e
    ensures a / e / h < p
  {
    DivideTwiceBack(a, e, h);
    var q := a / e / h;
    assert q * (h * e) < p * (h * e);
  }

  /** Multiplying by `e`, dividing by `h`, and undoing both. */
  lemma ScaleBack(a: real, e: real, h: real)
    requires e > 0.0 && h > 0.0
    ensures a * e / h * h / e == a
  {
    var x := a * e;
    assert x / h * h == x;
  }

  /** An amount below `p * h / e`, times `e` over `h`, is below `p`. */
  lemma ScaleBelow(a: real, p: real, e: real, h: real)
    requires e > 0.0 && h > 0.0 && a < p * h / e
    ensures a * e / h < p
  {
    var q := a * e / h;
    ScaleBack(a, e, h);
    assert q * h / e == a;
    assert q * (h / e) < p * (h / e);
  }

  /** An amount within [0, `whole`] over `whole` is a fraction that times
      `whole` gives the amount back. */
  lemma UnitRatio(x: real, whole: real)
    requires whole > 0.0
    ensures var q := x / whole; q * whole == x && (0.0 <= x <= whole ==> 0.0 <= q <= 1.0)
  {
    var q := x / whole;
    assert q * whole == x;
    assert (1.0 - q) * whole == whole - x;
  }

  /** `_charge(power_kw, timestep_hours)` on stored energy `energy` and
      capacity `capacity`: the request is cut to the charge rate, and the
      stored energy (after the charge efficiency) to what fits below
      `soc_max`. */
  function ChargeTransfer(c: BatteryConfig, energy: real, capacity: real, powerKw: real, hours: real): Transfer
    requires c.chargeEfficiency > 0.0 && hours > 0.0
  {
    var rateLimited := powerKw > c.maxChargeRateKw;
    var p := if rateLimited then c.maxChargeRateKw else powerKw;
    var stored := p * hours * c.chargeEfficiency;
    var available := c.socMax * capacity - energy;
    if stored > available then
      Transfer(available / c.chargeEfficiency / hours, available, true, SocMax)
    else
      Transfer(p, stored, rateLimited, if rateLimited then MaxChargeRate else NoReason)
  }

  /** A charge never lifts the energy above `soc_max` of the capacity, and
      its power is within the charge rate and the request; a request above
      the rate is marked limited. */
  lemma ChargeBounds(c: BatteryConfig, energy: real, capacity: real, powerKw: real, hours: real)
    requires c.chargeEfficiency > 0.0 && hours > 0.0
    ensures var t := ChargeTransfer(c, energy, capacity, powerKw, hours);
      && energy + t.energyChange <= c.socMax * capacity
      && t.powerKw <= c.maxChargeRateKw && t.powerKw <= powerKw
      && (powerKw > c.maxChargeRateKw ==> t.constrained)
  {
    var p := Min(powerKw, c.maxChargeRateKw);
    var available := c.socMax * capacity - energy;
    if p * hours * c.chargeEfficiency > available {
      DivideTwiceBelow(available, p, c.chargeEfficiency, hours);
    }
  }

  /** The energy a charge stores is its power over the step times the
      charge efficiency. */
  lemma ChargeEnergy(c: BatteryConfig, energy: real, capacity: real, powerKw: real, hours: real)
    requires c.chargeEfficiency > 0.0 && hours > 0.0
    ensures var t := ChargeTransfer(c, energy, capacity, powerKw, hours);
      t.energyChange == t.powerKw * hours * c.chargeEfficiency
  {
    var p := Min(powerKw, c.maxChargeRateKw);
    var available := c.socMax * capacity - energy;
    if p * hours * c.chargeEfficiency > available {
      DivideTwiceBack(available, c.chargeEfficiency, hours);
    }
  }

  /** A charge is marked limited exactly when the rate or the window cut it;
      the window takes precedence as the reason, and an unlimited charge
      runs at the requested power. */
  lemma ChargeLimits(c: BatteryConfig, energy: real, capacity: real, powerKw: real, hours: real)
    requires c.chargeEfficiency > 0.0 && hours > 0.0
    ensures var t := ChargeTransfer(c, energy, capacity, powerKw, hours);
      var full := Min(powerKw, c.maxChargeRateKw) * hours * c.chargeEfficiency > c.socMax * capacity - energy;
      && (t.constrained <==> (powerKw > c.maxChargeRateKw || full))
      && (t.reason == SocMax <==> full)
      && (t.reason == MaxChargeRate <==> (powerKw > c.maxChargeRateKw && !full))
      && (!t.constrained ==> t.powerKw == powerKw && t.reason == NoReason)
  {
  }

  /** `_discharge(power_kw, timestep_hours)`: the request is cut to the
      discharge rate, and the energy drawn (before the discharge efficiency)
      to what lies above `soc_min`. */
  function DischargeTransfer(c: BatteryConfig, energy: real, capacity: real, powerKw: real, hours: real): Transfer
    requires c.dischargeEfficiency > 0.0 && hours > 0.0
  {
    var rateLimited := powerKw > c.maxDischargeRateKw;
    var p := if rateLimited then c.maxDischargeRateKw else powerKw;
    var drawn := p * hours / c.dischargeEfficiency;
    var available := energy - c.socMin * capacity;
    if drawn > available then
      Transfer(available * c.dischargeEfficiency / hours, -available, true, SocMin)
    else
      Transfer(p, -drawn, rateLimited, if rateLimited then MaxDischargeRate else NoReason)
  }

  /** A discharge never lowers the energy below `soc_min` of the capacity,
      and its power is within the discharge rate and the request; a request
      above the rate is marked limited. */
  lemma DischargeBounds(c: BatteryConfig, energy: real, capacity: real, powerKw: real, hours: real)
    requires c.dischargeEfficiency > 0.0 && hours > 0.0
    ensures var t := DischargeTransfer(c, energy, capacity, powerKw, hours);
      && energy + t.energyChange >= c.socMin * capacity
      && t.powerKw <= c.maxDischargeRateKw && t.powerKw <= powerKw
      && (powerKw > c.maxDischargeRateKw ==> t.constrained)
  {
    var p := Min(powerKw, c.maxDischargeRateKw);
    var available := energy - c.socMin * capacity;
    if p * hours / c.dischargeEfficiency > available {
      ScaleBelow(available, p, c.dischargeEfficiency, hours);
    }
  }

  /** The energy a discharge draws is its power over the step divided by the
      discharge efficiency. */
  lemma DischargeEnergy(c: BatteryConfig, energy: real, capacity: real, powerKw: real, hours: real)
    requires c.dischargeEfficiency > 0.0 && hours > 0.0
    ensures var t := DischargeTransfer(c, energy, capacity, powerKw, hours);
      -t.energyChange == t.powerKw * hours / c.dischargeEfficiency
  {
    var p := Min(powerKw, c.maxDischargeRateKw);
    var available := energy - c.socMin * capacity;
    if p * hours / c.dischargeEfficiency > available {
      ScaleBack(available, c.dischargeEfficiency, hours);
    }
  }

  /** A discharge is marked limited exactly when the rate or the window cut
      it; the window takes precedence as the reason, and an unlimited
      discharge runs at the requested power. */
  lemma DischargeLimits(c: BatteryConfig, energy: real, capacity: real, powerKw: real, hours: real)
    requires c.dischargeEfficiency > 0.0 && hours > 0.0
    ensures var t := DischargeTransfer(c, energy, capacity, powerKw, hours);
      var empty := Min(powerKw, c.maxDischargeRateKw) * hours / c.dischargeEfficiency > energy - c.socMin * capacity;
      && (t.constrained <==> (powerKw > c.maxDischargeRateKw || empty))
      && (t.reason == SocMin <==> empty)
      && (t.reason == MaxDischargeRate <==> (powerKw > c.maxDischargeRateKw && !empty))
      && (!t.constrained ==> t.powerKw == powerKw && t.reason == NoReason)
  {
  }

  /** The transfer an action asks for, on the energy left after
      self-discharge: PV charging is capped by the PV available (and marked
      when the request exceeded it), discharging to the load by a positive
      load demand. */
  function ActionTransfer(c: BatteryConfig, energy: real, capacity: real, action: BatteryAction,
                          powerKw: real, pvKw: real, loadKw: real, hours: real): Transfer
    requires c.chargeEfficiency > 0.0 && c.dischargeEfficiency > 0.0 && hours > 0.0
  {
    match action
    case Idle => Transfer(0.0, 0.0, false, NoReason)
    case ChargeFromGrid => ChargeTransfer(c, energy, capacity, powerKw, hours)
    case ChargeFromPv =>
      var t := ChargeTransfer(c, energy, capacity, Min(powerKw, pvKw), hours);
      if powerKw > pvKw then t.(constrained := true, reason := PvAvailability) else t
    case DischargeToLoad =>
      DischargeTransfer(c, energy, capacity, if loadKw > 0.0 then Min(powerKw, loadKw) else powerKw, hours)
    case DischargeToGrid => DischargeTransfer(c, energy, capacity, powerKw, hours)
  }

  /** The energy lost by self-discharge over a step. */
  function SelfDischarge(c: BatteryConfig, s: BatteryState, hours: real): real {
    s.energyKwh * c.selfDischargeRate * hours
  }

  /** The grid power `step` reports for an action and its transfer: the
      power a grid charge draws, and the power a discharge delivers as a
      negative figure. */
  function GridPower(action: BatteryAction, t: Transfer): real {
    match action
    case ChargeFromGrid => t.powerKw
    case DischargeToLoad => -t.powerKw
    case DischargeToGrid => -t.powerKw
    case _ => 0.0
  }

  /** The PV power `step` reports as used: the power of a PV charge. */
  function PvUsed(action: BatteryAction, t: Transfer): real {
    if action == ChargeFromPv then t.powerKw else 0.0
  }

  /** The losses of the transfer itself: for a charge the energy drawn less
      the energy stored, for a discharge the energy taken from storage less
      the energy delivered. */
  function TransferLosses(action: BatteryAction, t: Transfer, hours: real): real {
    match action
    case Idle => 0.0
    case ChargeFromGrid => t.powerKw * hours - t.energyChange
    case ChargeFromPv => t.powerKw * hours - t.energyChange
    case _ => Abs(t.energyChange) - t.powerKw * hours
  }

  /** The rest of `step` once the self-discharge `sd` is lost and the
      action's transfer `t` is known: the new state of charge, the cycle
      count, the totals, the counter and the result. */
  function Settle(s: BatteryState, action: BatteryAction, powerKw: real, hours: real, sd: real, t: Transfer)
    : (BatteryState, StepResult)
    requires s.capacityKwh > 0.0
  {
    var e2 := s.energyKwh - sd + t.energyChange;
    var ec := t.energyChange;
    var soc := Clip(e2 / s.capacityKwh, 0.0, 1.0);
    var s2 := s.(
      soc := soc,
      energyKwh := e2,
      cycles := if ec != 0.0 then s.cycles + Abs(ec) / (2.0 * s.capacityKwh) else s.cycles,
      totalEnergyChargedKwh := if ec > 0.0 then s.totalEnergyChargedKwh + ec else s.totalEnergyChargedKwh,
      totalEnergyDischargedKwh := if ec > 0.0 then s.totalEnergyDischargedKwh else s.totalEnergyDischargedKwh + Abs(ec),
      timestep := s.timestep + 1);
    (s2, StepResult(action, powerKw, t.powerKw, ec, s.soc, soc, GridPower(action, t), PvUsed(action, t),
                    sd + TransferLosses(action, t, hours), t.constrained, t.reason))
  }

  /** The state after a step and its result, as `step` computes them. */
  function StepSpec(c: BatteryConfig, s: BatteryState, action: BatteryAction,
                    powerKw: real, pvKw: real, loadKw: real, hours: real): (BatteryState, StepResult)
    requires c.chargeEfficiency > 0.0 && c.dischargeEfficiency > 0.0 && hours > 0.0 && s.capacityKwh > 0.0
  {
    var sd := SelfDischarge(c, s, hours);
    Settle(s, action, powerKw, hours, sd, ActionTransfer(c, s.energyKwh - sd, s.capacityKwh, action, powerKw, pvKw, loadKw, hours))
  }

  /** A step is its transfer, settled. */
  lemma StepSpecSettles(c: BatteryConfig, s: BatteryState, action: BatteryAction,
                        powerKw: real, pvKw: real, loadKw: real, hours: real, sd: real, t: Transfer)
    requires c.chargeEfficiency > 0.0 && c.dischargeEfficiency > 0.0 && hours > 0.0 && s.capacityKwh > 0.0
    requires sd == SelfDischarge(c, s, hours)
    requires t == ActionTransfer(c, s.energyKwh - sd, s.capacityKwh, action, powerKw, pvKw, loadKw, hours)
    ensures StepSpec(c, s, action, powerKw, pvKw, loadKw, hours) == Settle(s, action, powerKw, hours, sd, t)
  {
  }

  /** The state `reset` builds: the initial SOC (the argument, else the
      configured one) clipped into the SOC window, the energy it stands for,
      and zeroed counters. */
  function InitialState(c: BatteryConfig, socInitial: Option<real>): (s: BatteryState)
    requires c.socMin <= c.socMax
    ensures c.socMin <= s.soc <= c.socMax
    ensures var want := socInitial.GetOr(c.socInitial); c.socMin <= want <= c.socMax ==> s.soc == want
    ensures s.energyKwh == s.soc * c.capacityKwh && s.capacityKwh == c.capacityKwh
    ensures s.cycles == 0.0 && s.totalEnergyChargedKwh == 0.0 && s.totalEnergyDischargedKwh == 0.0
    ensures s.timestep == 0 && s.temperatureC == 25.0
  {
    var soc := Clip(socInitial.GetOr(c.socInitial), c.socMin, c.socMax);
    BatteryState(soc, soc * c.capacityKwh, c.capacityKwh, 25.0, 0.0, 0.0, 0.0, 0)
  }

  /** The timestep the step runs with: the argument, else the configured one. */
  function Hours(c: BatteryConfig, timestepHours: Option<real>): real {
    timestepHours.GetOr(c.timestepHours)
  }

  /** `BatteryModel`. */
  class BatteryModel {
    const config: BatteryConfig
    var state: BatteryState
    var history: seq<StepResult>

    /** The configuration is runnable and the capacity is the configured one
        (nothing in the model degrades it). */
    ghost predicate Valid()
      reads this
    {
      Runnable(config) && state.capacityKwh == config.capacityKwh
    }

    /** `BatteryModel(config)`: the configuration (the defaults when none is
        given) and a freshly reset state. */
    constructor(cfg: Option<BatteryConfig>)
      requires Runnable(cfg.GetOr(DefaultConfig))
      ensures Valid()
      ensures config == cfg.GetOr(DefaultConfig)
      ensures state == InitialState(config, None) && history == []
    {
      config := cfg.GetOr(DefaultConfig);
      var c := cfg.GetOr(DefaultConfig);
      var soc := Clip(c.socInitial, c.socMin, c.socMax);
      state := BatteryState(soc, soc * c.capacityKwh, c.capacityKwh, 25.0, 0.0, 0.0, 0.0, 0);
      history := [];
    }

    /** `reset(soc_initial)`: rebuilds the state and empties the history. */
    method Reset(socInitial: Option<real>) returns (s: BatteryState)
      requires Valid()
      modifies this
      ensures Valid()
      ensures state == InitialState(config, socInitial) && s == state && history == []
    {
      var soc := if socInitial.Some? then socInitial.value else config.socInitial;
      soc := Clip(soc, config.socMin, config.socMax);
      state := BatteryState(soc, soc * config.capacityKwh, config.capacityKwh, 25.0, 0.0, 0.0, 0.0, 0);
      history := [];
      s := state;
    }

    /** `_charge`: adds the stored energy to the state and returns the
        transfer. */
    method Charge(powerKw: real, hours: real) returns (actual: real, energyStored: real, constrained: bool, reason: Reason)
      requires Valid() && hours > 0.0
      modifies this
      ensures Valid() && history == old(history)
      ensures Transfer(actual, energyStored, constrained, reason)
        == ChargeTransfer(config, old(state).energyKwh, old(state).capacityKwh, powerKw, hours)
      ensures state == old(state).(energyKwh := old(state).energyKwh + energyStored)
    {
      constrained := false;
      reason := NoReason;
      actual := powerKw;
      if actual > config.maxChargeRateKw {
        actual := config.maxChargeRateKw;
        constrained := true;
        reason := MaxChargeRate;
      }
      var energyIn := actual * hours;
      energyStored := energyIn * config.chargeEfficiency;
      var maxEnergy := config.socMax * state.capacityKwh;
      var available := maxEnergy - state.energyKwh;
      if energyStored > available {
        energyStored := available;
        energyIn := energyStored / config.chargeEfficiency;
        actual := energyIn / hours;
        constrained := true;
        reason := SocMax;
      }
      state := state.(energyKwh := state.energyKwh + energyStored);
    }

    /** `_discharge`: removes the energy drawn from the state and returns the
        transfer (its energy change negative). */
    method Discharge(powerKw: real, hours: real) returns (actual: real, energyChange: real, constrained: bool, reason: Reason)
      requires Valid() && hours > 0.0
      modifies this
      ensures Valid() && history == old(history)
      ensures Transfer(actual, energyChange, constrained, reason)
        == DischargeTransfer(config, old(state).energyKwh, old(state).capacityKwh, powerKw, hours)
      ensures state == old(state).(energyKwh := old(state).energyKwh + energyChange)
    {
      constrained := false;
      reason := NoReason;
      actual := powerKw;
      if actual > config.maxDischargeRateKw {
        actual := config.maxDischargeRateKw;
        constrained := true;
        reason := MaxDischargeRate;
      }
      var energyOut := actual * hours;
      var drawn := energyOut / config.dischargeEfficiency;
      var minEnergy := config.socMin * state.capacityKwh;
      var available := state.energyKwh - minEnergy;
      if drawn > available {
        drawn := available;
        energyOut := drawn * config.dischargeEfficiency;
        actual := energyOut / hours;
        constrained := true;
        reason := SocMin;
      }
      state := state.(energyKwh := state.energyKwh - drawn);
      energyChange := -drawn;
    }

    /** The action dispatch of `step`, on the state after self-discharge:
        charges or discharges as the action says and returns the transfer,
        with the grid and PV power; `step` adds the transfer's losses (`TransferLosses`) to the self-discharge. */
    method Act(action: BatteryAction, powerKw: real, pvAvailableKw: real, loadDemandKw: real, hours: real)
      returns (t: Transfer, gridPower: real, pvPowerUsed: real)
      requires Valid() && hours > 0.0
      modifies this
      ensures Valid() && history == old(history)
      ensures t == ActionTransfer(config, old(state).energyKwh, old(state).capacityKwh, action,
                                  powerKw, pvAvailableKw, loadDemandKw, hours)
      ensures state == old(state).(energyKwh := old(state).energyKwh + t.energyChange)
      ensures gridPower == GridPower(action, t) && pvPowerUsed == PvUsed(action, t)
    {
      var constrained := false;
      var reason := NoReason;
      gridPower := 0.0;
      pvPowerUsed := 0.0;
      var powerActual: real, energyChange: real;
      match action {
        case Idle =>
          powerActual := 0.0;
          energyChange := 0.0;
        case ChargeFromGrid =>
          powerActual, energyChange, constrained, reason := Charge(powerKw, hours);
          gridPower := powerActual;
        case ChargeFromPv =>
          var chargePower := Min(powerKw, pvAvailableKw);
          powerActual, energyChange, constrained, reason := Charge(chargePower, hours);
          pvPowerUsed := powerActual;
          if powerKw > pvAvailableKw {
            constrained := true;
            reason := PvAvailability;
          }
        case DischargeToLoad =>
          var dischargePower := if loadDemandKw > 0.0 then Min(powerKw, loadDemandKw) else powerKw;
          powerActual, energyChange, constrained, reason := Discharge(dischargePower, hours);
          gridPower := -powerActual;
        case DischargeToGrid =>
          powerActual, energyChange, constrained, reason := Discharge(powerKw, hours);
          gridPower := -powerActual;
      }
      t := Transfer(powerActual, energyChange, constrained, reason);
    }

    /** The end of `step`: the new state of charge, the cycle count, the
        totals and the counter, then the result and its record in the
        history.  `s0` is the state the step started from. */
    method FinishStep(ghost s0: BatteryState, action: BatteryAction, powerKw: real, hours: real, sd: real,
                      t: Transfer, socBefore: real, gridPower: real, pvPowerUsed: real, losses: real)
      returns (result: StepResult)
      requires Valid() && s0.capacityKwh == state.capacityKwh && socBefore == s0.soc
      requires state == s0.(energyKwh := s0.energyKwh - sd + t.energyChange)
      requires gridPower == GridPower(action, t) && pvPowerUsed == PvUsed(action, t)
      requires losses == sd + TransferLosses(action, t, hours)
      modifies this
      ensures Valid()
      ensures (state, result) == Settle(s0, action, powerKw, hours, sd, t)
      ensures state.energyKwh == old(state).energyKwh
      ensures history == old(history) + [result]
    {
      var energyChange := t.energyChange;
      state := state.(soc := Clip(state.energyKwh / state.capacityKwh, 0.0, 1.0));
      if energyChange != 0.0 {
        state := state.(cycles := state.cycles + Abs(energyChange) / (2.0 * state.capacityKwh));
      }
      if energyChange > 0.0 {
        state := state.(totalEnergyChargedKwh := state.totalEnergyChargedKwh + energyChange);
      } else {
        state := state.(totalEnergyDischargedKwh := state.totalEnergyDischargedKwh + Abs(energyChange));
      }
      state := state.(timestep := state.timestep + 1);
      result := StepResult(action, powerKw, t.powerKw, energyChange, socBefore, state.soc,
                           gridPower, pvPowerUsed, losses, t.constrained, t.reason);
      history := history + [result];
    }

    /** `step(action, power_kw, pv_available_kw, load_demand_kw,
        timestep_hours, ambient_temp_c)`: self-discharge, the action's
        transfer, then the bookkeeping. */
    method Step(action: BatteryAction, powerKw: real, pvAvailableKw: real, loadDemandKw: real,
                timestepHours: Option<real>, ambientTempC: real) returns (result: StepResult)
      requires Valid() && Hours(config, timestepHours) > 0.0
      modifies this
      ensures Valid()
      ensures (state, result) == StepSpec(config, old(state), action, powerKw, pvAvailableKw, loadDemandKw,
                                          Hours(config, timestepHours))
      ensures history == old(history) + [result]
    {
      var hours := if timestepHours.Some? then timestepHours.value else config.timestepHours;
      ghost var s0 := state;
      var socBefore := state.soc;
      var selfDischarge := SelfDischarge(config, state, hours);
      state := state.(energyKwh := state.energyKwh - selfDischarge);
      var t, gridPower, pvPowerUsed := Act(action, powerKw, pvAvailableKw, loadDemandKw, hours);
      var losses := selfDischarge + TransferLosses(action, t, hours);
      result := FinishStep(s0, action, powerKw, hours, selfDischarge, t, socBefore, gridPower, pvPowerUsed, losses);
      StepSpecSettles(config, s0, action, powerKw, pvAvailableKw, loadDemandKw, hours, selfDischarge, t);
    }

    /** `get_available_charge_power()`: the charge rate, or the power whose
        stored energy over one hour just fills the window, whichever is less. */
    function AvailableChargePower(): real
      reads this
      requires Valid()
    {
      Min(config.maxChargeRateKw, (config.socMax * state.capacityKwh - state.energyKwh) / config.chargeEfficiency)
    }

    /** `get_available_discharge_power()`: the discharge rate, or the power
        that over one hour draws the energy down to `soc_min`, whichever is
        less. */
    function AvailableDischargePower(): real
      reads this
      requires Valid()
    {
      Min(config.maxDischargeRateKw, (state.energyKwh - config.socMin * state.capacityKwh) * config.dischargeEfficiency)
    }
  }

  /** Charging at the available charge power for one hour meets no limit. */
  lemma AvailableChargePowerUnconstrained(b: BatteryModel)
    requires b.Valid()
    ensures !ChargeTransfer(b.config, b.state.energyKwh, b.state.capacityKwh, b.AvailableChargePower(), 1.0).constrained
  {
    var c := b.config;
    var room := c.socMax * b.state.capacityKwh - b.state.energyKwh;
    var p := b.AvailableChargePower();
    assert room / c.chargeEfficiency * c.chargeEfficiency == room;
    assert p * 1.0 * c.chargeEfficiency <= room;
  }

  /** Discharging at the available discharge power for one hour meets no
      limit. */
  lemma AvailableDischargePowerUnconstrained(b: BatteryModel)
    requires b.Valid()
    ensures !DischargeTransfer(b.config, b.state.energyKwh, b.state.capacityKwh, b.AvailableDischargePower(), 1.0).constrained
  {
    var c := b.config;
    var left := b.state.energyKwh - c.socMin * b.state.capacityKwh;
    var p := b.AvailableDischargePower();
    assert left * c.dischargeEfficiency / c.dischargeEfficiency == left;
    assert p * 1.0 / c.dischargeEfficiency <= left;
  }

  /** How the state and the result after a step come from its transfer. */
  lemma SettleParts(s: BatteryState, action: BatteryAction, powerKw: real, hours: real, sd: real, t: Transfer)
    requires s.capacityKwh > 0.0
    ensures var (s2, r) := Settle(s, action, powerKw, hours, sd, t);
      && s2.energyKwh == s.energyKwh - sd + t.energyChange
      && r.powerActualKw == t.powerKw && r.energyChangeKwh == t.energyChange
      && r.constrained == t.constrained && r.reason == t.reason
      && r.gridPowerKw == GridPower(action, t) && r.pvPowerUsedKw == PvUsed(action, t)
      && r.lossesKwh == sd + TransferLosses(action, t, hours)
  {
  }

  /** A step keeps the capacity, raises the step counter by one, and never
      lowers the cycle count or either energy total. */
  lemma StepCountersMonotone(c: BatteryConfig, s: BatteryState, action: BatteryAction,
                             powerKw: real, pvKw: real, loadKw: real, hours: real)
    requires c.chargeEfficiency > 0.0 && c.dischargeEfficiency > 0.0 && hours > 0.0 && s.capacityKwh > 0.0
    ensures var s2 := StepSpec(c, s, action, powerKw, pvKw, loadKw, hours).0;
      && s2.capacityKwh == s.capacityKwh
      && s2.timestep == s.timestep + 1
      && s2.cycles >= s.cycles
      && s2.totalEnergyChargedKwh >= s.totalEnergyChargedKwh
      && s2.totalEnergyDischargedKwh >= s.totalEnergyDischargedKwh
  {
    var ec := StepSpec(c, s, action, powerKw, pvKw, loadKw, hours).1.energyChangeKwh;
    assert Abs(ec) / (2.0 * s.capacityKwh) >= 0.0;
  }

  /** The state of charge after a step is the stored energy over the
      capacity, clipped to [0, 1], and the result reports it and the one
      before. */
  lemma StepSoc(c: BatteryConfig, s: BatteryState, action: BatteryAction,
                powerKw: real, pvKw: real, loadKw: real, hours: real)
    requires c.chargeEfficiency > 0.0 && c.dischargeEfficiency > 0.0 && hours > 0.0 && s.capacityKwh > 0.0
    ensures var (s2, r) := StepSpec(c, s, action, powerKw, pvKw, loadKw, hours);
      && s2.soc == Clip(s2.energyKwh / s.capacityKwh, 0.0, 1.0)
      && 0.0 <= s2.soc <= 1.0
      && (0.0 <= s2.energyKwh <= s.capacityKwh ==> s2.soc * s.capacityKwh == s2.energyKwh)
      && r.socAfter == s2.soc && r.socBefore == s.soc
  {
    var s2 := StepSpec(c, s, action, powerKw, pvKw, loadKw, hours).0;
    UnitRatio(s2.energyKwh, s.capacityKwh);
  }

  /** An idle step changes the energy by self-discharge alone, moves no
      power, keeps the cycle count and totals, and loses exactly the
      self-discharge. */
  lemma StepIdle(c: BatteryConfig, s: BatteryState, powerKw: real, pvKw: real, loadKw: real, hours: real)
    requires c.chargeEfficiency > 0.0 && c.dischargeEfficiency > 0.0 && hours > 0.0 && s.capacityKwh > 0.0
    ensures var (s2, r) := StepSpec(c, s, Idle, powerKw, pvKw, loadKw, hours);
      && s2.energyKwh == s.energyKwh - s.energyKwh * c.selfDischargeRate * hours
      && r.powerActualKw == 0.0 && r.energyChangeKwh == 0.0 && !r.constrained
      && r.lossesKwh == s.energyKwh * c.selfDischargeRate * hours
      && s2.cycles == s.cycles
      && s2.totalEnergyChargedKwh == s.totalEnergyChargedKwh
      && s2.totalEnergyDischargedKwh == s.totalEnergyDischargedKwh
  {
  }

  /** Settling a charging transfer that stores its power over the step
      times `eff`: the losses are `sd` plus the drawn energy times `1 - eff`. */
  lemma SettleChargeLosses(s: BatteryState, action: BatteryAction, powerKw: real, hours: real, sd: real,
                           t: Transfer, eff: real, r: StepResult)
    requires s.capacityKwh > 0.0 && (action == ChargeFromGrid || action == ChargeFromPv)
    requires t.energyChange == t.powerKw * hours * eff
    requires r == Settle(s, action, powerKw, hours, sd, t).1
    ensures r.lossesKwh == sd + r.powerActualKw * hours * (1.0 - eff)
  {
    SettleParts(s, action, powerKw, hours, sd, t);
  }

  /** Settling a discharging transfer whose drawn energy is its power over
      the step divided by `eff`: when it draws, the losses are `sd` plus what
      the efficiency loses of the drawn energy. */
  lemma SettleDischargeLosses(s: BatteryState, action: BatteryAction, powerKw: real, hours: real, sd: real,
                              t: Transfer, eff: real, r: StepResult)
    requires s.capacityKwh > 0.0 && (action == DischargeToLoad || action == DischargeToGrid)
    requires eff > 0.0 && -t.energyChange == t.powerKw * hours / eff
    requires r == Settle(s, action, powerKw, hours, sd, t).1
    ensures var drawn := r.powerActualKw * hours;
      r.energyChangeKwh <= 0.0 ==> r.lossesKwh == sd + (drawn / eff - drawn)
  {
    SettleParts(s, action, powerKw, hours, sd, t);
  }

  /** A charging action keeps the energy within `soc_max` of the capacity
      and its power within the charge rate and the request, marking a
      request above the rate as limited; charging from PV also stays within
      the PV available and marks a request above it. */
  lemma ActionChargeBounds(c: BatteryConfig, energy: real, capacity: real, action: BatteryAction,
                           powerKw: real, pvKw: real, loadKw: real, hours: real)
    requires c.chargeEfficiency > 0.0 && c.dischargeEfficiency > 0.0 && hours > 0.0
    requires action == ChargeFromGrid || action == ChargeFromPv
    ensures var t := ActionTransfer(c, energy, capacity, action, powerKw, pvKw, loadKw, hours);
      && energy + t.energyChange <= c.socMax * capacity
      && t.powerKw <= c.maxChargeRateKw && t.powerKw <= powerKw
      && (powerKw > c.maxChargeRateKw ==> t.constrained)
      && (action == ChargeFromPv ==> t.powerKw <= pvKw && (powerKw > pvKw ==> t.constrained && t.reason == PvAvailability))
  {
    if action == ChargeFromGrid {
      ChargeBounds(c, energy, capacity, powerKw, hours);
    } else {
      ChargeBounds(c, energy, capacity, Min(powerKw, pvKw), hours);
    }
  }

  /** A discharging action keeps the energy at or above `soc_min` of the
      capacity and its power within the discharge rate and the request (and
      a positive load demand when discharging to the load), marking a
      request above the rate as limited. */
  lemma ActionDischargeBounds(c: BatteryConfig, energy: real, capacity: real, action: BatteryAction,
                              powerKw: real, pvKw: real, loadKw: real, hours: real)
    requires c.chargeEfficiency > 0.0 && c.dischargeEfficiency > 0.0 && hours > 0.0
    requires action == DischargeToLoad || action == DischargeToGrid
    ensures var t := ActionTransfer(c, energy, capacity, action, powerKw, pvKw, loadKw, hours);
      var want := if action == DischargeToLoad && loadKw > 0.0 then Min(powerKw, loadKw) else powerKw;
      && energy + t.energyChange >= c.socMin * capacity
      && t.powerKw <= c.maxDischargeRateKw && t.powerKw <= want && want <= powerKw
      && (want > c.maxDischargeRateKw ==> t.constrained)
  {
    var want := if action == DischargeToLoad && loadKw > 0.0 then Min(powerKw, loadKw) else powerKw;
    DischargeBounds(c, energy, capacity, want, hours);
  }

  /** A step's energy is the starting energy less self-discharge plus the
      transfer on the energy left, and the result reports that transfer. */
  lemma StepTransfer(c: BatteryConfig, s: BatteryState, action: BatteryAction,
                     powerKw: real, pvKw: real, loadKw: real, hours: real)
    requires c.chargeEfficiency > 0.0 && c.dischargeEfficiency > 0.0 && hours > 0.0 && s.capacityKwh > 0.0
    ensures var sd := SelfDischarge(c, s, hours);
      var t := ActionTransfer(c, s.energyKwh - sd, s.capacityKwh, action, powerKw, pvKw, loadKw, hours);
      var (s2, r) := StepSpec(c, s, action, powerKw, pvKw, loadKw, hours);
      && s2.energyKwh == s.energyKwh - sd + t.energyChange
      && r.powerActualKw == t.powerKw && r.energyChangeKwh == t.energyChange
      && r.constrained == t.constrained && r.reason == t.reason
  {
    var sd := SelfDischarge(c, s, hours);
    var t := ActionTransfer(c, s.energyKwh - sd, s.capacityKwh, action, powerKw, pvKw, loadKw, hours);
    StepSpecSettles(c, s, action, powerKw, pvKw, loadKw, hours, sd, t);
    SettleParts(s, action, powerKw, hours, sd, t);
  }

  /** A charging step runs within the charge rate and the request and marks
      a request above the rate as limited; charging from PV also stays
      within the PV available and marks a request above it. */
  lemma StepChargePower(c: BatteryConfig, s: BatteryState, action: BatteryAction,
                        powerKw: real, pvKw: real, loadKw: real, hours: real, r: StepResult)
    requires c.chargeEfficiency > 0.0 && c.dischargeEfficiency > 0.0 && hours > 0.0 && s.capacityKwh > 0.0
    requires action == ChargeFromGrid || action == ChargeFromPv
    requires r == StepSpec(c, s, action, powerKw, pvKw, loadKw, hours).1
    ensures r.powerActualKw <= c.maxChargeRateKw && r.powerActualKw <= powerKw
    ensures powerKw > c.maxChargeRateKw ==> r.constrained
    ensures action == ChargeFromPv ==>
      r.powerActualKw <= pvKw && (powerKw > pvKw ==> r.constrained && r.reason == PvAvailability)
  {
    StepTransfer(c, s, action, powerKw, pvKw, loadKw, hours);
    ActionChargeBounds(c, s.energyKwh - SelfDischarge(c, s, hours), s.capacityKwh, action, powerKw, pvKw, loadKw, hours);
  }

  /** A discharging step runs within the discharge rate and the request (and
      a positive load demand when discharging to the load), and marks a
      request above the rate as limited. */
  lemma StepDischargePower(c: BatteryConfig, s: BatteryState, action: BatteryAction,
                           powerKw: real, pvKw: real, loadKw: real, hours: real, r: StepResult)
    requires c.chargeEfficiency > 0.0 && c.dischargeEfficiency > 0.0 && hours > 0.0 && s.capacityKwh > 0.0
    requires action == DischargeToLoad || action == DischargeToGrid
    requires r == StepSpec(c, s, action, powerKw, pvKw, loadKw, hours).1
    ensures var want := if action == DischargeToLoad && loadKw > 0.0 then Min(powerKw, loadKw) else powerKw;
      && r.powerActualKw <= c.maxDischargeRateKw && r.powerActualKw <= want && want <= powerKw
      && (want > c.maxDischargeRateKw ==> r.constrained)
  {
    StepTransfer(c, s, action, powerKw, pvKw, loadKw, hours);
    ActionDischargeBounds(c, s.energyKwh - SelfDischarge(c, s, hours), s.capacityKwh, action, powerKw, pvKw, loadKw, hours);
  }
}
