# EnergyPlus controls: a verified model of the sequential core

This project models, in Dafny, the logic underneath the scripts of an
EnergyPlus building-controls repository, and proves properties of it.
The repository drives EnergyPlus simulations of a fifteen-zone office
model. It pairs them with a battery and a solar PV model, controls the
zone setpoints with a power-aware rule, and maintains its IDF model files.
The glue around that logic, such as HTTP downloads, subprocess runs,
threads and calls into the engine, is left out or turned into inputs.

The modules follow the repository's files:

- `Battery` (battery.dfy), from `battery_model.py`. A class `BatteryModel`
  holds the configuration, the state and the history. `Step` applies
  self-discharge, then charges, discharges or idles as the action says.
  The transfer is clamped by the power rate, the efficiency, the available
  PV and the state-of-charge window. `Step` then updates the state of
  charge, the cycle count, the running totals, the step counter and the
  history. Every method is proved against pure specification functions.
  The SOC window, the rate limits and the monotone counters are proved
  about those functions.
- `StepEnv` (eplus_env.dfy) and `EngineApi` (engine_api.dfy), from
  `eplus_env.py`. The step environment is a class with the same fields as
  the source. The engine is passed to each call as a value: its warm-up
  flag, kind of simulation, handle lookups and readings. The two queues
  become a single lockstep exchange: `Step` takes the action and returns
  the reply it queues, and the message it reads is a parameter; the
  callback takes its reply as a parameter and returns the observation
  it sends. The engine calls the environment makes
  (actuator writes, stop) are returned as a log.
- `SetpointRule` (setpoint_rule.dfy), `RuleControl` (run_control_sim.dfy)
  and `ExternalControl` (external_controller.dfy), from run_control_sim.py
  and external_controller.py. The setpoint rule is shared: an adjustment
  driven by the previous step's power, then a 2 °C deadband. The in-process
  controller initialises its handles, writes the same pair to every
  controlled zone, logs every fourth step and summarises its log. The
  external controller answers observations of the step environment and
  fixes up the clock.
- `IdfVersionText`, `UpgradeIdf`, `ManageModels`, `CheckEngine`,
  `ExampleModelManagement` and `UpgradeModels`, from the IDF version tools.
  They cover:
  - the four different `get_idf_version` scans;
  - the walk over the transition table;
  - integer and decimal version comparison;
  - the sorting of models into higher, lower, matching and unknown;
  - the upgrade decision flows;
  - the in-place rewrite of the version line.

  `LineScan` (line_scan.dfy), `ModelFiles` (model_files.dfy) and `PyText`
  (py_text.dfy) hold what these modules share: the first-match loop and
  filter, the backup step over a map of files, and the Python string
  operations (`split`, `join`, `strip`, `upper`, `int()`, `float()`).
- `WeatherData` (download_weather.dfy), from `download_weather.py`. It
  covers the Open-Meteo hourly table written as CSV, the EPW hour and sky
  cover of each record, and the date range read back from an EPW file.
- `SolarPv` (solar_pv_model.dfy), from `solar_pv_model.py`. It covers the
  configuration defaults and `__post_init__`, and the POA guards. It also
  covers the DC power formula and the inverter ramp and clip, the weather
  lookup (exact, then nearest) and the error paths of
  `get_power_at_timestep` and `simulate`. The sun position, the incident
  irradiance and the cell temperature's `exp` are a `Numerics` parameter.
  The weather reader's output enters as the `rows` and `lat` arguments of
  `LoadWeather`.
- `Wrappers` (wrappers.dfy) holds `Option`.

Physical quantities are Dafny `real`s, so rounding is not modelled. Text is
`seq<char>`. A file is its list of lines, and the file system is a map from
path to contents. A Python exception becomes an error value (an `Option`,
an `Outcome` or a result flag) wherever the source raises or catches it.

Some choices follow the code rather than its comments or documentation:

- pandas' `get_indexer(..., method='nearest')` picks the later row on a
  tie;
- `LoadWeather` takes a weather index that is strictly increasing, so
  that the exact and nearest lookups each give one row (see "Left out"
  for the repeated timestamps the source accepts);
- the inverter ramp divides by `0.1` as written;
- an empty weather table raises an error on every path;
- `load_weather` overwrites a tilt of exactly 20.0, even one given
  explicitly, because the code compares the value and not whether it was
  given;
- upgrade_models.py's `get_idf_version` returns the keyword `Version`,
  although its comment promises the version number (see Findings).

## Model

| member | source | states |
|---|---|---|
| Battery.Validate | battery_model.py:61-75 | a configuration is accepted exactly when 0 ≤ soc_min < soc_max ≤ 1, the initial SOC lies between them and both efficiencies lie in (0, 1]; each of the four errors is returned exactly when its assertion fails and every earlier one holds, in the order soc limits, initial SOC, charge efficiency, discharge efficiency |
| Battery.DefaultConfigValid | battery_model.py:27-75 | the default configuration passes the validation |
| Battery.Clip | battery_model.py:149 | `np.clip` lands in [lo, hi], is the identity inside it and gives lo or hi outside it |
| Battery.InitialState | battery_model.py:148-160 | the start SOC is the given or configured one clipped into [soc_min, soc_max]; energy = soc × capacity; counters, totals and timestep are zero; 25 °C |
| Battery.BatteryModel.constructor | battery_model.py:128-136 | the given configuration or the defaults, a reset state and an empty history |
| Battery.BatteryModel.Reset | battery_model.py:138-163 | the state becomes the initial state for the given SOC and the history is emptied; the new state is returned |
| Battery.ChargeBounds | battery_model.py:301-322 | after a charge the energy never exceeds soc_max × capacity; the actual power is at most the rate limit and the request; a request above the rate is marked constrained |
| Battery.ChargeEnergy | battery_model.py:306-317 | the stored energy is the actual power × hours × charge efficiency |
| Battery.ChargeLimits | battery_model.py:301-319 | constrained exactly when the rate or the SOC window limits; the reason is SOC max exactly when the window limits, max charge rate exactly when only the rate does; unconstrained charges run at the requested power |
| Battery.DischargeBounds | battery_model.py:341-362 | after a discharge the energy never drops below soc_min × capacity; the actual power is at most the rate limit and the request; a request above the rate is marked constrained |
| Battery.DischargeEnergy | battery_model.py:346-357 | the energy drawn is the actual power × hours / discharge efficiency |
| Battery.DischargeLimits | battery_model.py:341-359 | constrained exactly when the rate or the SOC window limits; reason SOC min exactly when the window limits, max discharge rate exactly when only the rate does; unconstrained discharges run at the requested power |
| Battery.BatteryModel.Charge | battery_model.py:286-324 | `_charge` returns the transfer of the charge function and adds its stored energy to the state; nothing else changes |
| Battery.BatteryModel.Discharge | battery_model.py:326-364 | `_discharge` returns the transfer of the discharge function and removes the drawn energy; nothing else changes |
| Battery.BatteryModel.Act | battery_model.py:209-248 | the action dispatch: the transfer of the action, applied to the stored energy, with the grid and PV power the source reports |
| Battery.ActionChargeBounds | battery_model.py:213-230 | both charge actions stay inside soc_max × capacity and the rate limit; a PV charge never exceeds the PV available and a request above it is constrained with the PV reason |
| Battery.ActionDischargeBounds | battery_model.py:232-247 | both discharge actions stay above soc_min × capacity and within the rate limit and the request, which discharge-to-load first limits to a positive load demand |
| Battery.BatteryModel.FinishStep | battery_model.py:252-284 | the bookkeeping after the transfer: SOC, cycles, totals, counter and result as the settle function computes them, and one result appended to the history |
| Battery.BatteryModel.Step | battery_model.py:165-284 | `step`: the new state and result are the step function of the old state, and the history grows by exactly that result |
| Battery.SettleParts | battery_model.py:252-282 | the result reports the transfer's power, energy change, constraint and reason, the grid and PV power, and losses = self-discharge + the transfer's own losses |
| Battery.StepTransfer | battery_model.py:199-282 | the new energy is the old energy less self-discharge plus the transfer computed on the energy left, and the result reports that transfer |
| Battery.StepCountersMonotone | battery_model.py:256-266 | a step keeps the capacity, raises the timestep by exactly 1 and never lowers cycles or either energy total |
| Battery.StepSoc | battery_model.py:252-253 | the new SOC is energy / capacity clipped to [0, 1], and times the capacity gives the energy back while the energy is within [0, capacity] |
| Battery.StepIdle | battery_model.py:200-211 | IDLE gives actual power 0, energy change 0, no constraint, losses = energy × rate × hours, and leaves cycles and totals unchanged |
| Battery.StepChargePower | battery_model.py:213-230 | in a step, charge power ≤ max_charge_rate_kw and ≤ the request; a PV charge ≤ pv_available_kw, constrained when the request exceeded it |
| Battery.StepDischargePower | battery_model.py:232-247 | in a step, discharge power ≤ max_discharge_rate_kw and ≤ the (load-limited) request; a request above the rate is constrained |
| Battery.SettleChargeLosses | battery_model.py:213-230 | for a charge the losses are self-discharge + drawn energy × (1 − efficiency) |
| Battery.SettleDischargeLosses | battery_model.py:232-247 | for a discharge the losses are self-discharge + drawn energy / efficiency − drawn energy |
| Battery.AvailableChargePowerUnconstrained | battery_model.py:374-382 | charging for one hour at `get_available_charge_power()` meets no limit |
| Battery.AvailableDischargePowerUnconstrained | battery_model.py:384-392 | discharging for one hour at `get_available_discharge_power()` meets no limit |
| StepEnv.HandleTable | eplus_env.py:95-110 | the handle table always holds the `oat`, `power` and `hour` keys |
| StepEnv.HandleTableSensors | eplus_env.py:96-104 | the three sensor keys hold the engine's outdoor-temperature, facility-meter and current-time handles |
| StepEnv.HandleTableTemp | eplus_env.py:106-110 | `temp_<zone>` is a key exactly when the zone is one of the model's zones, and it holds the engine's temperature handle for that zone |
| StepEnv.HandleTableOnly | eplus_env.py:95-110 | the handle table holds nothing but the three sensor keys and the temperature keys of the model's zones |
| StepEnv.ActuatorTableMembers | eplus_env.py:112-124 | a zone is in `actuator_handles` exactly when it is a model zone whose cooling and heating handles are both > 0, and it then holds those two handles |
| StepEnv.ActuatorTableZones | eplus_env.py:112-124 | every zone of the actuator table is a model zone with two positive handles |
| StepEnv.ZoneTempsMembers | eplus_env.py:152-156 | a zone has a temperature in the observation exactly when its `temp_` key holds a positive handle, and the value is that handle's reading |
| StepEnv.FreshObservationZones | eplus_env.py:106-156 | on a freshly built table a zone's temperature is read exactly when the engine gives it a positive temperature handle |
| StepEnv.LastValue | eplus_env.py:160-182 | the value a handle ends with after a list of writes: none exactly when nothing writes it, otherwise a value one of the writes carries |
| StepEnv.EmptyActionWritesNothing | eplus_env.py:162-163 | an empty (or missing) action writes nothing |
| StepEnv.ZoneWritesTargets | eplus_env.py:167-174 | every per-zone write goes to the cooling or heating actuator of a zone with actuators, only for a key present in its entry, with that key's value |
| StepEnv.UniformWritesCover | eplus_env.py:176-182 | a uniform setpoint is written with its own value, and every actuator zone gets a write to its selected handle |
| StepEnv.UniformHandles | eplus_env.py:176-182 | every uniform write goes to the selected handle of some actuator zone |
| StepEnv.UniformSetpointsWin | eplus_env.py:167-182 | uniform setpoints come after the per-zone writes and win: every actuator zone ends at the uniform heating value, and at the uniform cooling value unless a heating write to the same handle follows |
| StepEnv.EnergyPlusEnv.constructor | eplus_env.py:59-86 | not done, not initialised, timestep 0, no stop requested, no engine state, empty tables, no observation, the fifteen zone names |
| StepEnv.EnergyPlusEnv.InitHandles | eplus_env.py:88-126 | `_init_handles` is a no-op once initialised; otherwise it builds both tables over the model's zones and marks them initialised; no other field changes |
| StepEnv.EnergyPlusEnv.LookupHandles | eplus_env.py:95-110 | the lookup loop yields the handle table |
| StepEnv.EnergyPlusEnv.LookupActuators | eplus_env.py:112-124 | the actuator loop yields the actuator table |
| StepEnv.EnergyPlusEnv.GetObservations | eplus_env.py:129-158 | the observation of the current step through the handles |
| StepEnv.EnergyPlusEnv.ApplyActions | eplus_env.py:160-182 | `_apply_actions` issues exactly the writes of the action: nothing for an empty action, the per-zone writes, then uniform cooling, then uniform heating |
| StepEnv.EnergyPlusEnv.ZoneSetpointWrites | eplus_env.py:167-174 | the per-zone loop yields the per-zone writes in entry order |
| StepEnv.EnergyPlusEnv.UniformActuatorWrites | eplus_env.py:176-182 | the uniform loop writes one value to the selected handle of every actuator zone, in table order |
| StepEnv.EnergyPlusEnv.TimestepCallback | eplus_env.py:184-220 | a requested stop stops the engine and sends nothing; warm-up or a kind of sim other than 3 returns with no effect; in all of these the timestep is unchanged. A run-period call initialises once, raises the timestep by 1, sends exactly one observation, then stops on `'STOP'`, applies an action dict, or writes nothing for `None` or no reply |
| StepEnv.EnergyPlusEnv.Step | eplus_env.py:286-325 | a done environment queues nothing, returns (current_obs, 0.0, True, {}) and changes no field; otherwise the action (or `None`) is queued as the callback's reply; a `'done'` message or a timeout sets done and returns the previous observation with the exit code or the timeout; a new observation replaces current_obs and returns reward −total_power/1e6 with done False |
| StepEnv.EnergyPlusEnv.Close | eplus_env.py:327-343 | `close` requests a stop, lets go of the engine state and sets done; nothing else changes |
| StepEnv.EnergyPlusEnv.Reset | eplus_env.py:237-284 | `reset` clears done, initialised, the timestep, the stop request and both tables; a first `'done'` marks the environment done with no observation, a first observation becomes current_obs |
| SetpointRule.PowerFactor | run_control_sim.py:142 | the power factor never exceeds 1 and is positive above the high threshold (also at external_controller.py:89) |
| SetpointRule.Setpoints | run_control_sim.py:126-172 | `compute_setpoints`: heating = base + its adjustment; cooling − heating ≥ 2.0 always; cooling is the adjusted base or exactly 2.0 above heating, never below the adjusted base (also at external_controller.py:87-123) |
| SetpointRule.HighPowerBounded | run_control_sim.py:140-153 | above the high threshold the power factor is min((p − high)/100000, 1), the cooling increase lies in [0, max_cooling_adjustment] and the heating decrease in [0, max_heating_adjustment] (also at external_controller.py:87-102) |
| SetpointRule.HighPowerSplit | run_control_sim.py:144-153 | above the high threshold hot weather moves only cooling, cold weather only heating, mild weather both by half (also at external_controller.py:91-102) |
| SetpointRule.LowAndMidPower | run_control_sim.py:155-166 | below the low threshold hot weather gives cooling −0.5 and cold weather heating +0.5, otherwise nothing; between the thresholds both bases are kept (also at external_controller.py:104-111) |
| SetpointRule.DeadbandNeverBinds | run_control_sim.py:164-172 | with the source's constants the deadband fix-up never fires: cooling lies in [23.5, 26], heating in [19, 21.5] and their gap is at least 2.5 (also at external_controller.py:117-123) |
| RuleControl.Zones | run_control_sim.py:54 | the zones of `zone_handles`, in insertion order |
| RuleControl.IndexOf | run_control_sim.py:107 | the position of a zone in the dict, or −1 exactly when it is absent |
| RuleControl.DictSetMembers | run_control_sim.py:107 | after `d[zone] = h` the zones are the old ones and `zone` |
| RuleControl.DictSetOrder | run_control_sim.py:107 | setting an existing zone keeps the order; a new zone goes last |
| RuleControl.DictSetEntries | run_control_sim.py:107 | every entry after a set is the new entry or the one that was at its place |
| RuleControl.DictSetDistinct | run_control_sim.py:107 | zones stay distinct; the set zone holds the new handles and every other entry is kept |
| RuleControl.KeepZonesMembers | run_control_sim.py:89-107 | after the loop a zone is in `zone_handles` exactly when it was there before or is a model zone whose two handles are > 0 |
| RuleControl.KeepZonesDistinct | run_control_sim.py:89-107 | the loop keeps the zones distinct |
| RuleControl.KeepZonesPositive | run_control_sim.py:106-107 | the loop stores only pairs of positive handles |
| RuleControl.PairWrites | run_control_sim.py:196-199 | one cooling write and one heating write per zone, in table order, with the same pair for every zone |
| RuleControl.LoggedAfter | run_control_sim.py:201-209 | the log gains an entry exactly when `timestep_count % 4 == 0`, and stays ordered, on steps that happened, each pair keeping the deadband |
| RuleControl.LogValidLater | run_control_sim.py:176 | a valid log stays valid as the counter rises |
| RuleControl.LogValidAppend | run_control_sim.py:202-209 | logging a current step divisible by 4 keeps the log valid |
| RuleControl.RuleBasedController.constructor | run_control_sim.py:29-58 | no power yet, the base setpoints, no handles, an empty log, counter 0 |
| RuleControl.RuleBasedController.InitializeHandles | run_control_sim.py:60-124 | idempotent once successful; otherwise reads the two sensor handles and keeps each zone with two positive handles, and succeeds exactly when both sensor handles are > 0 and some zone qualifies; failure leaves the controller uninitialised |
| RuleControl.RuleBasedController.KeepActuatedZones | run_control_sim.py:89-107 | the zone loop yields the kept-zones table, distinct with positive handles |
| RuleControl.RuleBasedController.ApplySetpoints | run_control_sim.py:196-199 | the write loop issues the pair writes for every zone |
| RuleControl.RuleBasedController.Control | run_control_sim.py:187-214 | the setpoints come from the previous power and the current outdoor temperature; the same pair goes to every zone; a log entry is added exactly when the counter is divisible by 4; previous_power becomes the current meter value |
| RuleControl.RuleBasedController.TimestepCallback | run_control_sim.py:174-214 | the counter rises on every call, warm-up included; warm-up and a failed initialisation write nothing and leave the power lag, log and setpoints unchanged, and the next call retries; an initialised call controls as above |
| RuleControl.RuleBasedController.GetSummary | run_control_sim.py:216-242 | no data exactly when the log is empty; otherwise the step count, the zone count, the average power as the sum of the logged powers over their number, min ≤ avg ≤ max of the logged power, and min/max of the power and of each setpoint bounding every entry and each attained by some entry |
| RuleControl.SeqMinMax | run_control_sim.py:231-241 | `min` and `max` bound every element and are elements |
| RuleControl.MeanBetween | run_control_sim.py:233 | the mean lies between the minimum and the maximum |
| ExternalControl.ObservationOf | external_controller.py:72-73 | an observation carries both keys; the empty dict of a finished environment carries neither |
| ExternalControl.EnvAction | external_controller.py:129-132 | the action dict has both uniform setpoints and no per-zone entries, so the environment never treats it as empty |
| ExternalControl.RuleBasedController.constructor | external_controller.py:34-51 | no power seen, step count 0 |
| ExternalControl.RuleBasedController.ComputeAction | external_controller.py:53-132 | the step count rises by exactly 1; the setpoints are the shared rule's for the current temperature (20.0 when missing) and the previous call's power; the current power (0.0 when missing) is kept for the next call; cooling − heating ≥ 2.0 |
| ExternalControl.NormalizeClock | external_controller.py:342-348 | minute ≥ 60 becomes 0 with hour + 1, then hour ≥ 24 becomes 0 with day + 1; for the clock the engine reports, the result names the same instant with minute < 60 and hour < 24 |
| IdfVersionText.MajorIdempotent | upgrade_idf.py:102-103 | taking the major.minor part of a major.minor changes nothing |
| IdfVersionText.MajorHasAtMostTwoFields | upgrade_idf.py:102-103 | the major.minor part has one or two dot components |
| IdfVersionText.DeclarationHasTwoFields | upgrade_idf.py:91-93 | a line holding `Version,` always has a second comma field, so the length test never skips a matching line |
| IdfVersionText.IdfVersionFound | upgrade_idf.py:86-97 | there is a version exactly when some line holds `Version,` and is not a `!` comment; otherwise None (also at manage_models.py:79-90, check_engine.py:68-79) |
| IdfVersionText.IdfVersionIsFirstDeclaration | upgrade_idf.py:90-94 | the version is the second comma field, stripped and right-stripped of `;`, of the first such line (also at manage_models.py:83-87, check_engine.py:72-76) |
| IdfVersionText.GetIdfVersion | upgrade_idf.py:86-97 | the scan loop with its early return computes that version (also at manage_models.py:79-90, check_engine.py:68-79) |
| UpgradeIdf.TableShape | upgrade_idf.py:26-34 | `TRANSITIONS` has seven entries linking eight distinct versions, each entry's destination the next entry's source |
| UpgradeIdf.GetTransitionPath | upgrade_idf.py:100-121 | `get_transition_path`: [] for the same major.minor, otherwise the steps the loop takes, or None when the target is not reached |
| UpgradeIdf.FollowChain | upgrade_idf.py:108-116 | the loop over the table computes the walk: each entry whose source is the current version is taken, stopping at the target |
| UpgradeIdf.WalkIsChain | upgrade_idf.py:108-116 | the steps taken are table entries in table order, each destination is the next source, and they lead from the start to where the walk stops |
| UpgradeIdf.PathIsChain | upgrade_idf.py:102-121 | a path is empty exactly for the same major.minor; a non-empty one starts at from_major, is a chain, ends at to_major and takes table entries in table order; None only when the majors differ (also at manage_models.py:109-130) |
| UpgradeIdf.SubsequenceSteps | upgrade_idf.py:111-114 | every path step is an entry of `TRANSITIONS` |
| UpgradeIdf.PathBetweenTableVersions | upgrade_idf.py:108-121 | between two table versions the path is exactly the entries from the source to the target, and None for a target older than the source |
| UpgradeIdf.PathNeedsTableVersions | upgrade_idf.py:118-119 | a source or target outside the table gives None unless the majors agree |
| UpgradeIdf.StepsJoinListedVersions | upgrade_idf.py:26-114 | every step starts and ends at a version listed in the table |
| UpgradeIdf.ExeNameShape | upgrade_idf.py:159-167 | the tool name starts with `Transition-V`, holds no `.` (dots become `-`) and ends in `.exe` only on win32 |
| UpgradeIdf.BackupNameDiffers | upgrade_idf.py:212 | the backup name is the model path followed by `.v<from>.backup`, so never the model itself |
| UpgradeIdf.MakeBackupKeeps | upgrade_idf.py:212-214 | an existing backup is never overwritten, a missing one becomes a copy of the model, and no other file changes |
| UpgradeIdf.RunSteps | upgrade_idf.py:288-300 | the steps run in order: success exactly when every step succeeds; otherwise the run stops at the first failing step, all before it having succeeded |
| UpgradeIdf.RunPath | upgrade_idf.py:279-300 | no path gives the no-path failure; success exactly when every step of the path succeeds; a failure stops at the first failing step |
| UpgradeIdf.DecisionRunsPath | upgrade_idf.py:255-300 | steps only run after the version checks, and then they are the run of the transition path |
| UpgradeIdf.UpgradeSameMajor | upgrade_idf.py:266-271 | the same major.minor returns True with no transition run |
| UpgradeIdf.UpgradeRefusesNewer | upgrade_idf.py:273-276 | a model whose major.minor reads as a larger decimal than the target's is refused before any step |
| UpgradeIdf.UpgradedFollowsPath | upgrade_idf.py:279-300 | success means every step of the path ran and succeeded, and the path leads from the model's major.minor to the target's |
| UpgradeIdf.FailedStopsAtFirstFailure | upgrade_idf.py:289-299 | a failed upgrade stops at the first failing step of the path |
| ManageModels.ParseEachAll | manage_models.py:96-97 | the parsed list exists exactly when every field parses, and then holds their values in order |
| ManageModels.ParseIntsAll | manage_models.py:96-97 | the int list exists exactly when every component is an integer |
| ManageModels.CompareVersions | manage_models.py:93-106 | `compare_versions` returns −1, 0 or 1 |
| ManageModels.CompareParsed | manage_models.py:95-106 | the comparison of two parsed lists returns −1, 0 or 1, and 0 if either raised |
| ManageModels.CompareAntisymmetric | manage_models.py:99-104 | compare_versions(a, b) == −compare_versions(b, a) |
| ManageModels.CompareReflexive | manage_models.py:99-104 | compare_versions(a, a) == 0 |
| ManageModels.CompareLexicographic | manage_models.py:96-104 | with two integer components each the result is the lexicographic order of (major, minor) |
| ManageModels.ComparePairs | manage_models.py:99-104 | the `zip` loop over two pairs is the lexicographic order |
| ManageModels.CompareTruncates | manage_models.py:99-104 | `zip` stops at the shorter list: a one-component version equals every version with the same major |
| ManageModels.CompareUnparseable | manage_models.py:105-106 | a component that is not an integer gives 0 in both directions |
| ManageModels.IntsOfOneComponent | manage_models.py:96 | a version made of one digit run has that one integer component |
| ManageModels.IntsOfTwoComponents | manage_models.py:96 | `a.b` of two digit runs has the two integer components |
| ManageModels.CompareBareMajor | manage_models.py:99-106 | a bare major such as "23" compares equal to every "23.x" |
| ManageModels.Select | manage_models.py:362-377 | each list holds at most one entry per file |
| ManageModels.Classify | manage_models.py:356-377 | the classification loop fills the four lists with each kind's entries in file order |
| ManageModels.ClassesPartition | manage_models.py:362-377 | every file lands in exactly one list: the list sizes add up to the file count, and each file's entry is in the list of its kind (sign of compare_versions; no version is unknown) |
| ManageModels.SelectSound | manage_models.py:362-377 | every entry of a list comes from a file of that list's kind |
| ManageModels.ManagedUpgradeSound | manage_models.py:197-228 | an empty path (same major.minor) succeeds with no backup; otherwise the backup is named after the full current version and made before the first step, and the run follows the path and stops at the first failure |
| PyText.LStrip | example_model_management.py:174 | `lstrip()` removes a whitespace prefix and stops at the first non-space, so the indentation width is the length of that prefix |
| PyText.RStrip | manage_models.py:87 | `rstrip()` removes a whitespace suffix and stops at the last non-space |
| PyText.RStripChar | manage_models.py:87 | `rstrip(';')` removes a run of trailing `;` and nothing else |
| PyText.Split | manage_models.py:85 | `split(sep)` gives at least one field, and no field holds the separator |
| PyText.JoinSplit | upgrade_models.py:54-64 | joining the fields of a split with the same separator gives back the text |
| PyText.SplitJoin | upgrade_models.py:54-64 | fields free of the separator come back unchanged from a join followed by a split |
| PyText.SplitJoinUpdate | upgrade_models.py:54-64 | replacing one field by a separator-free text survives the join and the split back |
| CheckEngine.MajorOfThreeFields | check_engine.py:98-146 | the major.minor of `a.b.c` is `a.b`, as for the fallback engine version `23.2.0` |
| CheckEngine.CheckCompatibility | check_engine.py:94-107 | `check_compatibility` is "? Unknown" exactly when either major.minor fails to read as a float, and otherwise one of Too new / Match / Older |
| CheckEngine.ReleaseOfPlain | check_engine.py:98 | a version without a dash is its own release part |
| CheckEngine.BuildSuffixIgnored | check_engine.py:98 | the engine version is cut at its first `-`: a build suffix never changes the label |
| CheckEngine.CompatibilityAntisymmetric | check_engine.py:100-105 | "Too new" one way is "Older" the other way, and "Match" is symmetric |
| CheckEngine.MajorOfTwoFields | check_engine.py:97 | for `a.b` with digit runs, the major.minor is `a.b` itself |
| CheckEngine.MajorNumberOfTwoFields | check_engine.py:97 | `float("a.b")` is the exact decimal value |
| CheckEngine.MinorsComparedAsDecimals | check_engine.py:97-105 | for one major, the minors are compared as decimal fractions |
| CheckEngine.MinorsComparedAsIntegers | manage_models.py:96-104 | for one major, compare_versions compares the minors as integers |
| CheckEngine.DecimalAndIntegerOrdersDiffer | check_engine.py:97-105 | "M.10" is "Older" than "M.2" for check_compatibility, while compare_versions ranks it higher (compare_versions: manage_models.py:96-104) |
| CheckEngine.AgreesWithCompareForOneDigitMinors | check_engine.py:97-105 | with one-digit minors the label and compare_versions agree: Too new, Match and Older are the signs 1, 0 and −1 (compare_versions: manage_models.py:96-104) |
| CheckEngine.MajorNumberOfThreeFields | check_engine.py:98 | only the first two dot components count: a patch component never changes the number read |
| CheckEngine.Status | check_engine.py:159 | "? No version" exactly when the model declares no (or an empty) version |
| CheckEngine.DisplayName | check_engine.py:156-157 | names of at most 48 characters are kept; longer ones become their first 45 characters and "..." |
| CheckEngine.ReportRow | check_engine.py:146-160 | the report line: a name of at most 48 characters, the model's version or "N/A", and "? No version" exactly when there is none |
| ExampleModelManagement.ScannedVersion | example_model_management.py:46-56 | no version exactly when no line mentions VERSION (upper-cased, not a `!` comment) with a second comma field; otherwise the second field, stripped and without its `;`, of the first such line |
| ExampleModelManagement.GetIdfVersion | example_model_management.py:46-56 | the scan for the first usable mention and its second field return ScannedVersion |
| ExampleModelManagement.VersionLineIndent | example_model_management.py:174-175 | the new line keeps the old line's indentation width as spaces, followed by `Version,{target};` and a newline |
| ExampleModelManagement.VersionLineContains | example_model_management.py:172-175 | the new line upper-cased contains VERSION |
| ExampleModelManagement.VersionLineNotComment | example_model_management.py:172-175 | the new line is not a `!` comment |
| ExampleModelManagement.VersionLineMentions | example_model_management.py:172-175 | the new line passes the rewrite's own line test |
| ExampleModelManagement.VersionLineFields | example_model_management.py:50-175 | for a target without a comma, the new line splits into the indented keyword and `{target};\n` |
| ExampleModelManagement.TailReadsBack | example_model_management.py:52-175 | `{target};\n` stripped and without `;` is the target, for a target with no leading whitespace and no trailing `;` |
| ExampleModelManagement.VersionLineReadsBack | example_model_management.py:48-175 | the new line is one the scan reads, and it reads as the target |
| ExampleModelManagement.RewriteWithoutMention | example_model_management.py:171-186 | with no mention of VERSION the lines stay as they are and the rewrite reports failure |
| ExampleModelManagement.RewriteThenScan | example_model_management.py:46-183 | after a successful rewrite, the scan reads the target back |
| ExampleModelManagement.ScanAndRewriteDisagree | example_model_management.py:48-177 | a first mention with one comma field is skipped by the scan but rewritten by the update, so the line the version was read from keeps its old text |
| ExampleModelManagement.UpgradeEarlyExits | example_model_management.py:145-155 | a missing file gives False with nothing changed; a model already at the target gives True with nothing changed |
| ExampleModelManagement.UpgradeRewritesModel | example_model_management.py:166-186 | past the early exits, the result is whether a line mentions VERSION, and the model holds the rewritten lines |
| ExampleModelManagement.UpgradeBackup | example_model_management.py:157-163 | the backup exists afterwards exactly when it existed or was requested; an existing backup is never overwritten, and a new one holds the old model |
| ExampleModelManagement.UpgradeTouchesOnlyModel | example_model_management.py:145-186 | no file other than the model and its backup changes or appears |
| ModelFiles.BackupPathDiffers | example_model_management.py:159 | `idf_path + ".backup"` is never the model's own path (also at upgrade_models.py:41) |
| ModelFiles.WithBackup | example_model_management.py:158-163 | the backup step copies the model to the backup path only when requested and no backup exists; the model and every other file are left as they were (also at upgrade_models.py:41-45) |
| ModelFiles.Store | example_model_management.py:179-186 | the write step replaces the model exactly when the rewrite found its line, and returns whether it did (also at upgrade_models.py:62-69) |
| ModelFiles.StoreAfterBackup | example_model_management.py:157-186 | backup then write: the backup as the backup step left it, the set of files grows by the backup only when one was requested, and no other file changes (also at upgrade_models.py:40-69) |
| LineScan.FirstIndex | example_model_management.py:171-177 | the index of the first line passing the test, with no passing line before it; none exactly when no line passes (also at upgrade_models.py:56-60) |
| LineScan.FirstIndexAt | example_model_management.py:171-177 | a passing line with no passing line before it is the one the scan stops at |
| LineScan.FindFirst | example_model_management.py:47-53 | the scan loop with its early return stops at FirstIndex, the first passing line (also at upgrade_models.py:11-20) |
| LineScan.ReplaceFirst | example_model_management.py:170-177 | same length; reports True exactly when some line passes; only the first passing line is replaced; no change when none passes (also at upgrade_models.py:55-60) |
| LineScan.ReplaceFirstLine | example_model_management.py:170-177 | the `for … break` loop computes ReplaceFirst; both rewrites run it through their `UpdateLines` (also at upgrade_models.py:55-60) |
| ExampleModelManagement.UpdateLines | example_model_management.py:170-177 | the update loop over the lines read yields RewriteVersion: the first mention replaced, and whether there was one |
| UpgradeModels.UpdateLines | upgrade_models.py:55-60 | the update loop over the split lines yields RewriteLines: the first version line replaced, and whether there was one |
| LineScan.Filter | download_weather.py:329 | the kept lines all pass the test, and there are at most as many as there were lines |
| LineScan.FilterFirst | download_weather.py:329-334 | nothing is kept exactly when no line passes; otherwise the first kept line is the first passing line |
| LineScan.FilterLast | download_weather.py:329-335 | the last kept line is a passing line after which no line passes |
| LineScan.FilterEndsFrom | download_weather.py:328-335 | the same two ends for the lines kept from a given index on, located in the whole list |
| UpgradeModels.FirstDigitField | upgrade_models.py:16-19 | none exactly when no comma field holds a digit; otherwise the first field holding one, stripped and without `;` |
| UpgradeModels.SearchDigitField | upgrade_models.py:16-19 | the inner loop with its `break` computes the first digit field, or keeps the version it had |
| UpgradeModels.AsWrittenVersion | upgrade_models.py:10-23 | no version exactly when no line starts (after strip, any case) with VERSION; otherwise the reading of the first line that does |
| UpgradeModels.GetIdfVersion | upgrade_models.py:10-23 | the scan for the first version line and its reading return AsWrittenVersion |
| UpgradeModels.ReadLine | upgrade_models.py:13-20 | the reading of one version line: the keyword field, replaced by the digit search when it does not start with the keyword |
| UpgradeModels.IndentedKeywordCleans | upgrade_models.py:14-58 | the first field of the written line cleans to `Version` |
| UpgradeModels.KeywordChars | upgrade_models.py:12 | a text starting with the keyword has seven keyword letters first, none a comma, `;` or whitespace |
| UpgradeModels.KeywordPrefix | upgrade_models.py:12-15 | starting with the keyword depends only on the first seven characters |
| UpgradeModels.TrimKeepsKeyword | upgrade_models.py:14-15 | stripping trailing whitespace and `;` keeps a leading keyword |
| UpgradeModels.FirstFieldKeyword | upgrade_models.py:12-15 | a line of whitespace and then the keyword has a first comma field that still starts with the keyword once cleaned |
| UpgradeModels.ReadIsFirstField | upgrade_models.py:13-20 | when the cleaned first field starts with the keyword, it is returned as the version |
| UpgradeModels.DigitSearchUnreachable | upgrade_models.py:12-20 | on every line the scan accepts, the digit search never runs and the reading is the cleaned keyword field |
| UpgradeModels.NewLineHasNoNewline | upgrade_models.py:58 | the written line holds no newline when the target holds none |
| UpgradeModels.NewLineFields | upgrade_models.py:58 | the written line splits into `  Version` and `{target};` |
| UpgradeModels.NewLineStartsVersion | upgrade_models.py:57-58 | the written line is a version line by the rewrite's own test |
| UpgradeModels.NewLineReadsAsKeyword | upgrade_models.py:12-58 | as written, the written line reads back as `Version`, not as the target |
| UpgradeModels.IntendedVersion | upgrade_models.py:10-23 | the corrected reading: none exactly when no version line exists; otherwise the first digit field of the first version line |
| UpgradeModels.NewLineReadsBack | upgrade_models.py:16-58 | the corrected reading of the written line is the target |
| UpgradeModels.IndentedKeywordHasNoDigit | upgrade_models.py:17-58 | the keyword field of the written line holds no digit |
| UpgradeModels.TargetFieldCleans | upgrade_models.py:18-58 | `{target};` cleans to the target |
| UpgradeModels.RewriteKeepsOtherLines | upgrade_models.py:54-64 | splitting the rewritten text on `\n` gives back the rewritten lines |
| UpgradeModels.RewriteWithoutMatch | upgrade_models.py:54-69 | text without a version line comes back unchanged, with False |
| UpgradeModels.RewriteThenRead | upgrade_models.py:10-64 | after a rewrite the corrected reading gives the target back, while the reading as written gives `Version` |
| UpgradeModels.UpgradeIdfMissing | upgrade_models.py:28-30 | a missing file gives False with nothing changed |
| UpgradeModels.UpgradeIdfModel | upgrade_models.py:47-69 | for an existing model the result is whether a version line was found, and the model holds the rewritten text, rewritten even when it is already at the target |
| UpgradeModels.UpgradeIdfBackup | upgrade_models.py:40-45 | a backup always exists afterwards: an old one untouched, a new one holding the model's old text |
| UpgradeModels.UpgradeIdfTouchesOnlyModel | upgrade_models.py:28-69 | the files afterwards are the old ones plus the backup, and no other file changes |
| WeatherData.Keys | download_weather.py:135 | the keys of the hourly dict in insertion order |
| WeatherData.Lookup | download_weather.py:127-142 | `hourly.get(key)` is None exactly when the key is absent, and otherwise the column stored under it |
| WeatherData.OtherKeys | download_weather.py:135 | every key except `time`, and no other |
| WeatherData.Headers | download_weather.py:135 | `time` first, then exactly the other keys |
| WeatherData.OtherKeysDistinct | download_weather.py:135 | with distinct dict keys no header column is listed twice |
| WeatherData.Cell | download_weather.py:141-143 | the field for `key` in row `i`: the value's text, the empty field for None, and an IndexError when the column is shorter than the times |
| WeatherData.Collect | download_weather.py:140-143 | a row's fields are produced exactly when every cell is, and then in order |
| WeatherData.CollectNext | download_weather.py:141-143 | one more cell appended after the cells before it |
| WeatherData.KeyCells | download_weather.py:141-143 | one cell per header key, in header order |
| WeatherData.RowCells | download_weather.py:140-143 | one field per key, present exactly when every cell of the row is |
| WeatherData.RowLines | download_weather.py:139-144 | one candidate line per time, in order |
| WeatherData.Written | download_weather.py:139-144 | the lines written before the first row that raises, and success exactly when no row raises |
| WeatherData.WrittenSnoc | download_weather.py:139-144 | one more row extends the written lines only while no row has failed |
| WeatherData.WrittenNext | download_weather.py:139-144 | row `i` is tried after the rows before it |
| WeatherData.WrittenAfterFailure | download_weather.py:139-144 | after a row that raises, later rows write nothing |
| WeatherData.CsvOf | download_weather.py:133-136 | the written file always starts with the header line |
| WeatherData.CsvOutput | download_weather.py:125-144 | no file is written exactly when there are no times; otherwise the file starts with the header line |
| WeatherData.ConvertToCsv | download_weather.py:125-144 | the method writes CsvOutput |
| WeatherData.WriteStep | download_weather.py:139-144 | a row that raises ends the file as it stands; one that does not is appended |
| WeatherData.CsvOfWritten | download_weather.py:139-144 | the lines the loop holds, with its success flag, are the file |
| WeatherData.WriteRows | download_weather.py:139-144 | the row loop writes CsvOf of the header and the rows |
| WeatherData.WriteRow | download_weather.py:140-144 | the loop body computes row `i`'s line or its failure |
| WeatherData.RowFields | download_weather.py:141-143 | the inner loop over the other keys computes RowCells |
| WeatherData.CsvComplete | download_weather.py:125-144 | with every time present and every column long enough, the file has one line per time, each the time followed by one field per other key |
| WeatherData.RowFieldCount | download_weather.py:135-144 | a written row has as many fields as the header when no field holds a comma |
| WeatherData.EpwHour | download_weather.py:210-212 | for clock hours 0-23 the EPW hour is one more, within 1-24 |
| WeatherData.SkyCover | download_weather.py:203-204 | `int(cloud / 10)` (None and 0 read as 0) is the number of whole tenths, and lies within 0-10 for a cover of 0-100 % |
| WeatherData.EpwDateRange | download_weather.py:323-349 | no data lines after the header give five Nones |
| WeatherData.EpwDateRangeFields | download_weather.py:329-349 | a range exactly when the first and the last data line carry three integer fields; the start from the first, the end from the last, and the year exactly when both years agree |
| WeatherData.DataLinesEnds | download_weather.py:328-335 | the data lines start with the first non-blank line with a comma after the header and end with the last |
| WeatherData.HeaderIgnored | download_weather.py:328-329 | the first eight lines never change the range |
| SolarPv.ModuleCoefficient | solar_pv_model.py:56-61 | a coefficient exists exactly for module types 0, 1 and 2, and every one of them is negative |
| SolarPv.PostInit | solar_pv_model.py:54-61 | `__post_init__` sets the temperature coefficient to -0.0047, -0.0035 or -0.0020 for module types 0, 1, 2, keeps the given one for any other type, and changes no other field |
| SolarPv.PostInitIdempotent | solar_pv_model.py:54-61 | running `__post_init__` a second time changes nothing |
| SolarPv.DefaultConfigUnchanged | solar_pv_model.py:26-61 | the default configuration already holds the coefficient its module type sets |
| SolarPv.PoaIrradiance | solar_pv_model.py:294-318 | never negative; zero with the sun at or below the horizon; otherwise the incident sum when that is non-negative |
| SolarPv.CellTemperatureAmbient | solar_pv_model.py:337-345 | with no irradiance the cells are at the ambient temperature, and in sun they are warmer whenever the exponential is positive |
| SolarPv.DcPower | solar_pv_model.py:358-373 | zero without irradiance; a ZeroDivisionError exactly when there is irradiance and the reference irradiance is zero; never negative |
| SolarPv.DcLinear | solar_pv_model.py:362-373 | with positive irradiance the DC power is the irradiance times a gain fixed by the configuration and cell temperature, clamped at zero |
| SolarPv.DcAtReference | solar_pv_model.py:362-373 | at the reference irradiance and temperature the DC power is the nameplate capacity after the system losses |
| SolarPv.NoTemperatureCorrection | solar_pv_model.py:362-363 | at the reference temperature the temperature factor is one |
| SolarPv.DcMonotoneInIrradiance | solar_pv_model.py:358-373 | with a non-negative gain, more irradiance never gives less DC power |
| SolarPv.DcFallsWithTemperature | solar_pv_model.py:358-373 | with a non-positive coefficient, hotter cells never give more DC power |
| SolarPv.RampBelow | solar_pv_model.py:395-396 | below 10 % load the efficiency lies between zero and the rating |
| SolarPv.RampRises | solar_pv_model.py:395-396 | below 10 % load the efficiency rises with the load |
| SolarPv.InverterEfficiencyRamp | solar_pv_model.py:393-398 | the efficiency reaches the rating at 10 % load, never exceeds it, and never falls as the load grows |
| SolarPv.AcPower | solar_pv_model.py:385-405 | zero without DC power; a ZeroDivisionError exactly when there is DC power and the ratio or the capacity is zero; never negative; never above the inverter capacity |
| SolarPv.AcWithinRating | solar_pv_model.py:393-405 | the AC power never exceeds the DC power at the rated efficiency, and equals it from 10 % load up to the clip |
| SolarPv.ClipMonotone | solar_pv_model.py:403-405 | the clip to the inverter capacity and the clamp at zero keep order |
| SolarPv.DeliveredMonotone | solar_pv_model.py:393-400 | before the clip, the DC power times its efficiency rises with the DC power |
| SolarPv.AcClipped | solar_pv_model.py:389-405 | with DC power and non-zero divisors, the AC power is the delivered power clipped to the inverter capacity |
| SolarPv.AcMonotone | solar_pv_model.py:385-405 | more DC power never gives less AC power |
| SolarPv.ExactRow | solar_pv_model.py:421-423 | `.loc[timestamp]` finds a row exactly when some row has the timestamp, and then the first such row |
| SolarPv.NearestRow | solar_pv_model.py:425-427 | the nearest lookup picks a row no farther from the timestamp than any other, and the last one on a tie |
| SolarPv.RowFor | solar_pv_model.py:420-427 | the row read is always a row of the table |
| SolarPv.RowForNearest | solar_pv_model.py:420-427 | on an increasing index the exact-then-nearest lookup always gives a nearest row, and the row at the timestamp when there is one |
| SolarPv.PowerAt | solar_pv_model.py:407-461 | no weather loaded raises "Weather data not loaded"; an empty table raises; a result carries the timestamp asked for |
| SolarPv.PowerAtDefined | solar_pv_model.py:407-461 | with loaded, non-empty weather and non-zero divisors the call always succeeds |
| SolarPv.PowerAtBounds | solar_pv_model.py:429-461 | the state carries the weather of the row read; irradiance and powers are never negative, all zero at night, the AC power within the inverter capacity and the rated efficiency |
| SolarPv.Times | solar_pv_model.py:486 | the index of the table, in order |
| SolarPv.InRange | solar_pv_model.py:485-486 | the masked timestamps are exactly those of the table within `[start, end]` |
| SolarPv.Gather | solar_pv_model.py:488-502 | the loop's results: all states in order exactly when no call raises |
| SolarPv.GatherNext | solar_pv_model.py:489-490 | one more timestep gathered after the ones before it |
| SolarPv.GatherKeepsFailure | solar_pv_model.py:489-490 | once a call raises, the later timesteps do not change the outcome |
| SolarPv.Outcomes | solar_pv_model.py:489-490 | one `get_power_at_timestep` outcome per timestamp |
| SolarPv.States | solar_pv_model.py:488-502 | the states are produced exactly when every timestep succeeds, and then they match the outcomes in order |
| SolarPv.SimulateOutcomes | solar_pv_model.py:475-511 | no weather and an empty table raise; with non-zero divisors the only other error is an empty range, and a success has one state per timestamp in range, in order |
| SolarPv.SimulateWholeTable | solar_pv_model.py:479-486 | with no range given, the whole table is simulated |
| SolarPv.InRangeAll | solar_pv_model.py:485-486 | when every row is in range, the mask keeps every timestamp in order |
| SolarPv.SolarPvModel.constructor | solar_pv_model.py:192-202 | the given configuration or the defaults, with no weather, location or results |
| SolarPv.SolarPvModel.LoadWeather | solar_pv_model.py:204-222 | stores the weather and the latitude; a tilt of exactly 20.0 becomes the latitude's magnitude; nothing else changes |
| SolarPv.SolarPvModel.GetPowerAtTimestep | solar_pv_model.py:407-461 | returns PowerAt of the current configuration and weather |
| SolarPv.SolarPvModel.Simulate | solar_pv_model.py:463-511 | returns the simulation of the current state, keeps the results only on success, and leaves the configuration and weather unchanged |
| SolarPv.SolarPvModel.RunRange | solar_pv_model.py:488-502 | the loop calling `get_power_at_timestep` per timestamp computes States |

## Left out

- Threads, the two queues, their `get`/`put` timeouts and the cross-thread hand-off of eplus_env.py (223-235, 273-278, 306-314, 331-334). They are concurrency; the model replaces them with a single lockstep exchange whose messages are parameters and logs.
- Calls into the EnergyPlus API (`exchange.*`, `runtime.run_energyplus`, `stop_simulation`, the state manager). They are foreign code; their answers are inputs, and the writes and stops are a returned log of calls.
- The sun position, the trigonometric POA terms and `math.exp` in the cell temperature. They are float numerics and library code, so they are a `Numerics` parameter of the PV model.
- `EPWReader` (solar_pv_model.py:79-171). It is pandas parsing; its result enters as the `rows` and `lat` arguments of `LoadWeather`.
- SolarPv.SolarPvModel.LoadWeather: requires a strictly increasing weather index, which is weaker than the source. `load_weather` accepts repeated timestamps (`EPWReader` drops the minute column, solar_pv_model.py:151-156); the source fails only later, in `get_power_at_timestep`, when `.loc` returns several rows and `float(weather['ghi'])` raises (solar_pv_model.py:423-429), or when `get_indexer` rejects the non-unique index. Those failures are not modelled.
- PyText.ParseInt: accepts only stripped ASCII text with an optional sign and one or more ASCII digits. Python's `int()` also takes underscores between digits (`int("23_2") == 232`) and non-ASCII decimal digits; on such text the model gives `None`, so a version compare gives 0 and an engine version reads as unknown where the source would parse it.
- PyText.ParseUnsignedDecimal: accepts only `ddd`, `ddd.`, `.ddd` and `ddd.ddd` in ASCII digits (with `PyText.ParseDecimal` adding the sign and the strip). Python's `float()` also takes exponents (`float("2e1")`), underscores, non-ASCII digits, `inf` and `nan`; on such text the model gives `None`.
- StepEnv.EnergyPlusEnv.constructor: the `FileNotFoundError` for a missing IDF or EPW path (eplus_env.py:53-56) is not modelled, because the file system is not part of the step environment; the constructor assumes both paths exist.
- The daily, monthly and annual production summaries of solar_pv_model.py. They are pandas resampling.
- Python floats: every quantity is an exact real. No rounding, overflow, `inf` or `nan` is modelled, and `float("23.2")` is the exact decimal 23.2.
- The efficiencies derived with `np.sqrt` from the roundtrip efficiency (battery_model.py:63-66). These are given reals.
- The battery's divisions by the timestep and the capacity are numpy floats that would give `inf`/`nan`. They are excluded by preconditions (timestep and capacity positive, efficiencies positive).
- Battery.BatteryModel.Act: the losses of `_charge`/`_discharge` are computed once in `Step` from the same formula after the dispatch, not inside each branch; the results are the same.
- HTTP downloads, subprocess runs of the transition tools, file copies, moves and deletes other than the backup copy, and argparse or `input()` mains. They are I/O; success or failure of a transition run is a parameter.
- The engine-version detection scripts (detect_engine_version.py, get_engine_version.py, check_version.py and every `get_engine_version`). They run the engine and scan its output; the engine version is an input.
- The regex rewrite of `RunPeriod` (download_weather.py:271-320), `prepare_idf` (external_controller.py:139-235), analyze_annual_results.py, run_sim.py and batch_runner.py. They are regex or library code, or run wrappers.
- The EPW writer's record line apart from its hour and sky cover. Its other fields are float formatting.
- The message texts of prints and exceptions. Errors are distinguished by kind only.
- `str.upper()` beyond ASCII. Only ASCII letters are case-folded.
- File encodings and line terminators other than `\n`. A file read with `readlines()` is its list of lines, each line keeping its terminator.
- The float-based major comparisons of the report loop at upgrade_idf.py:524-532. They repeat `check_compatibility`, which is modelled once, in `CheckEngine`.
- SolarPv.SolarPvModel.LoadWeather: the caller's configuration object is shared with the model in the source, so the tilt update is visible to the caller; the model holds its own copy of the configuration.
- test_solar_pv.py prints results and asserts nothing, so there is nothing to model.

## Findings

| source | as written | input that shows it | evidently intended | confidence | as-written member | corrected member |
|---|---|---|---|---|---|---|
| upgrade_models.py:12-20 | `get_idf_version` takes the first comma field of the version line (`line.split(',')[0]`), which always starts with the keyword, so it returns `Version` and the digit search never runs | the line `  Version,23.2;` that `upgrade_idf` itself writes reads back as `Version` | return the field holding the version number, `23.2` | not executed | UpgradeModels.NewLineReadsAsKeyword | UpgradeModels.NewLineReadsBack |
