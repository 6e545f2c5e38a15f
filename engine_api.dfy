/** What a callback sees of the simulation engine, shared by the step
    environment and the in-process controller: the zones of the reference
    model, the engine's answers during one callback, and the setpoint
    writes it is asked to make. */
module EngineApi {
  /** The fifteen zones of the reference model, in the order the step
      environment and the in-process controller both list them. */
  const ZoneNames: seq<string> := [
    "Core_bottom", "Core_mid", "Core_top",
    "Perimeter_bot_ZN_1", "Perimeter_bot_ZN_2", "Perimeter_bot_ZN_3", "Perimeter_bot_ZN_4",
    "Perimeter_mid_ZN_1", "Perimeter_mid_ZN_2", "Perimeter_mid_ZN_3", "Perimeter_mid_ZN_4",
    "Perimeter_top_ZN_1", "Perimeter_top_ZN_2", "Perimeter_top_ZN_3", "Perimeter_top_ZN_4"]

  /** What the engine answers during one callback: the warm-up flag, the
      kind of simulation (3 is the run period), the clock, the handles its
      lookups return and its readings by handle.  The lookups are those of
      the outdoor air dry-bulb temperature and the current time of the
      environment, the facility electricity meter, a zone's mean air
      temperature and a zone's cooling and heating setpoint actuators
      under zone temperature control. */
  datatype Engine = Engine(
    warmup: bool,
    kindOfSim: int,
    year: int, month: int, day: int, hour: int, minute: int,
    outdoorTempHandle: int,
    facilityPowerHandle: int,
    currentTimeHandle: int,
    zoneTempHandle: string -> int,
    coolingSetpointHandle: string -> int,
    heatingSetpointHandle: string -> int,
    variableValue: int -> real,
    meterValue: int -> real)

  /** The two setpoint actuators of a zone. */
  datatype ZoneActuators = ZoneActuators(cooling: int, heating: int)

  /** The cooling and heating setpoint actuator handles of a zone. */
  function ZoneHandles(e: Engine, zone: string): ZoneActuators {
    ZoneActuators(e.coolingSetpointHandle(zone),
                  e.heatingSetpointHandle(zone))
  }

  /** A setpoint write to an actuator. */
  datatype Write = Write(handle: int, value: real)
}
