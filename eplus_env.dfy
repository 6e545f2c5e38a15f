/** eplus_env.py: the step environment around the simulation engine, in its
    sequential part.  The engine is a value handed to each call (its flags,
    clock, handle lookups and readings), the two queues between the
    controller's thread and the simulation's thread are one lockstep
    exchange (the callback is handed the item it would take from the action
    queue, `step` and `reset` the message they would take from the
    observation queue), and what the environment asks of the engine is
    returned as a list of calls. */
module StepEnv {
  import opened Wrappers
  import opened EngineApi

  /** One observation: the step, the clock, the outdoor temperature, the
      facility power and the zone temperatures that could be read. */
  datatype Obs = Obs(
    timestep: int,
    year: int, month: int, day: int, hour: int, minute: int,
    outdoorTemp: real,
    totalPower: real,
    zoneTemps: map<string, real>)

  /** A zone's entry of `zone_setpoints`: its optional `cooling` and
      `heating` keys. */
  datatype Setpoints = Setpoints(cooling: Option<real>, heating: Option<real>)

  /** An action dict: the per-zone setpoints (in dict order; a missing key is
      the empty dict) and the optional uniform setpoints. */
  datatype Action = Action(
    zoneSetpoints: seq<(string, Setpoints)>,
    coolingSetpoint: Option<real>,
    heatingSetpoint: Option<real>)

  /** What the callback takes from the action queue: `'STOP'`, `None`, an
      action dict, or nothing within the wait. */
  datatype Reply = StopReply | NoAction | ActionReply(action: Action) | NoReply

  /** What `step` and `reset` take from the observation queue:
      `('obs', obs)` or `('done', exit_code)`. */
  datatype Message = ObsMessage(obs: Obs) | DoneMessage(exitCode: int)

  /** A key of the handle dict: `'oat'`, `'power'`, `'hour'`, or
      `'temp_' + zone` for a zone's mean air temperature. */
  datatype HandleKey = OatKey | PowerKey | HourKey | TempKey(zone: string)

  /** The info dict `step` returns. */
  datatype Info = NoInfo | TimeoutInfo | ExitCodeInfo(exitCode: int)

  // ---------------------------------------------------------------------
  // Handle tables

  /** The three sensor handles `_init_handles` looks up first. */
  function SensorHandles(e: Engine): map<HandleKey, int> {
    map[OatKey := e.outdoorTempHandle,
        PowerKey := e.facilityPowerHandle,
        HourKey := e.currentTimeHandle]
  }

  /** The sensor handles and then a temperature handle for each of `zones`,
      in order. */
  function HandleTable(e: Engine, zones: seq<string>): (r: map<HandleKey, int>)
    ensures OatKey in r && PowerKey in r && HourKey in r
    decreases |zones|
  {
    if zones == [] then SensorHandles(e)
    else
      var z := zones[|zones| - 1];
      HandleTable(e, zones[..|zones| - 1])[TempKey(z) := e.zoneTempHandle(z)]
  }

  /** A zone's temperature key is in the handle table exactly when the zone
      is one of `zones`, and it holds the zone's mean air temperature
      handle. */
  lemma {:induction false} HandleTableTemp(e: Engine, zones: seq<string>, z: string)
    ensures TempKey(z) in HandleTable(e, zones) <==> z in zones
    ensures z in zones ==> HandleTable(e, zones)[TempKey(z)] == e.zoneTempHandle(z)
    decreases |zones|
  {
    if zones != [] {
      var pre := zones[..|zones| - 1];
      var last := zones[|zones| - 1];
      HandleTableTemp(e, pre, z);
      assert zones == pre + [last];
      HandleTableSnoc(e, pre, last);
    }
  }

  /** The handle table holds nothing but the three sensor keys and the
      temperature keys of `zones`. */
  lemma {:induction false} HandleTableOnly(e: Engine, zones: seq<string>, k: HandleKey)
    requires k in HandleTable(e, zones)
    ensures k == OatKey || k == PowerKey || k == HourKey || (k.TempKey? && k.zone in zones)
    decreases |zones|
  {
    if zones != [] {
      var pre := zones[..|zones| - 1];
      var last := zones[|zones| - 1];
      assert zones == pre + [last];
      HandleTableSnoc(e, pre, last);
      if k != TempKey(last) {
        HandleTableOnly(e, pre, k);
      }
    }
  }

  /** The actuator table holds only zones of `zones` whose two handles are
      positive. */
  lemma ActuatorTableZones(e: Engine, zones: seq<string>)
    ensures forall z :: z in ActuatorTable(e, zones) ==>
      z in zones && ActuatorTable(e, zones)[z].cooling > 0 && ActuatorTable(e, zones)[z].heating > 0
  {
    forall z | z in ActuatorTable(e, zones)
      ensures z in zones && ActuatorTable(e, zones)[z].cooling > 0 && ActuatorTable(e, zones)[z].heating > 0
    {
      ActuatorTableMembers(e, zones, z);
    }
  }

  /** The sensor handles keep their lookups in the full table. */
  lemma {:induction false} HandleTableSensors(e: Engine, zones: seq<string>)
    ensures HandleTable(e, zones)[OatKey] == e.outdoorTempHandle
    ensures HandleTable(e, zones)[PowerKey] == e.facilityPowerHandle
    ensures HandleTable(e, zones)[HourKey] == e.currentTimeHandle
    decreases |zones|
  {
    if zones != [] {
      HandleTableSensors(e, zones[..|zones| - 1]);
    }
  }

  /** The actuator table built over `zones`: a zone enters when both its
      handles are positive. */
  function ActuatorTable(e: Engine, zones: seq<string>): map<string, ZoneActuators>
    decreases |zones|
  {
    if zones == [] then map[]
    else
      var z := zones[|zones| - 1];
      var rest := ActuatorTable(e, zones[..|zones| - 1]);
      var h := ZoneHandles(e, z);
      if h.cooling > 0 && h.heating > 0 then rest[z := h] else rest
  }

  /** A zone is in the actuator table exactly when it is one of `zones` and
      both its handles are positive, and then it holds those handles. */
  lemma {:induction false} ActuatorTableMembers(e: Engine, zones: seq<string>, z: string)
    ensures z in ActuatorTable(e, zones) <==>
      (z in zones && ZoneHandles(e, z).cooling > 0 && ZoneHandles(e, z).heating > 0)
    ensures z in ActuatorTable(e, zones) ==> ActuatorTable(e, zones)[z] == ZoneHandles(e, z)
    decreases |zones|
  {
    if zones != [] {
      var pre := zones[..|zones| - 1];
      ActuatorTableMembers(e, pre, z);
      assert zones == pre + [zones[|zones| - 1]];
    }
  }

  /** The zone temperatures read through `handles`: a zone whose key holds a
      positive handle gets that handle's reading. */
  function ZoneTemps(e: Engine, handles: map<HandleKey, int>, zones: seq<string>): map<string, real>
    decreases |zones|
  {
    if zones == [] then map[]
    else
      var z := zones[|zones| - 1];
      var rest := ZoneTemps(e, handles, zones[..|zones| - 1]);
      if TempKey(z) in handles && handles[TempKey(z)] > 0 then rest[z := e.variableValue(handles[TempKey(z)])]
      else rest
  }

  /** A zone has a temperature exactly when it is one of `zones` and its key
      holds a positive handle, and the temperature is that handle's reading. */
  lemma {:induction false} ZoneTempsMembers(e: Engine, handles: map<HandleKey, int>, zones: seq<string>, z: string)
    ensures z in ZoneTemps(e, handles, zones) <==>
      (z in zones && TempKey(z) in handles && handles[TempKey(z)] > 0)
    ensures z in ZoneTemps(e, handles, zones) ==> ZoneTemps(e, handles, zones)[z] == e.variableValue(handles[TempKey(z)])
    decreases |zones|
  {
    if zones != [] {
      var pre := zones[..|zones| - 1];
      ZoneTempsMembers(e, handles, pre, z);
      assert zones == pre + [zones[|zones| - 1]];
    }
  }

  /** Extending the zone list by one zone adds that zone's temperature key. */
  lemma HandleTableSnoc(e: Engine, zones: seq<string>, z: string)
    ensures HandleTable(e, zones + [z]) == HandleTable(e, zones)[TempKey(z) := e.zoneTempHandle(z)]
  {
    assert (zones + [z])[..|zones|] == zones;
  }

  /** Extending the zone list by one zone adds it when both its handles are
      positive. */
  lemma ActuatorTableSnoc(e: Engine, zones: seq<string>, z: string)
    ensures ActuatorTable(e, zones + [z]) ==
      (var h := ZoneHandles(e, z); if h.cooling > 0 && h.heating > 0 then ActuatorTable(e, zones)[z := h] else ActuatorTable(e, zones))
  {
    assert (zones + [z])[..|zones|] == zones;
  }

  /** Extending the zone list by one zone adds its reading when its key holds
      a positive handle. */
  lemma ZoneTempsSnoc(e: Engine, handles: map<HandleKey, int>, zones: seq<string>, z: string)
    ensures ZoneTemps(e, handles, zones + [z]) ==
      if TempKey(z) in handles && handles[TempKey(z)] > 0 then ZoneTemps(e, handles, zones)[z := e.variableValue(handles[TempKey(z)])]
      else ZoneTemps(e, handles, zones)
  {
    assert (zones + [z])[..|zones|] == zones;
  }

  /** The observation at step `timestep`: the clock, the outdoor temperature
      and facility power through their handles, and the zone temperatures. */
  function Observation(e: Engine, zones: seq<string>, timestep: int, handles: map<HandleKey, int>): Obs
    requires OatKey in handles && PowerKey in handles
  {
    Obs(timestep, e.year, e.month, e.day, e.hour, e.minute,
        e.variableValue(handles[OatKey]), e.meterValue(handles[PowerKey]),
        ZoneTemps(e, handles, zones))
  }

  // ---------------------------------------------------------------------
  // Action writes

  /** The writes for one `zone_setpoints` entry: only a zone with actuators,
      and only the keys present, cooling first. */
  function EntryWrites(act: map<string, ZoneActuators>, zone: string, sp: Setpoints): seq<Write> {
    if zone !in act then []
    else
      (if sp.cooling.Some? then [Write(act[zone].cooling, sp.cooling.value)] else [])
      + (if sp.heating.Some? then [Write(act[zone].heating, sp.heating.value)] else [])
  }

  /** The writes for the `zone_setpoints` entries, in order. */
  function ZoneWrites(act: map<string, ZoneActuators>, entries: seq<(string, Setpoints)>): seq<Write>
    decreases |entries|
  {
    if entries == [] then []
    else
      var (z, sp) := entries[|entries| - 1];
      ZoneWrites(act, entries[..|entries| - 1]) + EntryWrites(act, z, sp)
  }

  /** The writes of one uniform setpoint to every zone of `zones` that has
      actuators: the cooling handles when `cooling`, else the heating ones. */
  function UniformWrites(act: map<string, ZoneActuators>, zones: seq<string>, cooling: bool, v: real): seq<Write>
    decreases |zones|
  {
    if zones == [] then []
    else
      var z := zones[|zones| - 1];
      var rest := UniformWrites(act, zones[..|zones| - 1], cooling, v);
      if z in act then rest + [Write(if cooling then act[z].cooling else act[z].heating, v)] else rest
  }

  /** One more entry appends its writes. */
  lemma ZoneWritesSnoc(act: map<string, ZoneActuators>, entries: seq<(string, Setpoints)>, z: string, sp: Setpoints)
    ensures ZoneWrites(act, entries + [(z, sp)]) == ZoneWrites(act, entries) + EntryWrites(act, z, sp)
  {
    assert (entries + [(z, sp)])[..|entries|] == entries;
  }

  /** One more zone appends its write when it has actuators. */
  lemma UniformWritesSnoc(act: map<string, ZoneActuators>, zones: seq<string>, cooling: bool, v: real, z: string)
    ensures UniformWrites(act, zones + [z], cooling, v) ==
      UniformWrites(act, zones, cooling, v) + (if z in act then [Write(if cooling then act[z].cooling else act[z].heating, v)] else [])
  {
    assert (zones + [z])[..|zones|] == zones;
  }

  /** Whether an action dict is empty. */
  predicate EmptyAction(a: Action) {
    a.zoneSetpoints == [] && a.coolingSetpoint.None? && a.heatingSetpoint.None?
  }

  /** The writes `_apply_actions` issues: nothing for an empty action, else
      the per-zone writes, then the uniform cooling setpoint, then the
      uniform heating setpoint. */
  function ActionWrites(act: map<string, ZoneActuators>, zones: seq<string>, a: Action): seq<Write> {
    if EmptyAction(a) then []
    else
      ZoneWrites(act, a.zoneSetpoints)
      + (if a.coolingSetpoint.Some? then UniformWrites(act, zones, true, a.coolingSetpoint.value) else [])
      + (if a.heatingSetpoint.Some? then UniformWrites(act, zones, false, a.heatingSetpoint.value) else [])
  }

  /** The value the last write to `h` leaves, if any write goes to `h`. */
  function LastValue(ws: seq<Write>, h: int): (r: Option<real>)
    ensures r.None? <==> forall i :: 0 <= i < |ws| ==> ws[i].handle != h
    ensures r.Some? ==> exists i :: 0 <= i < |ws| && ws[i] == Write(h, r.value)
    decreases |ws|
  {
    if ws == [] then None
    else if ws[|ws| - 1].handle == h then Some(ws[|ws| - 1].value)
    else
      var r := LastValue(ws[..|ws| - 1], h);
      assert forall i :: 0 <= i < |ws| - 1 ==> ws[..|ws| - 1][i] == ws[i];
      r
  }

  /** A later list of writes that writes `h` decides its value. */
  lemma {:induction false} LastValueAppend(a: seq<Write>, b: seq<Write>, h: int)
    ensures LastValue(a + b, h) == if LastValue(b, h).Some? then LastValue(b, h) else LastValue(a, h)
    decreases |b|
  {
    if b == [] {
      assert a + b == a;
    } else {
      var b' := b[..|b| - 1];
      assert (a + b)[|a + b| - 1] == b[|b| - 1];
      if b[|b| - 1].handle != h {
        assert (a + b)[..|a + b| - 1] == a + b';
        LastValueAppend(a, b', h);
      }
    }
  }

  /** Every per-zone write goes to a cooling or heating actuator of a zone
      with actuators, for a key present in its entry, with that key's value. */
  lemma {:induction false} ZoneWritesTargets(act: map<string, ZoneActuators>, entries: seq<(string, Setpoints)>, w: Write)
    requires w in ZoneWrites(act, entries)
    ensures exists j :: (0 <= j < |entries| && entries[j].0 in act &&
      ((entries[j].1.cooling.Some? && w == Write(act[entries[j].0].cooling, entries[j].1.cooling.value)) ||
       (entries[j].1.heating.Some? && w == Write(act[entries[j].0].heating, entries[j].1.heating.value))))
    decreases |entries|
  {
    var pre := entries[..|entries| - 1];
    var last := |entries| - 1;
    if w in ZoneWrites(act, pre) {
      ZoneWritesTargets(act, pre, w);
      var j :| 0 <= j < |pre| && pre[j].0 in act &&
        ((pre[j].1.cooling.Some? && w == Write(act[pre[j].0].cooling, pre[j].1.cooling.value)) ||
         (pre[j].1.heating.Some? && w == Write(act[pre[j].0].heating, pre[j].1.heating.value)));
      assert entries[j] == pre[j];
    } else {
      assert w in EntryWrites(act, entries[last].0, entries[last].1);
    }
  }

  /** Every uniform write carries the uniform value, and each zone of `zones`
      with actuators gets a write to its selected handle. */
  lemma {:induction false} UniformWritesCover(act: map<string, ZoneActuators>, zones: seq<string>, cooling: bool, v: real)
    ensures forall i :: 0 <= i < |UniformWrites(act, zones, cooling, v)| ==> UniformWrites(act, zones, cooling, v)[i].value == v
    ensures forall z :: z in zones && z in act ==>
      LastValue(UniformWrites(act, zones, cooling, v), if cooling then act[z].cooling else act[z].heating) == Some(v)
    decreases |zones|
  {
    if zones != [] {
      var pre := zones[..|zones| - 1];
      var last := zones[|zones| - 1];
      UniformWritesCover(act, pre, cooling, v);
      assert zones == pre + [last];
      var rest := UniformWrites(act, pre, cooling, v);
      if last in act {
        var w := Write(if cooling then act[last].cooling else act[last].heating, v);
        forall z | z in zones && z in act
          ensures LastValue(rest + [w], if cooling then act[z].cooling else act[z].heating) == Some(v)
        {
          var h := if cooling then act[z].cooling else act[z].heating;
          LastValueAppend(rest, [w], h);
          if z != last {
            assert z in pre;
          }
        }
      }
    }
  }

  /** Valued writes: a list whose every write carries `v` and which writes
      `h` makes `h` end at `v` whatever came before. */
  lemma LastValueOfUniform(a: seq<Write>, b: seq<Write>, h: int, v: real)
    requires forall i :: 0 <= i < |b| ==> b[i].value == v
    requires LastValue(b, h).Some?
    ensures LastValue(a + b, h) == Some(v)
  {
    LastValueAppend(a, b, h);
  }

  /** An empty action writes nothing. */
  lemma EmptyActionWritesNothing(act: map<string, ZoneActuators>, zones: seq<string>, a: Action)
    requires EmptyAction(a)
    ensures ActionWrites(act, zones, a) == []
  {
  }

  /** The uniform setpoints win over the per-zone ones: with a uniform
      heating setpoint every actuator zone's heating handle ends at it; with
      a uniform cooling setpoint every actuator zone's cooling handle ends at
      it, unless a uniform heating write to the same handle follows. */
  lemma UniformSetpointsWin(act: map<string, ZoneActuators>, zones: seq<string>, a: Action, z: string)
    requires z in act && z in zones
    ensures a.heatingSetpoint.Some? ==>
      LastValue(ActionWrites(act, zones, a), act[z].heating) == Some(a.heatingSetpoint.value)
    ensures (a.coolingSetpoint.Some? &&
      (a.heatingSetpoint.None? || forall y :: y in act ==> act[y].heating != act[z].cooling)) ==>
      LastValue(ActionWrites(act, zones, a), act[z].cooling) == Some(a.coolingSetpoint.value)
  {
    var zw := ZoneWrites(act, a.zoneSetpoints);
    var cw := if a.coolingSetpoint.Some? then UniformWrites(act, zones, true, a.coolingSetpoint.value) else [];
    var hw := if a.heatingSetpoint.Some? then UniformWrites(act, zones, false, a.heatingSetpoint.value) else [];
    assert ActionWrites(act, zones, a) == zw + cw + hw;
    if a.heatingSetpoint.Some? {
      UniformWritesCover(act, zones, false, a.heatingSetpoint.value);
      LastValueOfUniform(zw + cw, hw, act[z].heating, a.heatingSetpoint.value);
    }
    if a.coolingSetpoint.Some? && (a.heatingSetpoint.None? || forall y :: y in act ==> act[y].heating != act[z].cooling) {
      var h := act[z].cooling;
      UniformWritesCover(act, zones, true, a.coolingSetpoint.value);
      LastValueOfUniform(zw, cw, h, a.coolingSetpoint.value);
      if a.heatingSetpoint.Some? {
        UniformWritesCover(act, zones, false, a.heatingSetpoint.value);
        forall i | 0 <= i < |hw| ensures hw[i].handle != h {
          UniformHandles(act, zones, false, a.heatingSetpoint.value, i);
        }
      }
      LastValueAppend(zw + cw, hw, h);
    }
  }

  /** Each uniform write goes to the selected handle of some actuator zone. */
  lemma {:induction false} UniformHandles(act: map<string, ZoneActuators>, zones: seq<string>, cooling: bool, v: real, i: int)
    requires 0 <= i < |UniformWrites(act, zones, cooling, v)|
    ensures exists y :: y in act && UniformWrites(act, zones, cooling, v)[i].handle == (if cooling then act[y].cooling else act[y].heating)
    decreases |zones|
  {
    var pre := zones[..|zones| - 1];
    var last := zones[|zones| - 1];
    var rest := UniformWrites(act, pre, cooling, v);
    if i < |rest| {
      UniformHandles(act, pre, cooling, v, i);
    } else {
      assert last in act;
    }
  }

  // ---------------------------------------------------------------------
  // The environment

  /** `EnergyPlusEnv`: its lifecycle flags, the step counter, the handle
      tables and the last observation (`None` for the empty dict).
      `hasState` stands for an engine state being held. */
  class EnergyPlusEnv {
    var done: bool
    var initialized: bool
    var timestep: int
    var stopRequested: bool
    var hasState: bool
    var handles: map<HandleKey, int>
    var actuatorHandles: map<string, ZoneActuators>
    var currentObs: Option<Obs>
    const zoneNames: seq<string>

    /** Before initialisation both tables are empty; after it the sensor keys
        are present and only zones of the model with two positive handles
        have actuators. */
    ghost predicate Valid()
      reads this
    {
      && timestep >= 0
      && (!initialized ==> handles == map[] && actuatorHandles == map[])
      && (initialized ==> OatKey in handles && PowerKey in handles)
      && (forall z :: z in actuatorHandles ==>
            z in zoneNames && actuatorHandles[z].cooling > 0 && actuatorHandles[z].heating > 0)
    }

    /** `EnergyPlusEnv(idf_path, epw_path, output_dir)` past its path checks:
        not done, not initialised, no engine state, empty tables and
        observation. */
    constructor()
      ensures Valid()
      ensures !done && !initialized && timestep == 0 && !stopRequested && !hasState
      ensures handles == map[] && actuatorHandles == map[] && currentObs == None
      ensures zoneNames == ZoneNames
    {
      zoneNames := ZoneNames;
      done := false;
      initialized := false;
      timestep := 0;
      stopRequested := false;
      hasState := false;
      handles := map[];
      actuatorHandles := map[];
      currentObs := None;
    }

    /** `_init_handles()`: a no-op once initialised; otherwise looks up the
        sensor and zone temperature handles, keeps the actuators of each zone
        whose two handles are positive, and marks the tables initialised. */
    method InitHandles(e: Engine)
      requires Valid()
      modifies this
      ensures Valid() && initialized
      ensures old(initialized) ==> handles == old(handles) && actuatorHandles == old(actuatorHandles)
      ensures !old(initialized) ==>
        handles == HandleTable(e, zoneNames) && actuatorHandles == ActuatorTable(e, zoneNames)
      ensures done == old(done) && timestep == old(timestep) && stopRequested == old(stopRequested)
      ensures hasState == old(hasState) && currentObs == old(currentObs)
    {
      if initialized {
        return;
      }
      handles := LookupHandles(e);
      actuatorHandles := LookupActuators(e);
      initialized := true;
      ActuatorTableZones(e, zoneNames);
    }

    /** The lookups of `_init_handles`: the three sensor handles, then a
        temperature handle per zone. */
    method LookupHandles(e: Engine) returns (table: map<HandleKey, int>)
      ensures table == HandleTable(e, zoneNames)
    {
      table := map[];
      table := table[OatKey := e.outdoorTempHandle];
      table := table[PowerKey := e.facilityPowerHandle];
      table := table[HourKey := e.currentTimeHandle];
      assert zoneNames[..0] == [];
      for i := 0 to |zoneNames|
        invariant table == HandleTable(e, zoneNames[..i])
      {
        var zone := zoneNames[i];
        assert zoneNames[..i + 1] == zoneNames[..i] + [zone];
        HandleTableSnoc(e, zoneNames[..i], zone);
        table := table[TempKey(zone) := e.zoneTempHandle(zone)];
      }
      assert zoneNames[..|zoneNames|] == zoneNames;
    }

    /** The actuator lookups of `_init_handles`: a zone is kept when both
        its setpoint handles are positive. */
    method LookupActuators(e: Engine) returns (table: map<string, ZoneActuators>)
      ensures table == ActuatorTable(e, zoneNames)
    {
      table := map[];
      assert zoneNames[..0] == [];
      for i := 0 to |zoneNames|
        invariant table == ActuatorTable(e, zoneNames[..i])
      {
        var zone := zoneNames[i];
        assert zoneNames[..i + 1] == zoneNames[..i] + [zone];
        ActuatorTableSnoc(e, zoneNames[..i], zone);
        var coolingHandle := e.coolingSetpointHandle(zone);
        var heatingHandle := e.heatingSetpointHandle(zone);
        if coolingHandle > 0 && heatingHandle > 0 {
          table := table[zone := ZoneActuators(coolingHandle, heatingHandle)];
        }
      }
      assert zoneNames[..|zoneNames|] == zoneNames;
    }

    /** `_get_observations()`: the observation at the current step. */
    method GetObservations(e: Engine) returns (obs: Obs)
      requires OatKey in handles && PowerKey in handles
      ensures obs == Observation(e, zoneNames, timestep, handles)
    {
      var zoneTemps: map<string, real> := map[];
      for i := 0 to |zoneNames|
        invariant zoneTemps == ZoneTemps(e, handles, zoneNames[..i])
      {
        var zone := zoneNames[i];
        assert zoneNames[..i + 1] == zoneNames[..i] + [zone];
        ZoneTempsSnoc(e, handles, zoneNames[..i], zone);
        if TempKey(zone) in handles && handles[TempKey(zone)] > 0 {
          zoneTemps := zoneTemps[zone := e.variableValue(handles[TempKey(zone)])];
        }
      }
      assert zoneNames[..|zoneNames|] == zoneNames;
      obs := Obs(timestep, e.year, e.month, e.day, e.hour, e.minute,
                 e.variableValue(handles[OatKey]), e.meterValue(handles[PowerKey]), zoneTemps);
    }

    /** `_apply_actions(actions)`: the writes of the per-zone setpoints and
        then of the uniform ones. */
    method ApplyActions(a: Action) returns (writes: seq<Write>)
      ensures writes == ActionWrites(actuatorHandles, zoneNames, a)
    {
      writes := [];
      if a.zoneSetpoints == [] && a.coolingSetpoint.None? && a.heatingSetpoint.None? {
        return;
      }
      writes := ZoneSetpointWrites(a.zoneSetpoints);
      if a.coolingSetpoint.Some? {
        var uniform := UniformActuatorWrites(true, a.coolingSetpoint.value);
        writes := writes + uniform;
      }
      if a.heatingSetpoint.Some? {
        var uniform := UniformActuatorWrites(false, a.heatingSetpoint.value);
        writes := writes + uniform;
      }
    }

    /** The loop over `zone_setpoints`: each entry's present keys for a zone
        with actuators. */
    method ZoneSetpointWrites(entries: seq<(string, Setpoints)>) returns (writes: seq<Write>)
      ensures writes == ZoneWrites(actuatorHandles, entries)
    {
      writes := [];
      assert entries[..0] == [];
      for i := 0 to |entries|
        invariant writes == ZoneWrites(actuatorHandles, entries[..i])
      {
        var (zone, setpoints) := entries[i];
        assert entries[..i + 1] == entries[..i] + [(zone, setpoints)];
        ZoneWritesSnoc(actuatorHandles, entries[..i], zone, setpoints);
        if zone in actuatorHandles {
          var zoneHandles := actuatorHandles[zone];
          if setpoints.cooling.Some? {
            writes := writes + [Write(zoneHandles.cooling, setpoints.cooling.value)];
          }
          if setpoints.heating.Some? {
            writes := writes + [Write(zoneHandles.heating, setpoints.heating.value)];
          }
        }
      }
      assert entries[..|entries|] == entries;
    }

    /** The loop over the actuator table writing one uniform setpoint, in
        the table's order (the order of the zone list it was built in). */
    method UniformActuatorWrites(cooling: bool, v: real) returns (writes: seq<Write>)
      ensures writes == UniformWrites(actuatorHandles, zoneNames, cooling, v)
    {
      writes := [];
      for i := 0 to |zoneNames|
        invariant writes == UniformWrites(actuatorHandles, zoneNames[..i], cooling, v)
      {
        var zone := zoneNames[i];
        assert zoneNames[..i + 1] == zoneNames[..i] + [zone];
        UniformWritesSnoc(actuatorHandles, zoneNames[..i], cooling, v, zone);
        if zone in actuatorHandles {
          var zoneHandles := actuatorHandles[zone];
          writes := writes + [Write(if cooling then zoneHandles.cooling else zoneHandles.heating, v)];
        }
      }
      assert zoneNames[..|zoneNames|] == zoneNames;
    }

    /** `_timestep_callback(state)` with the engine `e` and the item `reply`
        the callback takes from the action queue: a stop request stops the
        engine; warm-up and non-run-period calls return; a run-period call
        initialises the tables once, counts the step, sends one observation
        and then stops on `'STOP'`, applies an action dict, or does nothing.
        `stopped` says whether the engine was asked to stop. */
    method TimestepCallback(e: Engine, reply: Reply) returns (sent: Option<Obs>, stopped: bool, writes: seq<Write>)
      requires Valid()
      modifies this
      ensures Valid()
      ensures done == old(done) && stopRequested == old(stopRequested) && hasState == old(hasState)
      ensures currentObs == old(currentObs)
      ensures old(stopRequested) ==>
        && stopped && sent == None && writes == [] && timestep == old(timestep)
        && initialized == old(initialized) && handles == old(handles) && actuatorHandles == old(actuatorHandles)
      ensures !old(stopRequested) && (e.warmup || e.kindOfSim != 3) ==>
        && !stopped && sent == None && writes == [] && timestep == old(timestep)
        && initialized == old(initialized) && handles == old(handles) && actuatorHandles == old(actuatorHandles)
      ensures !old(stopRequested) && !e.warmup && e.kindOfSim == 3 ==>
        && initialized
        && (old(initialized) ==> handles == old(handles) && actuatorHandles == old(actuatorHandles))
        && (!old(initialized) ==> handles == HandleTable(e, zoneNames) && actuatorHandles == ActuatorTable(e, zoneNames))
        && timestep == old(timestep) + 1
        && sent == Some(Observation(e, zoneNames, timestep, handles))
        && stopped == (reply == StopReply)
        && writes == (if reply.ActionReply? then ActionWrites(actuatorHandles, zoneNames, reply.action) else [])
    {
      sent := None;
      stopped := false;
      writes := [];
      if stopRequested {
        stopped := true;
        return;
      }
      if e.warmup {
        return;
      }
      if e.kindOfSim != 3 {
        return;
      }
      if !initialized {
        InitHandles(e);
      }
      timestep := timestep + 1;
      var obs := GetObservations(e);
      sent := Some(obs);
      match reply {
        case StopReply =>
          stopped := true;
        case NoAction =>
        case ActionReply(a) =>
          writes := ApplyActions(a);
        case NoReply =>
      }
    }

    /** `step(action)` with the message `next` it takes from the observation
        queue (`None` when none comes within the wait).  `queued` is what it
        puts on the action queue, which the next `TimestepCallback` takes as
        its reply: the action dict, or `None` for no action.  A done
        environment queues nothing, answers with its last observation and
        changes nothing. */
    method Step(action: Option<Action>, next: Option<Message>)
      returns (queued: Option<Reply>, obs: Option<Obs>, reward: real, isDone: bool, info: Info)
      requires Valid()
      modifies this
      ensures Valid()
      ensures old(done) <==> queued.None?
      ensures !old(done) ==> queued == Some(if action.Some? then ActionReply(action.value) else NoAction)
      ensures initialized == old(initialized) && timestep == old(timestep) && stopRequested == old(stopRequested)
      ensures hasState == old(hasState) && handles == old(handles) && actuatorHandles == old(actuatorHandles)
      ensures old(done) ==> done && currentObs == old(currentObs) && (obs, reward, isDone, info) == (old(currentObs), 0.0, true, NoInfo)
      ensures !old(done) && next.None? ==>
        done && currentObs == old(currentObs) && (obs, reward, isDone, info) == (old(currentObs), 0.0, true, TimeoutInfo)
      ensures !old(done) && next.Some? && next.value.DoneMessage? ==>
        done && currentObs == old(currentObs)
        && (obs, reward, isDone, info) == (old(currentObs), 0.0, true, ExitCodeInfo(next.value.exitCode))
      ensures !old(done) && next.Some? && next.value.ObsMessage? ==>
        !done && currentObs == Some(next.value.obs)
        && (obs, reward, isDone, info) == (Some(next.value.obs), -next.value.obs.totalPower / 1000000.0, false, NoInfo)
    {
      if done {
        return None, currentObs, 0.0, true, NoInfo;
      }
      queued := Some(if action.Some? then ActionReply(action.value) else NoAction);
      if next.None? {
        done := true;
        return queued, currentObs, 0.0, true, TimeoutInfo;
      }
      match next.value {
        case DoneMessage(exitCode) =>
          done := true;
          return queued, currentObs, 0.0, true, ExitCodeInfo(exitCode);
        case ObsMessage(data) =>
          currentObs := Some(data);
          reward := -data.totalPower / 1000000.0;
          return queued, Some(data), reward, false, NoInfo;
      }
    }

    /** `close()`: requests a stop, lets go of the engine state and marks
        the environment done. */
    method Close()
      requires Valid()
      modifies this
      ensures Valid()
      ensures stopRequested && done && !hasState
      ensures initialized == old(initialized) && timestep == old(timestep) && currentObs == old(currentObs)
      ensures handles == old(handles) && actuatorHandles == old(actuatorHandles)
    {
      stopRequested := true;
      if hasState {
        hasState := false;
      }
      done := true;
    }

    /** `reset()` with the first message `first` of the new run: closes a
        held engine state, takes a new one, clears the flags, the counter
        and the tables, and returns the first observation, or the empty
        dict (and done) when the run ends at once; the last observation is
        replaced only by a new one. */
    method Reset(first: Message) returns (obs: Option<Obs>)
      requires Valid()
      modifies this
      ensures Valid()
      ensures hasState && !initialized && timestep == 0 && !stopRequested
      ensures handles == map[] && actuatorHandles == map[]
      ensures first.DoneMessage? ==> done && obs == None && currentObs == old(currentObs)
      ensures first.ObsMessage? ==> !done && obs == Some(first.obs) && currentObs == obs
    {
      if hasState {
        Close();
      }
      hasState := true;
      done := false;
      initialized := false;
      timestep := 0;
      stopRequested := false;
      handles := map[];
      actuatorHandles := map[];
      match first {
        case DoneMessage(_) =>
          done := true;
          return None;
        case ObsMessage(data) =>
          currentObs := Some(data);
          return Some(data);
      }
    }
  }

  /** A run-period callback on fresh tables reads each zone's temperature
      exactly when the engine gives the zone a positive temperature handle. */
  lemma FreshObservationZones(e: Engine, zones: seq<string>, timestep: int, z: string)
    ensures var obs := Observation(e, zones, timestep, HandleTable(e, zones));
      z in obs.zoneTemps <==> z in zones && e.zoneTempHandle(z) > 0
  {
    var handles := HandleTable(e, zones);
    HandleTableTemp(e, zones, z);
    ZoneTempsMembers(e, handles, zones, z);
  }
}
