/** run_control_sim.py: the in-process rule-based controller.  Each
    engine callback counts the step, initialises the handles on the first
    run-time step, writes one setpoint pair computed from the previous
    step's power to every controlled zone, logs every fourth step and
    remembers the current power. */
module RuleControl {
  import opened Wrappers
  import opened EngineApi
  import opened SetpointRule

  /** `zone_handles`, a dict from zone name to its two actuator handles,
      as its entries in insertion order. */
  type ZoneTable = seq<(string, ZoneActuators)>

  /** The zones of a table, in order. */
  function Zones(d: ZoneTable): (r: seq<string>)
    ensures |r| == |d|
    ensures forall i :: 0 <= i < |d| ==> r[i] == d[i].0
  {
    if d == [] then [] else [d[0].0] + Zones(d[1..])
  }

  /** Every entry holds two positive handles. */
  predicate PositiveHandles(d: ZoneTable) {
    forall i :: 0 <= i < |d| ==> d[i].1.cooling > 0 && d[i].1.heating > 0
  }

  /** No zone appears twice. */
  predicate DistinctZones(d: ZoneTable) {
    forall i, j :: 0 <= i < j < |d| ==> d[i].0 != d[j].0
  }

  /** Where `zone` sits in the table, or -1 when it is not there. */
  function IndexOf(d: ZoneTable, zone: string): (r: int)
    ensures -1 <= r < |d|
    ensures r == -1 <==> zone !in Zones(d)
    ensures r >= 0 ==> d[r].0 == zone
    decreases |d|
  {
    if d == [] then -1
    else if d[|d| - 1].0 == zone then |d| - 1
    else
      assert Zones(d) == Zones(d[..|d| - 1]) + [d[|d| - 1].0];
      IndexOf(d[..|d| - 1], zone)
  }

  /** `d[zone] = handles`: an existing zone keeps its place and takes the
      new handles; a new zone goes last. */
  function DictSet(d: ZoneTable, zone: string, handles: ZoneActuators): ZoneTable {
    var k := IndexOf(d, zone);
    if k < 0 then d + [(zone, handles)] else d[k := (zone, handles)]
  }

  /** The zones after a set are the zones before and `zone`. */
  lemma DictSetMembers(d: ZoneTable, zone: string, handles: ZoneActuators, z: string)
    ensures z in Zones(DictSet(d, zone, handles)) <==> z in Zones(d) || z == zone
  {
    DictSetOrder(d, zone, handles);
  }

  /** Setting a zone already there keeps the order of the zones; a new zone
      goes last. */
  lemma DictSetOrder(d: ZoneTable, zone: string, handles: ZoneActuators)
    ensures zone in Zones(d) ==> Zones(DictSet(d, zone, handles)) == Zones(d)
    ensures zone !in Zones(d) ==> DictSet(d, zone, handles) == d + [(zone, handles)]
    ensures zone !in Zones(d) ==> Zones(DictSet(d, zone, handles)) == Zones(d) + [zone]
  {
    var r := DictSet(d, zone, handles);
    if zone in Zones(d) {
      assert Zones(r) == Zones(d);
    } else {
      assert Zones(r) == Zones(d) + [zone];
    }
  }

  /** Every entry after a set is the new entry of `zone` or the entry that
      was at its place. */
  lemma DictSetEntries(d: ZoneTable, zone: string, handles: ZoneActuators)
    ensures var r := DictSet(d, zone, handles);
      forall i :: 0 <= i < |r| ==> r[i] == (zone, handles) || (i < |d| && r[i] == d[i])
  {
  }

  /** Zones stay distinct, and then the entry of `zone` holds the new
      handles and every other entry is kept. */
  lemma DictSetDistinct(d: ZoneTable, zone: string, handles: ZoneActuators)
    requires DistinctZones(d)
    ensures var r := DictSet(d, zone, handles);
      && DistinctZones(r)
      && forall i :: 0 <= i < |r| ==> r[i] == (if r[i].0 == zone then (zone, handles) else d[i])
  {
    var k := IndexOf(d, zone);
    if k < 0 {
      assert forall i :: 0 <= i < |d| ==> d[i].0 == Zones(d)[i];
    }
  }

  /** The table after `initialize_handles`' loop over `zones` from the
      table `d`: each zone whose two handles are positive is set. */
  function KeepZones(e: Engine, d: ZoneTable, zones: seq<string>): ZoneTable
    decreases |zones|
  {
    if zones == [] then d
    else
      var z := zones[|zones| - 1];
      var rest := KeepZones(e, d, zones[..|zones| - 1]);
      var h := ZoneHandles(e, z);
      if h.cooling > 0 && h.heating > 0 then DictSet(rest, z, h) else rest
  }


  /** One more zone in the loop. */
  lemma KeepZonesSnoc(e: Engine, d: ZoneTable, zones: seq<string>, z: string)
    ensures KeepZones(e, d, zones + [z]) ==
      (var h := ZoneHandles(e, z); if h.cooling > 0 && h.heating > 0 then DictSet(KeepZones(e, d, zones), z, h) else KeepZones(e, d, zones))
  {
    assert (zones + [z])[..|zones|] == zones;
  }

  /** After the loop a zone is in the table exactly when it was there
      before or is one of `zones` with two positive handles; such a zone
      holds its engine handles, and the others keep theirs.  Zones stay
      distinct. */
  lemma {:induction false} KeepZonesMembers(e: Engine, d: ZoneTable, zones: seq<string>, z: string)
    ensures z in Zones(KeepZones(e, d, zones)) <==>
      (z in Zones(d) || (z in zones && ZoneHandles(e, z).cooling > 0 && ZoneHandles(e, z).heating > 0))
    decreases |zones|
  {
    if zones != [] {
      var pre := zones[..|zones| - 1];
      var last := zones[|zones| - 1];
      var rest := KeepZones(e, d, pre);
      var h := ZoneHandles(e, last);
      KeepZonesMembers(e, d, pre, z);
      assert zones == pre + [last];
      assert z in zones <==> z in pre || z == last;
      if h.cooling > 0 && h.heating > 0 {
        assert KeepZones(e, d, zones) == DictSet(rest, last, h);
        DictSetMembers(rest, last, h, z);
      } else {
        assert KeepZones(e, d, zones) == rest;
      }
    }
  }

  /** Zones stay distinct through the loop. */
  lemma {:induction false} KeepZonesDistinct(e: Engine, d: ZoneTable, zones: seq<string>)
    requires DistinctZones(d)
    ensures DistinctZones(KeepZones(e, d, zones))
    decreases |zones|
  {
    if zones != [] {
      var pre := zones[..|zones| - 1];
      KeepZonesDistinct(e, d, pre);
      DictSetDistinct(KeepZones(e, d, pre), zones[|zones| - 1], ZoneHandles(e, zones[|zones| - 1]));
    }
  }

  /** Every entry of the table after the loop holds two positive handles
      when every entry before it did. */
  lemma {:induction false} KeepZonesPositive(e: Engine, d: ZoneTable, zones: seq<string>)
    requires PositiveHandles(d)
    ensures PositiveHandles(KeepZones(e, d, zones))
    decreases |zones|
  {
    if zones != [] {
      var pre := zones[..|zones| - 1];
      var last := zones[|zones| - 1];
      KeepZonesPositive(e, d, pre);
      var rest := KeepZones(e, d, pre);
      var h := ZoneHandles(e, last);
      if h.cooling > 0 && h.heating > 0 {
        var r := DictSet(rest, last, h);
        assert KeepZones(e, d, zones) == r;
        DictSetEntries(rest, last, h);
        forall i | 0 <= i < |r| ensures r[i].1.cooling > 0 && r[i].1.heating > 0 {
          if r[i] != (last, h) {
            assert i < |rest| && rest[i] == r[i];
          }
        }
      }
    }
  }

  /** The writes of one setpoint pair to every zone of the table, in table
      order: the cooling handle then the heating handle. */
  function PairWrites(d: ZoneTable, cooling: real, heating: real): (r: seq<Write>)
    ensures |r| == 2 * |d|
    ensures forall i :: 0 <= i < |d| ==>
      r[2 * i] == Write(d[i].1.cooling, cooling) && r[2 * i + 1] == Write(d[i].1.heating, heating)
    decreases |d|
  {
    if d == [] then []
    else
      var rest := PairWrites(d[..|d| - 1], cooling, heating);
      rest + [Write(d[|d| - 1].1.cooling, cooling), Write(d[|d| - 1].1.heating, heating)]
  }

  /** Distinct zones, each with two positive handles. */
  predicate TableValid(d: ZoneTable) {
    DistinctZones(d) && PositiveHandles(d)
  }

  /** One entry of `log_data`. */
  datatype LogEntry = LogEntry(timestep: int, oat: real, power: real, coolingSp: real, heatingSp: real)

  /** A log after `count` callbacks: in increasing order, steps divisible by
      four that have happened, each with a pair that keeps the deadband. */
  predicate LogValid(log: seq<LogEntry>, count: int) {
    && (forall i :: 0 <= i < |log| ==>
          && log[i].timestep % 4 == 0
          && 0 < log[i].timestep <= count
          && log[i].coolingSp - log[i].heatingSp >= Deadband)
    && (forall i, j :: 0 <= i < j < |log| ==> log[i].timestep < log[j].timestep)
  }

  /** The log after callback number `count` with the values `entry`: the
      entry is appended exactly when `count` is a multiple of four, and the
      log stays valid. */
  function LoggedAfter(log: seq<LogEntry>, count: int, entry: LogEntry): (r: seq<LogEntry>)
    requires LogValid(log, count - 1)
    requires entry.timestep == count > 0
    requires entry.coolingSp - entry.heatingSp >= Deadband
    ensures LogValid(r, count)
    ensures r == log + (if count % 4 == 0 then [entry] else [])
  {
    if count % 4 == 0 then LogValidAppend(log, count, entry); log + [entry] else log
  }

  /** A log stays valid as the counter rises. */
  lemma LogValidLater(log: seq<LogEntry>, count: int)
    requires LogValid(log, count)
    ensures LogValid(log, count + 1)
  {
  }

  /** Logging the current step, when it is a multiple of four, keeps the
      log valid. */
  lemma LogValidAppend(log: seq<LogEntry>, count: int, entry: LogEntry)
    requires LogValid(log, count - 1)
    requires entry.timestep == count > 0 && count % 4 == 0
    requires entry.coolingSp - entry.heatingSp >= Deadband
    ensures LogValid(log + [entry], count)
  {
  }

  /** `RuleBasedController`: the one-step power lag, the setpoints last
      applied, the handles, the log and the callback counter. */
  class RuleBasedController {
    var previousPower: real
    var currentCoolingSetpoint: real
    var currentHeatingSetpoint: real
    var handlesInitialized: bool
    var oatHandle: Option<int>
    var powerHandle: Option<int>
    var zoneHandles: ZoneTable
    var logData: seq<LogEntry>
    var timestepCount: int
    const zoneNames: seq<string>

    /** Once initialised both sensor handles are positive and a zone is
        controlled; the table holds distinct zones with positive handles; the
        setpoints keep the deadband; the log holds, in increasing order,
        steps divisible by four that have happened, each with a pair that
        keeps the deadband. */
    ghost predicate Valid()
      reads this
    {
      && timestepCount >= 0
      && (handlesInitialized ==>
            && oatHandle.Some? && oatHandle.value > 0
            && powerHandle.Some? && powerHandle.value > 0
            && zoneHandles != [])
      && TableValid(zoneHandles)
      && currentCoolingSetpoint - currentHeatingSetpoint >= Deadband
      && LogValid(logData, timestepCount)
    }

    /** `RuleBasedController(api, state)`: no power yet, the base
        setpoints, no handles, an empty log. */
    constructor()
      ensures Valid()
      ensures previousPower == 0.0
      ensures currentCoolingSetpoint == CoolingSetpointBase && currentHeatingSetpoint == HeatingSetpointBase
      ensures !handlesInitialized && oatHandle == None && powerHandle == None && zoneHandles == []
      ensures logData == [] && timestepCount == 0
      ensures zoneNames == ZoneNames
    {
      zoneNames := ZoneNames;
      previousPower := 0.0;
      currentCoolingSetpoint := CoolingSetpointBase;
      currentHeatingSetpoint := HeatingSetpointBase;
      handlesInitialized := false;
      oatHandle := None;
      powerHandle := None;
      zoneHandles := [];
      logData := [];
      timestepCount := 0;
    }

    /** `initialize_handles()`: true at once when already initialised;
        otherwise looks up the two sensor handles, sets every zone whose two
        actuator handles are positive into the table (what earlier attempts
        put there stays), and succeeds, marking the controller
        initialised, exactly when both sensor handles are positive and the
        table is not empty. */
    method InitializeHandles(e: Engine) returns (ok: bool)
      requires Valid()
      modifies this
      ensures Valid()
      ensures old(handlesInitialized) ==>
        ok && oatHandle == old(oatHandle) && powerHandle == old(powerHandle) && zoneHandles == old(zoneHandles)
      ensures !old(handlesInitialized) ==>
        && oatHandle == Some(e.outdoorTempHandle) && powerHandle == Some(e.facilityPowerHandle)
        && zoneHandles == KeepZones(e, old(zoneHandles), zoneNames)
        && ok == (e.outdoorTempHandle > 0 && e.facilityPowerHandle > 0 && zoneHandles != [])
      ensures handlesInitialized == ok
      ensures previousPower == old(previousPower) && logData == old(logData) && timestepCount == old(timestepCount)
      ensures currentCoolingSetpoint == old(currentCoolingSetpoint) && currentHeatingSetpoint == old(currentHeatingSetpoint)
    {
      if handlesInitialized {
        return true;
      }
      oatHandle := Some(e.outdoorTempHandle);
      powerHandle := Some(e.facilityPowerHandle);
      var table := KeepActuatedZones(e, zoneHandles);
      zoneHandles := table;
      if oatHandle.value <= 0 {
        return false;
      }
      if powerHandle.value <= 0 {
        return false;
      }
      if zoneHandles == [] {
        return false;
      }
      handlesInitialized := true;
      return true;
    }

    /** The zone loop of `initialize_handles`, from the table `d`. */
    method KeepActuatedZones(e: Engine, d: ZoneTable) returns (table: ZoneTable)
      requires TableValid(d)
      ensures table == KeepZones(e, d, zoneNames)
      ensures TableValid(table)
    {
      table := d;
      assert zoneNames[..0] == [];
      for i := 0 to |zoneNames|
        invariant table == KeepZones(e, d, zoneNames[..i])
      {
        var zoneName := zoneNames[i];
        assert zoneNames[..i + 1] == zoneNames[..i] + [zoneName];
        KeepZonesSnoc(e, d, zoneNames[..i], zoneName);
        var coolingHandle := e.coolingSetpointHandle(zoneName);
        var heatingHandle := e.heatingSetpointHandle(zoneName);
        if coolingHandle > 0 && heatingHandle > 0 {
          table := DictSet(table, zoneName, ZoneActuators(coolingHandle, heatingHandle));
        }
      }
      assert zoneNames[..|zoneNames|] == zoneNames;
      KeepZonesPositive(e, d, zoneNames);
      KeepZonesDistinct(e, d, zoneNames);
      assert TableValid(table);
    }

    /** The loop writing the pair to every zone of the table. */
    method ApplySetpoints(cooling: real, heating: real) returns (writes: seq<Write>)
      ensures writes == PairWrites(zoneHandles, cooling, heating)
    {
      writes := [];
      for i := 0 to |zoneHandles|
        invariant writes == PairWrites(zoneHandles[..i], cooling, heating)
      {
        var (_, handles) := zoneHandles[i];
        assert zoneHandles[..i + 1][..i] == zoneHandles[..i];
        writes := writes + [Write(handles.cooling, cooling), Write(handles.heating, heating)];
      }
      assert zoneHandles[..|zoneHandles|] == zoneHandles;
    }

    /** `timestep_callback(state)` with the engine `e`: the counter always
        rises by one; a warm-up call or a failed initialisation ends there;
        otherwise the setpoints for the current outdoor temperature and the
        previous power are written to every controlled zone, logged when the
        counter is a multiple of four, and the current power becomes the
        previous power. */
    method TimestepCallback(e: Engine) returns (writes: seq<Write>)
      requires Valid()
      modifies this
      ensures Valid()
      ensures timestepCount == old(timestepCount) + 1
      ensures e.warmup ==>
        && writes == [] && handlesInitialized == old(handlesInitialized)
        && oatHandle == old(oatHandle) && powerHandle == old(powerHandle) && zoneHandles == old(zoneHandles)
      ensures !old(handlesInitialized) && !e.warmup ==>
        && oatHandle == Some(e.outdoorTempHandle) && powerHandle == Some(e.facilityPowerHandle)
        && zoneHandles == KeepZones(e, old(zoneHandles), zoneNames)
        && handlesInitialized == (e.outdoorTempHandle > 0 && e.facilityPowerHandle > 0 && zoneHandles != [])
      ensures old(handlesInitialized) ==>
        handlesInitialized && oatHandle == old(oatHandle) && powerHandle == old(powerHandle) && zoneHandles == old(zoneHandles)
      ensures !handlesInitialized || e.warmup ==>
        && writes == [] && previousPower == old(previousPower) && logData == old(logData)
        && currentCoolingSetpoint == old(currentCoolingSetpoint) && currentHeatingSetpoint == old(currentHeatingSetpoint)
      ensures handlesInitialized && !e.warmup ==>
        var oat := e.variableValue(oatHandle.value);
        var power := e.meterValue(powerHandle.value);
        var (c, h) := Setpoints(oat, old(previousPower));
        && writes == PairWrites(zoneHandles, c, h)
        && logData == old(logData) + (if timestepCount % 4 == 0 then [LogEntry(timestepCount, oat, power, c, h)] else [])
        && previousPower == power
        && currentCoolingSetpoint == c && currentHeatingSetpoint == h
    {
      writes := [];
      LogValidLater(logData, timestepCount);
      timestepCount := timestepCount + 1;
      if e.warmup {
        return;
      }
      if !handlesInitialized {
        var ok := InitializeHandles(e);
        if !ok {
          return;
        }
      }
      writes := Control(e);
    }

    /** The control part of the callback, initialised: read, compute from
        the previous power, write, log, remember. */
    method Control(e: Engine) returns (writes: seq<Write>)
      requires Valid() && handlesInitialized && timestepCount > 0
      requires LogValid(logData, timestepCount - 1)
      modifies this
      ensures Valid() && handlesInitialized
      ensures timestepCount == old(timestepCount)
      ensures oatHandle == old(oatHandle) && powerHandle == old(powerHandle) && zoneHandles == old(zoneHandles)
      ensures var oat := e.variableValue(oatHandle.value);
        var power := e.meterValue(powerHandle.value);
        var (c, h) := Setpoints(oat, old(previousPower));
        && writes == PairWrites(zoneHandles, c, h)
        && logData == old(logData) + (if timestepCount % 4 == 0 then [LogEntry(timestepCount, oat, power, c, h)] else [])
        && previousPower == power
        && currentCoolingSetpoint == c && currentHeatingSetpoint == h
    {
      var oat := e.variableValue(oatHandle.value);
      var power := e.meterValue(powerHandle.value);
      var (newCooling, newHeating) := Setpoints(oat, previousPower);
      writes := ApplySetpoints(newCooling, newHeating);
      logData := LoggedAfter(logData, timestepCount, LogEntry(timestepCount, oat, power, newCooling, newHeating));
      previousPower := power;
      currentCoolingSetpoint := newCooling;
      currentHeatingSetpoint := newHeating;
    }

    /** `get_summary()`: nothing without log entries; otherwise the counter,
        the number of controlled zones and the extremes (and the mean power)
        of the logged values. */
    function GetSummary(): (r: Summary)
      reads this
      ensures r.NoData? <==> logData == []
      ensures r.ControlSummary? ==>
        && r.totalTimesteps == timestepCount && r.zonesControlled == |zoneHandles|
        && r.minPower <= r.avgPower <= r.maxPower
        && (forall i :: 0 <= i < |logData| ==>
              && r.minPower <= logData[i].power <= r.maxPower
              && r.minCooling <= logData[i].coolingSp <= r.maxCooling
              && r.minHeating <= logData[i].heatingSp <= r.maxHeating)
        && (exists i :: 0 <= i < |logData| && logData[i].power == r.minPower)
        && (exists i :: 0 <= i < |logData| && logData[i].power == r.maxPower)
        && (exists i :: 0 <= i < |logData| && logData[i].coolingSp == r.minCooling)
        && (exists i :: 0 <= i < |logData| && logData[i].coolingSp == r.maxCooling)
        && (exists i :: 0 <= i < |logData| && logData[i].heatingSp == r.minHeating)
        && (exists i :: 0 <= i < |logData| && logData[i].heatingSp == r.maxHeating)
        && r.avgPower == Sum(Powers(logData)) / (|logData| as real)
    {
      if logData == [] then NoData
      else
        var powers := Powers(logData);
        var coolingSps := CoolingSps(logData);
        var heatingSps := HeatingSps(logData);
        SeqMinMax(powers);
        SeqMinMax(coolingSps);
        SeqMinMax(heatingSps);
        MeanBetween(powers);
        ControlSummary(timestepCount, |zoneHandles|,
          SeqMin(powers), SeqMax(powers), Sum(powers) / (|powers| as real),
          SeqMin(coolingSps), SeqMax(coolingSps), SeqMin(heatingSps), SeqMax(heatingSps))
    }
  }

  /** What `get_summary` reports, before formatting. */
  datatype Summary =
    | NoData
    | ControlSummary(totalTimesteps: int, zonesControlled: int,
                     minPower: real, maxPower: real, avgPower: real,
                     minCooling: real, maxCooling: real,
                     minHeating: real, maxHeating: real)

  /** The logged powers, cooling setpoints and heating setpoints. */
  function Powers(log: seq<LogEntry>): (r: seq<real>)
    ensures |r| == |log| && forall i :: 0 <= i < |log| ==> r[i] == log[i].power
  {
    seq(|log|, i requires 0 <= i < |log| => log[i].power)
  }

  function CoolingSps(log: seq<LogEntry>): (r: seq<real>)
    ensures |r| == |log| && forall i :: 0 <= i < |log| ==> r[i] == log[i].coolingSp
  {
    seq(|log|, i requires 0 <= i < |log| => log[i].coolingSp)
  }

  function HeatingSps(log: seq<LogEntry>): (r: seq<real>)
    ensures |r| == |log| && forall i :: 0 <= i < |log| ==> r[i] == log[i].heatingSp
  {
    seq(|log|, i requires 0 <= i < |log| => log[i].heatingSp)
  }

  /** Python's `min`, `max` and `sum` over a list of numbers. */
  function SeqMin(s: seq<real>): real
    requires s != []
    decreases |s|
  {
    if |s| == 1 then s[0]
    else
      var m := SeqMin(s[..|s| - 1]);
      if s[|s| - 1] < m then s[|s| - 1] else m
  }

  function SeqMax(s: seq<real>): real
    requires s != []
    decreases |s|
  {
    if |s| == 1 then s[0]
    else
      var m := SeqMax(s[..|s| - 1]);
      if s[|s| - 1] > m then s[|s| - 1] else m
  }

  function Sum(s: seq<real>): real
    decreases |s|
  {
    if s == [] then 0.0 else Sum(s[..|s| - 1]) + s[|s| - 1]
  }

  /** The minimum and maximum bound every element and are elements. */
  lemma {:induction false} SeqMinMax(s: seq<real>)
    requires s != []
    ensures forall i :: 0 <= i < |s| ==> SeqMin(s) <= s[i] <= SeqMax(s)
    ensures exists i :: 0 <= i < |s| && s[i] == SeqMin(s)
    ensures exists i :: 0 <= i < |s| && s[i] == SeqMax(s)
    decreases |s|
  {
    if |s| == 1 {
      assert s[0] == SeqMin(s) && s[0] == SeqMax(s);
    } else {
      var pre := s[..|s| - 1];
      SeqMinMax(pre);
      assert forall i :: 0 <= i < |pre| ==> pre[i] == s[i];
      var j :| 0 <= j < |pre| && pre[j] == SeqMin(pre);
      var k :| 0 <= k < |pre| && pre[k] == SeqMax(pre);
      var last := |s| - 1;
      if s[last] < SeqMin(pre) {
        assert s[last] == SeqMin(s);
      } else {
        assert s[j] == SeqMin(s);
      }
      if s[last] > SeqMax(pre) {
        assert s[last] == SeqMax(s);
      } else {
        assert s[k] == SeqMax(s);
      }
    }
  }

  /** The sum lies between the count times a lower bound and the count
      times an upper bound of the elements. */
  lemma {:induction false} SumBetween(s: seq<real>, lo: real, hi: real)
    requires forall i :: 0 <= i < |s| ==> lo <= s[i] <= hi
    ensures (|s| as real) * lo <= Sum(s) <= (|s| as real) * hi
    decreases |s|
  {
    if s != [] {
      var pre := s[..|s| - 1];
      assert forall i :: 0 <= i < |pre| ==> pre[i] == s[i];
      SumBetween(pre, lo, hi);
      assert Sum(s) == Sum(pre) + s[|s| - 1];
      assert (|s| as real) * lo == (|pre| as real) * lo + lo;
      assert (|s| as real) * hi == (|pre| as real) * hi + hi;
    }
  }

  /** The mean lies between the minimum and the maximum. */
  lemma MeanBetween(s: seq<real>)
    requires s != []
    ensures SeqMin(s) <= Sum(s) / (|s| as real) <= SeqMax(s)
  {
    SeqMinMax(s);
    SumBetween(s, SeqMin(s), SeqMax(s));
    var n := |s| as real;
    DivideBetween(Sum(s), n, SeqMin(s), SeqMax(s));
  }

  lemma DivideBetween(t: real, n: real, lo: real, hi: real)
    requires n > 0.0 && n * lo <= t <= n * hi
    ensures lo <= t / n <= hi
  {
    assert t / n * n == t;
  }
}
