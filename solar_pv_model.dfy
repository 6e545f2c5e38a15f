/** solar_pv_model.py: the PVWatts-style PV model without its trigonometry.
    The configuration's module-type coefficient table, the guards on the
    plane-of-array irradiance, the DC power formula with its clamp, the
    inverter's efficiency ramp and clip, the weather row a timestamp reads,
    the tilt default of `load_weather` and the loop and error cases of
    `simulate`.  The sun position, the angle-of-incidence terms and
    `math.exp` are parameters (`Numerics`); timestamps are integers. */
module SolarPv {
  import opened Wrappers

  /** `PVSystemConfig`'s fields. */
  datatype PvConfig = PvConfig(
    systemCapacityKw: real,
    moduleType: int,
    arrayType: int,
    tiltDeg: real,
    azimuthDeg: real,
    systemLossesPct: real,
    dcAcRatio: real,
    inverterEfficiencyPct: real,
    gcr: real,
    tempCoeffPmax: real,
    noct: real,
    refIrradiance: real,
    refTemperature: real)

  /** The declared defaults, before `__post_init__` runs. */
  const DefaultFields := PvConfig(100.0, 0, 0, 20.0, 180.0, 14.0, 1.2, 96.0, 0.4, -0.0047, 45.0, 1000.0, 25.0)

  /** The power temperature coefficient of a module type, when the table
      has one: standard, premium and thin film. */
  function ModuleCoefficient(moduleType: int): (r: Option<real>)
    ensures r.Some? <==> 0 <= moduleType <= 2
    ensures r.Some? ==> r.value < 0.0
  {
    if moduleType == 0 then Some(-0.0047)
    else if moduleType == 1 then Some(-0.0035)
    else if moduleType == 2 then Some(-0.0020)
    else None
  }

  /** `__post_init__`: a known module type sets the temperature
      coefficient; any other keeps the one given.  Nothing else changes. */
  function PostInit(c: PvConfig): (r: PvConfig)
    ensures r == c.(tempCoeffPmax := r.tempCoeffPmax)
    ensures c.moduleType == 0 ==> r.tempCoeffPmax == -0.0047
    ensures c.moduleType == 1 ==> r.tempCoeffPmax == -0.0035
    ensures c.moduleType == 2 ==> r.tempCoeffPmax == -0.0020
    ensures !(0 <= c.moduleType <= 2) ==> r == c
  {
    match ModuleCoefficient(c.moduleType)
    case Some(k) => c.(tempCoeffPmax := k)
    case None => c
  }

  /** Running `__post_init__` again changes nothing. */
  lemma PostInitIdempotent(c: PvConfig)
    ensures PostInit(PostInit(c)) == PostInit(c)
  {
  }

  /** `PVSystemConfig()`: the defaults already agree with the table. */
  const DefaultConfig := PostInit(DefaultFields)

  lemma DefaultConfigUnchanged()
    ensures DefaultConfig == DefaultFields
  {
  }

  /** What the model can fail with: weather never loaded, an empty weather
      table read by index, a float division by zero, and a range that
      selects no timestamp. */
  datatype PvError = WeatherNotLoaded | NoWeatherRows | ZeroDivision | EmptyRange

  datatype Outcome<T> = Ok(value: T) | Failed(error: PvError)

  /** A power in kW, or the `ZeroDivisionError` of computing it. */
  datatype Kw = Kw(kw: real) | DividedByZero

  /** Python's `max(0, x)`. */
  function Max0(x: real): real {
    if x > 0.0 then x else 0.0
  }

  /** Python's `min(x, y)`. */
  function Min(x: real, y: real): real {
    if y < x then y else x
  }

  /** The guards of `_calculate_poa_irradiance`: nothing with the sun at or
      below the horizon, and never negative.  `incident` is the sum of the
      beam, sky-diffuse and ground-reflected terms. */
  function PoaIrradiance(zenithDeg: real, incident: real): (r: real)
    ensures r >= 0.0
    ensures zenithDeg >= 90.0 ==> r == 0.0
    ensures zenithDeg < 90.0 && incident >= 0.0 ==> r == incident
    ensures incident <= 0.0 ==> r == 0.0
  {
    if zenithDeg >= 90.0 then 0.0 else Max0(incident)
  }

  /** The Sandia coefficients `(a, b)` of `_calculate_cell_temperature`:
      open rack, or anything else. */
  function SandiaCoefficients(arrayType: int): (real, real) {
    if arrayType == 0 then (-3.56, -0.075) else (-2.81, -0.0455)
  }

  /** `_calculate_cell_temperature`, with `exp` for `math.exp`. */
  function CellTemperature(c: PvConfig, poa: real, ambientC: real, windSpeed: real, exp: real -> real): real {
    var (a, b) := SandiaCoefficients(c.arrayType);
    poa * exp(a + b * windSpeed) + ambientC
  }

  /** Without irradiance the cells are at the ambient temperature, and in
      sun they are warmer when `exp` is positive there. */
  lemma CellTemperatureAmbient(c: PvConfig, poa: real, ambientC: real, windSpeed: real, exp: real -> real)
    ensures poa == 0.0 ==> CellTemperature(c, poa, ambientC, windSpeed, exp) == ambientC
    ensures poa > 0.0 && exp(SandiaCoefficients(c.arrayType).0 + SandiaCoefficients(c.arrayType).1 * windSpeed) > 0.0 ==>
      CellTemperature(c, poa, ambientC, windSpeed, exp) > ambientC
  {
  }

  /** `temp_factor`: one plus the coefficient times the distance from the
      reference temperature. */
  function TemperatureFactor(c: PvConfig, cellC: real): real {
    1.0 + c.tempCoeffPmax * (cellC - c.refTemperature)
  }

  /** The factor left after `system_losses_pct`. */
  function LossFactor(c: PvConfig): real {
    1.0 - c.systemLossesPct / 100.0
  }

  /** `_calculate_dc_power`: nothing without irradiance; otherwise the
      capacity scaled by the irradiance, the temperature factor and the
      losses, never negative.  A zero reference irradiance divides by
      zero. */
  function DcPower(c: PvConfig, poa: real, cellC: real): (r: Kw)
    ensures r.DividedByZero? <==> poa > 0.0 && c.refIrradiance == 0.0
    ensures r.Kw? ==> r.kw >= 0.0
    ensures poa <= 0.0 ==> r == Kw(0.0)
  {
    if poa <= 0.0 then Kw(0.0)
    else if c.refIrradiance == 0.0 then DividedByZero
    else Kw(Max0(c.systemCapacityKw * (poa / c.refIrradiance) * TemperatureFactor(c, cellC) * LossFactor(c)))
  }

  /** The DC output per unit of irradiance at a cell temperature. */
  function DcGain(c: PvConfig, cellC: real): real
    requires c.refIrradiance != 0.0
  {
    c.systemCapacityKw / c.refIrradiance * TemperatureFactor(c, cellC) * LossFactor(c)
  }

  /** A product of three factors regrouped around `p / q`. */
  lemma Regroup(k: real, p: real, q: real, t: real, l: real)
    requires q != 0.0
    ensures k * (p / q) * t * l == p * (k / q * t * l)
  {
    assert p / q == p * (1.0 / q);
    assert k / q == k * (1.0 / q);
  }

  /** Positive irradiance: the DC power is the irradiance times the gain,
      clamped at zero. */
  lemma DcLinear(c: PvConfig, poa: real, cellC: real)
    requires poa > 0.0 && c.refIrradiance != 0.0
    ensures DcPower(c, poa, cellC) == Kw(Max0(poa * DcGain(c, cellC)))
  {
    var k, q, t, l := c.systemCapacityKw, c.refIrradiance, TemperatureFactor(c, cellC), LossFactor(c);
    Regroup(k, poa, q, t, l);
    assert DcGain(c, cellC) == k / q * t * l;
    assert DcPower(c, poa, cellC) == Kw(Max0(k * (poa / q) * t * l));
  }

  /** At the reference irradiance and temperature the DC power is the
      nameplate capacity after losses. */
  lemma DcAtReference(c: PvConfig)
    requires c.refIrradiance > 0.0 && c.systemCapacityKw >= 0.0 && c.systemLossesPct <= 100.0
    ensures DcPower(c, c.refIrradiance, c.refTemperature) == Kw(c.systemCapacityKw * LossFactor(c))
  {
    var k, q, l := c.systemCapacityKw, c.refIrradiance, LossFactor(c);
    assert q / q == 1.0;
    NoTemperatureCorrection(c);
    MulOnes(k, q / q, TemperatureFactor(c, c.refTemperature), l);
    ScaleMonotone(l, 0.0, k);
  }

  /** At the reference temperature the temperature factor is one. */
  lemma NoTemperatureCorrection(c: PvConfig)
    ensures TemperatureFactor(c, c.refTemperature) == 1.0
  {
    var d := c.refTemperature - c.refTemperature;
    assert d == 0.0;
    assert c.tempCoeffPmax * d == 0.0;
  }

  /** Factors of one drop out of a product. */
  lemma MulOnes(k: real, a: real, b: real, l: real)
    requires a == 1.0 && b == 1.0
    ensures k * a * b * l == k * l
  {
  }

  /** Monotonicity of a non-negative scaling. */
  lemma ScaleMonotone(k: real, x: real, y: real)
    requires k >= 0.0 && x <= y
    ensures k * x <= k * y && x * k <= y * k
  {
    assert k * y - k * x == k * (y - x);
  }

  /** Monotonicity of a product of non-negative factors. */
  lemma ProductMonotone(a1: real, a2: real, b1: real, b2: real)
    requires 0.0 <= a1 <= a2 && 0.0 <= b1 <= b2
    ensures a1 * b1 <= a2 * b2
  {
    ScaleMonotone(b1, a1, a2);
    ScaleMonotone(a2, b1, b2);
  }

  /** Division by a positive number keeps order. */
  lemma DivideMonotone(x: real, y: real, d: real)
    requires d > 0.0 && x <= y
    ensures x / d <= y / d
  {
    assert x / d == x * (1.0 / d) && y / d == y * (1.0 / d);
    ScaleMonotone(1.0 / d, x, y);
  }

  /** With a non-negative gain, more irradiance never gives less DC power. */
  lemma DcMonotoneInIrradiance(c: PvConfig, poa1: real, poa2: real, cellC: real)
    requires c.refIrradiance != 0.0 && DcGain(c, cellC) >= 0.0 && poa1 <= poa2
    ensures DcPower(c, poa1, cellC).kw <= DcPower(c, poa2, cellC).kw
  {
    if poa1 > 0.0 {
      DcLinear(c, poa1, cellC);
      DcLinear(c, poa2, cellC);
      ScaleMonotone(DcGain(c, cellC), poa1, poa2);
    }
  }

  /** With a negative-or-zero coefficient, non-negative capacity, positive
      reference irradiance and losses up to 100 %, hotter cells never give
      more DC power. */
  lemma DcFallsWithTemperature(c: PvConfig, poa: real, cell1: real, cell2: real)
    requires c.tempCoeffPmax <= 0.0 && c.systemCapacityKw >= 0.0 && c.refIrradiance > 0.0 && c.systemLossesPct <= 100.0
    requires cell1 <= cell2
    ensures DcPower(c, poa, cell2).kw <= DcPower(c, poa, cell1).kw
  {
    if poa > 0.0 {
      var m := c.systemCapacityKw * (poa / c.refIrradiance);
      assert m >= 0.0;
      assert c.tempCoeffPmax * (cell2 - cell1) <= 0.0;
      var t1 := TemperatureFactor(c, cell1);
      var t2 := TemperatureFactor(c, cell2);
      assert t2 <= t1;
      ScaleMonotone(m, t2, t1);
      assert m * t2 <= m * t1;
      ScaleMonotone(LossFactor(c), m * t2, m * t1);
    }
  }

  /** The inverter efficiency at a load fraction: rising linearly from zero
      up to the rated efficiency at 10 % load, the rated one above. */
  function InverterEfficiency(c: PvConfig, loadFraction: real): real {
    if loadFraction < 0.1 then c.inverterEfficiencyPct / 100.0 * loadFraction / 0.1
    else c.inverterEfficiencyPct / 100.0
  }

  /** Below 10 % load the ramp lies between zero and the rating. */
  lemma RampBelow(c: PvConfig, f: real)
    requires c.inverterEfficiencyPct >= 0.0 && 0.0 <= f < 0.1
    ensures 0.0 <= InverterEfficiency(c, f) <= c.inverterEfficiencyPct / 100.0
  {
    var e := c.inverterEfficiencyPct / 100.0;
    assert InverterEfficiency(c, f) == e * (f * 10.0);
    ScaleMonotone(e, 0.0, f * 10.0);
    ScaleMonotone(e, f * 10.0, 1.0);
  }

  /** Below 10 % load the ramp rises with the load. */
  lemma RampRises(c: PvConfig, f1: real, f2: real)
    requires c.inverterEfficiencyPct >= 0.0 && 0.0 <= f1 <= f2 < 0.1
    ensures InverterEfficiency(c, f1) <= InverterEfficiency(c, f2)
  {
    var e := c.inverterEfficiencyPct / 100.0;
    assert InverterEfficiency(c, f1) == e * (f1 * 10.0);
    assert InverterEfficiency(c, f2) == e * (f2 * 10.0);
    ScaleMonotone(e, f1 * 10.0, f2 * 10.0);
  }

  /** The ramp meets the rated efficiency at 10 % load, never exceeds it,
      and never falls as the load grows (for a non-negative rating). */
  lemma InverterEfficiencyRamp(c: PvConfig, f1: real, f2: real)
    requires c.inverterEfficiencyPct >= 0.0 && 0.0 <= f1 <= f2
    ensures InverterEfficiency(c, 0.1) == c.inverterEfficiencyPct / 100.0
    ensures 0.0 <= InverterEfficiency(c, f1) <= InverterEfficiency(c, f2) <= c.inverterEfficiencyPct / 100.0
  {
    if f1 < 0.1 {
      RampBelow(c, f1);
    }
    if f2 < 0.1 {
      RampBelow(c, f2);
      RampRises(c, f1, f2);
    }
  }

  /** The inverter's AC capacity. */
  function InverterCapacity(c: PvConfig): real
    requires c.dcAcRatio != 0.0
  {
    c.systemCapacityKw / c.dcAcRatio
  }

  /** `_calculate_ac_power`: nothing without DC power; otherwise the DC
      power times the efficiency at its load fraction, clipped to the
      inverter capacity and never negative.  A zero ratio or capacity
      divides by zero. */
  function AcPower(c: PvConfig, dc: real): (r: Kw)
    ensures r.DividedByZero? <==> dc > 0.0 && (c.dcAcRatio == 0.0 || c.systemCapacityKw == 0.0)
    ensures dc <= 0.0 ==> r == Kw(0.0)
    ensures r.Kw? ==> r.kw >= 0.0
    ensures r.Kw? && dc > 0.0 ==> r.kw <= Max0(InverterCapacity(c))
  {
    if dc <= 0.0 then Kw(0.0)
    else if c.dcAcRatio == 0.0 || c.systemCapacityKw == 0.0 then DividedByZero
    else
      var ac := dc * InverterEfficiency(c, dc / c.systemCapacityKw);
      Kw(Max0(Min(ac, InverterCapacity(c))))
  }

  /** For a positive capacity and non-negative rating the AC power never
      exceeds the DC power at the rated efficiency, and it is exactly that
      from 10 % load up to the clip. */
  lemma AcWithinRating(c: PvConfig, dc: real)
    requires c.systemCapacityKw > 0.0 && c.dcAcRatio != 0.0 && c.inverterEfficiencyPct >= 0.0 && dc > 0.0
    ensures AcPower(c, dc).kw <= dc * (c.inverterEfficiencyPct / 100.0)
    ensures dc / c.systemCapacityKw >= 0.1 && dc * (c.inverterEfficiencyPct / 100.0) <= InverterCapacity(c) ==>
      AcPower(c, dc).kw == dc * (c.inverterEfficiencyPct / 100.0)
  {
    var f := dc / c.systemCapacityKw;
    InverterEfficiencyRamp(c, f, f);
    ScaleMonotone(dc, InverterEfficiency(c, f), c.inverterEfficiencyPct / 100.0);
    assert InverterEfficiency(c, f) * dc == dc * InverterEfficiency(c, f);
  }

  /** The clip and the clamp keep order. */
  lemma ClipMonotone(x: real, y: real, cap: real)
    requires x <= y
    ensures Max0(Min(x, cap)) <= Max0(Min(y, cap))
  {
  }

  /** Before the clip: the DC power times its efficiency rises with the DC
      power. */
  lemma DeliveredMonotone(c: PvConfig, dc1: real, dc2: real)
    requires c.systemCapacityKw > 0.0 && c.inverterEfficiencyPct >= 0.0 && 0.0 < dc1 <= dc2
    ensures dc1 * InverterEfficiency(c, dc1 / c.systemCapacityKw) <= dc2 * InverterEfficiency(c, dc2 / c.systemCapacityKw)
  {
    DivideMonotone(0.0, dc1, c.systemCapacityKw);
    DivideMonotone(dc1, dc2, c.systemCapacityKw);
    InverterEfficiencyRamp(c, dc1 / c.systemCapacityKw, dc2 / c.systemCapacityKw);
    ProductMonotone(dc1, dc2, InverterEfficiency(c, dc1 / c.systemCapacityKw), InverterEfficiency(c, dc2 / c.systemCapacityKw));
  }

  /** Above zero DC power and with both divisors non-zero, the AC power is
      the delivered power clipped to the inverter capacity. */
  lemma AcClipped(c: PvConfig, dc: real)
    requires c.systemCapacityKw != 0.0 && c.dcAcRatio != 0.0 && dc > 0.0
    ensures AcPower(c, dc) == Kw(Max0(Min(dc * InverterEfficiency(c, dc / c.systemCapacityKw), InverterCapacity(c))))
  {
  }

  /** For a positive capacity, a non-zero ratio and a non-negative rating,
      more DC power never gives less AC power. */
  lemma AcMonotone(c: PvConfig, dc1: real, dc2: real)
    requires c.systemCapacityKw > 0.0 && c.dcAcRatio != 0.0 && c.inverterEfficiencyPct >= 0.0 && dc1 <= dc2
    ensures AcPower(c, dc1).kw <= AcPower(c, dc2).kw
  {
    if dc1 > 0.0 {
      AcClipped(c, dc1);
      AcClipped(c, dc2);
      DeliveredMonotone(c, dc1, dc2);
      ClipMonotone(dc1 * InverterEfficiency(c, dc1 / c.systemCapacityKw), dc2 * InverterEfficiency(c, dc2 / c.systemCapacityKw),
        InverterCapacity(c));
    }
  }

  /** A weather row: the timestamp and the columns the model reads. */
  datatype WeatherRow = WeatherRow(time: int, ghi: real, dni: real, dhi: real, dryBulbC: real, windSpeed: real)

  /** The left-out numerics: `_calculate_sun_position` (zenith and azimuth
      in degrees), the beam plus sky-diffuse plus ground-reflected sum of
      `_calculate_poa_irradiance` for a configuration, GHI, DNI, DHI,
      zenith and azimuth, and `math.exp`. */
  datatype Numerics = Numerics(
    sunPosition: int -> (real, real),
    incidentIrradiance: (PvConfig, real, real, real, real, real) -> real,
    exp: real -> real)

  /** Times strictly increasing, as the weather index is read from the
      file. */
  predicate Increasing(rows: seq<WeatherRow>) {
    forall i, j :: 0 <= i < j < |rows| ==> rows[i].time < rows[j].time
  }

  function Distance(a: int, b: int): nat {
    if a >= b then a - b else b - a
  }

  /** `weather_data.loc[timestamp]`: the first row at the timestamp. */
  function ExactRow(rows: seq<WeatherRow>, ts: int): (r: Option<nat>)
    ensures r.None? <==> forall j :: 0 <= j < |rows| ==> rows[j].time != ts
    ensures r.Some? ==> (r.value < |rows| && rows[r.value].time == ts
      && forall j :: 0 <= j < r.value ==> rows[j].time != ts)
    decreases |rows|
  {
    if rows == [] then None
    else if rows[0].time == ts then Some(0)
    else
      match ExactRow(rows[1..], ts)
      case None => None
      case Some(k) => Some(k + 1)
  }

  /** The row `get_indexer([timestamp], method='nearest')` picks: one
      closest to the timestamp, the last of them on a tie. */
  function NearestRow(rows: seq<WeatherRow>, ts: int): (r: nat)
    requires |rows| > 0
    ensures r < |rows|
    ensures forall j :: 0 <= j < |rows| ==> Distance(rows[r].time, ts) <= Distance(rows[j].time, ts)
    ensures forall j :: r < j < |rows| ==> Distance(rows[r].time, ts) < Distance(rows[j].time, ts)
    decreases |rows|
  {
    if |rows| == 1 then 0
    else
      var pre := rows[..|rows| - 1];
      var k := NearestRow(pre, ts);
      assert forall j :: 0 <= j < |pre| ==> pre[j] == rows[j];
      if Distance(rows[|rows| - 1].time, ts) <= Distance(rows[k].time, ts) then |rows| - 1 else k
  }

  /** The row `get_power_at_timestep` reads: the exact match, or else the
      nearest. */
  function RowFor(rows: seq<WeatherRow>, ts: int): (r: nat)
    requires |rows| > 0
    ensures r < |rows|
  {
    match ExactRow(rows, ts)
    case Some(j) => j
    case None => NearestRow(rows, ts)
  }

  /** On an increasing table the two lookups agree: the row read is always
      a nearest one, and it is the row at the timestamp when there is one. */
  lemma RowForNearest(rows: seq<WeatherRow>, ts: int)
    requires |rows| > 0 && Increasing(rows)
    ensures RowFor(rows, ts) == NearestRow(rows, ts)
    ensures forall j :: 0 <= j < |rows| && rows[j].time == ts ==> RowFor(rows, ts) == j
  {
    var n := NearestRow(rows, ts);
    forall j | 0 <= j < |rows| && rows[j].time == ts ensures n == j {
      assert Distance(rows[n].time, ts) == 0;
      assert rows[n].time == rows[j].time;
    }
  }

  /** `PVState`. */
  datatype PvState = PvState(
    timestamp: int,
    ghi: real,
    dni: real,
    dhi: real,
    ambientTempC: real,
    windSpeed: real,
    poaIrradiance: real,
    cellTemperatureC: real,
    dcPowerKw: real,
    acPowerKw: real)

  /** `get_power_at_timestep(timestamp)` for a configuration and the loaded
      weather (`None` when none was loaded). */
  function PowerAt(c: PvConfig, weather: Option<seq<WeatherRow>>, ts: int, n: Numerics): (r: Outcome<PvState>)
    ensures weather.None? ==> r == Failed(WeatherNotLoaded)
    ensures weather == Some([]) ==> r == Failed(NoWeatherRows)
    ensures r.Ok? ==> r.value.timestamp == ts
  {
    match weather
    case None => Failed(WeatherNotLoaded)
    case Some(rows) =>
      if rows == [] then Failed(NoWeatherRows)
      else
        var w := rows[RowFor(rows, ts)];
        var (zenith, azimuth) := n.sunPosition(ts);
        var poa := PoaIrradiance(zenith, n.incidentIrradiance(c, w.ghi, w.dni, w.dhi, zenith, azimuth));
        var cell := CellTemperature(c, poa, w.dryBulbC, w.windSpeed, n.exp);
        match DcPower(c, poa, cell)
        case DividedByZero => Failed(ZeroDivision)
        case Kw(dc) =>
          match AcPower(c, dc)
          case DividedByZero => Failed(ZeroDivision)
          case Kw(ac) => Ok(PvState(ts, w.ghi, w.dni, w.dhi, w.dryBulbC, w.windSpeed, poa, cell, dc, ac))
  }

  /** A configuration whose divisions are all defined never fails on
      loaded, non-empty weather. */
  lemma PowerAtDefined(c: PvConfig, rows: seq<WeatherRow>, ts: int, n: Numerics)
    requires rows != [] && c.refIrradiance != 0.0 && c.dcAcRatio != 0.0 && c.systemCapacityKw != 0.0
    ensures PowerAt(c, Some(rows), ts, n).Ok?
  {
  }

  /** A computed state reads the weather row of `RowFor`; its irradiance
      and powers are never negative, all three are zero with the sun at or
      below the horizon, and the AC power stays within the inverter
      capacity and, for a positive capacity and non-negative rating, within
      the DC power at the rated efficiency. */
  lemma PowerAtBounds(c: PvConfig, rows: seq<WeatherRow>, ts: int, n: Numerics)
    requires PowerAt(c, Some(rows), ts, n).Ok?
    ensures rows != []
    ensures var s := PowerAt(c, Some(rows), ts, n).value;
      var w := rows[RowFor(rows, ts)];
      && s.ghi == w.ghi && s.dni == w.dni && s.dhi == w.dhi && s.ambientTempC == w.dryBulbC && s.windSpeed == w.windSpeed
      && s.poaIrradiance >= 0.0 && s.dcPowerKw >= 0.0 && s.acPowerKw >= 0.0
      && (n.sunPosition(ts).0 >= 90.0 ==> s.poaIrradiance == 0.0 && s.dcPowerKw == 0.0 && s.acPowerKw == 0.0)
      && (s.dcPowerKw > 0.0 ==> s.acPowerKw <= Max0(InverterCapacity(c)))
      && (c.systemCapacityKw > 0.0 && c.inverterEfficiencyPct >= 0.0 ==>
            s.acPowerKw <= s.dcPowerKw * (c.inverterEfficiencyPct / 100.0))
  {
    var s := PowerAt(c, Some(rows), ts, n).value;
    if c.systemCapacityKw > 0.0 && c.inverterEfficiencyPct >= 0.0 && s.dcPowerKw > 0.0 {
      AcWithinRating(c, s.dcPowerKw);
    }
  }

  /** The timestamps of the table, in order: its index. */
  function Times(rows: seq<WeatherRow>): (r: seq<int>)
    ensures |r| == |rows| && forall j :: 0 <= j < |rows| ==> r[j] == rows[j].time
  {
    seq(|rows|, j requires 0 <= j < |rows| => rows[j].time)
  }

  /** The timestamps of the rows in `[lo, hi]`, in table order: the mask of
      `simulate`. */
  function InRange(rows: seq<WeatherRow>, lo: int, hi: int): (r: seq<int>)
    ensures |r| <= |rows|
    ensures forall t :: t in r <==> t in Times(rows) && lo <= t <= hi
    decreases |rows|
  {
    if rows == [] then []
    else
      var pre := rows[..|rows| - 1];
      var last := rows[|rows| - 1];
      var r := InRange(pre, lo, hi);
      assert Times(rows) == Times(pre) + [last.time];
      if lo <= last.time <= hi then r + [last.time] else r
  }

    /** The outcomes in order, stopping at the first failure: the list of
      values when there is none. */
  function Gather<T>(outs: seq<Outcome<T>>): (r: Outcome<seq<T>>)
    ensures r.Ok? <==> forall k :: 0 <= k < |outs| ==> outs[k].Ok?
    ensures r.Ok? ==> |r.value| == |outs| && forall k :: 0 <= k < |outs| ==> outs[k] == Ok(r.value[k])
    decreases |outs|
  {
    if outs == [] then Ok([])
    else
      var pre := outs[..|outs| - 1];
      var r := Gather(pre);
      assert forall k :: 0 <= k < |pre| ==> pre[k] == outs[k];
      if r.Failed? then r
      else
        match outs[|outs| - 1]
        case Failed(e) => Failed(e)
        case Ok(s) => Ok(r.value + [s])
  }

  /** Outcome `i` gathered after the ones before it. */
  lemma GatherNext<T>(outs: seq<Outcome<T>>, i: nat)
    requires i < |outs|
    ensures Gather(outs[..i + 1]) ==
      (var r := Gather(outs[..i]);
       if r.Failed? then r
       else match outs[i]
            case Failed(e) => Failed(e)
            case Ok(s) => Ok(r.value + [s]))
  {
    assert outs[..i + 1][..i] == outs[..i];
  }

  /** Once an outcome fails, the later ones keep the failure. */
  lemma {:induction false} GatherKeepsFailure<T>(outs: seq<Outcome<T>>, m: nat)
    requires m <= |outs| && Gather(outs[..m]).Failed?
    ensures Gather(outs) == Gather(outs[..m])
    decreases |outs| - m
  {
    if m < |outs| {
      GatherNext(outs, m);
      GatherKeepsFailure(outs, m + 1);
    } else {
      assert outs[..m] == outs;
    }
  }

  /** The outcome of `get_power_at_timestep` for each timestamp. */
  function Outcomes(c: PvConfig, rows: seq<WeatherRow>, times: seq<int>, n: Numerics): (r: seq<Outcome<PvState>>)
    ensures |r| == |times| && forall k :: 0 <= k < |times| ==> r[k] == PowerAt(c, Some(rows), times[k], n)
  {
    seq(|times|, k requires 0 <= k < |times| => PowerAt(c, Some(rows), times[k], n))
  }

  /** The states of the timestamps in order, or the first failure. */
  function States(c: PvConfig, rows: seq<WeatherRow>, times: seq<int>, n: Numerics): (r: Outcome<seq<PvState>>)
    ensures r.Ok? <==> forall k :: 0 <= k < |times| ==> PowerAt(c, Some(rows), times[k], n).Ok?
    ensures r.Ok? ==> |r.value| == |times| && forall k :: 0 <= k < |times| ==> PowerAt(c, Some(rows), times[k], n) == Ok(r.value[k])
  {
    Gather(Outcomes(c, rows, times, n))
  }

  /** `simulate(start, end)` for a configuration and the loaded weather:
      the range defaults to the first and last timestamps; the states of
      the timestamps in range, or the first failure, or an error when the
      range selects none. */
  function SimulateSpec(c: PvConfig, weather: Option<seq<WeatherRow>>, start: Option<int>, end: Option<int>, n: Numerics)
    : Outcome<seq<PvState>>
  {
    match weather
    case None => Failed(WeatherNotLoaded)
    case Some(rows) =>
      if rows == [] then Failed(NoWeatherRows)
      else
        var times := InRange(rows, start.GetOr(rows[0].time), end.GetOr(rows[|rows| - 1].time));
        match States(c, rows, times, n)
        case Failed(e) => Failed(e)
        case Ok(states) => if states == [] then Failed(EmptyRange) else Ok(states)
  }

  /** The errors of `simulate`: no weather, an empty table, an empty range;
      with the divisions defined these are the only ones, and a success has
      one state per timestamp in range, in order. */
  lemma SimulateOutcomes(c: PvConfig, weather: Option<seq<WeatherRow>>, start: Option<int>, end: Option<int>, n: Numerics)
    ensures weather.None? ==> SimulateSpec(c, weather, start, end, n) == Failed(WeatherNotLoaded)
    ensures weather == Some([]) ==> SimulateSpec(c, weather, start, end, n) == Failed(NoWeatherRows)
    ensures weather.Some? && weather.value != [] && c.refIrradiance != 0.0 && c.dcAcRatio != 0.0 && c.systemCapacityKw != 0.0 ==>
      var rows := weather.value;
      var times := InRange(rows, start.GetOr(rows[0].time), end.GetOr(rows[|rows| - 1].time));
      var r := SimulateSpec(c, weather, start, end, n);
      && (r == Failed(EmptyRange) <==> times == [])
      && (r.Ok? <==> times != [])
      && (r.Ok? ==> |r.value| == |times| && forall k :: 0 <= k < |times| ==> r.value[k].timestamp == times[k])
  {
    if weather.Some? && weather.value != [] && c.refIrradiance != 0.0 && c.dcAcRatio != 0.0 && c.systemCapacityKw != 0.0 {
      var rows := weather.value;
      var times := InRange(rows, start.GetOr(rows[0].time), end.GetOr(rows[|rows| - 1].time));
      forall k | 0 <= k < |times| ensures PowerAt(c, Some(rows), times[k], n).Ok? {
        PowerAtDefined(c, rows, times[k], n);
      }
    }
  }

  /** With no range given the whole table is simulated. */
  lemma SimulateWholeTable(rows: seq<WeatherRow>)
    requires rows != [] && Increasing(rows)
    ensures InRange(rows, rows[0].time, rows[|rows| - 1].time) == Times(rows)
  {
    InRangeAll(rows, rows[0].time, rows[|rows| - 1].time);
  }

  /** Every row in range: all timestamps, in order. */
  lemma {:induction false} InRangeAll(rows: seq<WeatherRow>, lo: int, hi: int)
    requires forall j :: 0 <= j < |rows| ==> lo <= rows[j].time <= hi
    ensures InRange(rows, lo, hi) == Times(rows)
    decreases |rows|
  {
    if rows != [] {
      var pre := rows[..|rows| - 1];
      InRangeAll(pre, lo, hi);
      assert Times(rows) == Times(pre) + [rows[|rows| - 1].time];
    }
  }

  /** `SolarPVModel`. */
  class SolarPvModel {
    var config: PvConfig
    var weather: Option<seq<WeatherRow>>
    var latitude: Option<real>
    var results: Option<seq<PvState>>

    /** Loaded weather is in time order. */
    ghost predicate Valid()
      reads this
    {
      weather.Some? ==> Increasing(weather.value)
    }

    /** `SolarPVModel(config)`: the given configuration or the defaults, and
        nothing loaded or simulated. */
    constructor(cfg: Option<PvConfig>)
      ensures Valid()
      ensures config == cfg.GetOr(DefaultConfig)
      ensures weather.None? && latitude.None? && results.None?
    {
      config := cfg.GetOr(DefaultConfig);
      weather := None;
      latitude := None;
      results := None;
    }

    /** `load_weather`: the weather rows and the location's latitude from
        the reader; a tilt of exactly 20.0 (the default value, or one given
        as 20.0) becomes the latitude's magnitude. */
    method LoadWeather(rows: seq<WeatherRow>, lat: real) returns (location: real)
      requires Increasing(rows)
      modifies this
      ensures Valid()
      ensures weather == Some(rows) && latitude == Some(lat) && location == lat && results == old(results)
      ensures old(config).tiltDeg == 20.0 ==> config == old(config).(tiltDeg := if lat >= 0.0 then lat else -lat)
      ensures old(config).tiltDeg != 20.0 ==> config == old(config)
    {
      weather := Some(rows);
      latitude := Some(lat);
      if config.tiltDeg == 20.0 {
        config := config.(tiltDeg := if lat >= 0.0 then lat else -lat);
      }
      location := lat;
    }

    /** `get_power_at_timestep(timestamp)`. */
    method GetPowerAtTimestep(ts: int, n: Numerics) returns (r: Outcome<PvState>)
      ensures r == PowerAt(config, weather, ts, n)
    {
      if weather.None? {
        return Failed(WeatherNotLoaded);
      }
      var rows := weather.value;
      if rows == [] {
        return Failed(NoWeatherRows);
      }
      var w := rows[RowFor(rows, ts)];
      var (zenith, azimuth) := n.sunPosition(ts);
      var poa := PoaIrradiance(zenith, n.incidentIrradiance(config, w.ghi, w.dni, w.dhi, zenith, azimuth));
      var cell := CellTemperature(config, poa, w.dryBulbC, w.windSpeed, n.exp);
      var dc := DcPower(config, poa, cell);
      if dc.DividedByZero? {
        return Failed(ZeroDivision);
      }
      var ac := AcPower(config, dc.kw);
      if ac.DividedByZero? {
        return Failed(ZeroDivision);
      }
      return Ok(PvState(ts, w.ghi, w.dni, w.dhi, w.dryBulbC, w.windSpeed, poa, cell, dc.kw, ac.kw));
    }

    /** `simulate(start, end)`: the results are kept on success. */
    method Simulate(start: Option<int>, end: Option<int>, n: Numerics) returns (r: Outcome<seq<PvState>>)
      modifies this
      ensures r == SimulateSpec(config, weather, start, end, n)
      ensures config == old(config) && weather == old(weather) && latitude == old(latitude)
      ensures results == (if r.Ok? then Some(r.value) else old(results))
    {
      if weather.None? {
        return Failed(WeatherNotLoaded);
      }
      var rows := weather.value;
      if rows == [] {
        return Failed(NoWeatherRows);
      }
      var lo := if start.Some? then start.value else rows[0].time;
      var hi := if end.Some? then end.value else rows[|rows| - 1].time;
      var times := InRange(rows, lo, hi);
      var states := RunRange(rows, times, n);
      if states.Failed? {
        return states;
      }
      if states.value == [] {
        return Failed(EmptyRange);
      }
      results := Some(states.value);
      return states;
    }

    /** The loop of `simulate`: one state per timestamp, stopping at the
        first failure. */
    method RunRange(rows: seq<WeatherRow>, times: seq<int>, n: Numerics) returns (r: Outcome<seq<PvState>>)
      requires weather == Some(rows)
      ensures r == States(config, rows, times, n)
    {
      ghost var outs := Outcomes(config, rows, times, n);
      var acc: seq<PvState> := [];
      assert outs[..0] == [];
      for i := 0 to |times|
        invariant Gather(outs[..i]) == Ok(acc)
      {
        GatherNext(outs, i);
        var s := GetPowerAtTimestep(times[i], n);
        if s.Failed? {
          GatherKeepsFailure(outs, i + 1);
          return Failed(s.error);
        }
        acc := acc + [s.value];
      }
      assert outs[..|times|] == outs;
      return Ok(acc);
    }
  }
}
