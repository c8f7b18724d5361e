/** The configuration constants and their two helpers: a section lookup by
    name that falls back to an empty dictionary, and a validator that checks
    the acoustic array's total power and the laser's average power against the
    safety limits. */
module Config {
  import opened Errors
  import opened Options

  /** A configuration entry. Python's bool is an int, so a flag takes part in
      arithmetic and comparisons as 0 or 1. */
  datatype Setting = Number(x: real) | Flag(b: bool) | Text(s: string)

  type Section = map<string, Setting>

  /** The numeric reading of an entry, absent for text. */
  function AsNumber(v: Setting): (r: Option<real>)
    ensures r.None? <==> v.Text?
    ensures v.Number? ==> r == Some(v.x)
    ensures v.Flag? ==> r == Some(if v.b then 1.0 else 0.0)
  {
    match v
    case Number(x) => Some(x)
    case Flag(b) => Some(if b then 1.0 else 0.0)
    case Text(_) => None
  }

  const AcousticConfig: Section := map[
    "array_type" := Text("fol"),
    "n_emitters" := Number(19.0),
    "frequency" := Number(40000.0),
    "power_per_emitter" := Number(40.0),
    "emitter_diameter" := Number(0.01),
    "supply_voltage" := Number(48.0),
    "supply_current_max" := Number(20.0),
    "pwm_frequency" := Number(40000.0),
    "phase_control" := Flag(false)
  ]

  const LaserConfig: Section := map[
    "wavelength" := Number(0.000000445),
    "power_average" := Number(5.0),
    "power_peak" := Number(50.0),
    "pulse_frequency" := Number(1000.0),
    "duty_cycle" := Number(0.10),
    "focal_length" := Number(0.05),
    "spot_diameter" := Number(0.001),
    "work_distance" := Number(0.05),
    "supply_voltage" := Number(12.0),
    "supply_current_max" := Number(5.0)
  ]

  const PlasmaConfig: Section := map[
    "power_rating" := Number(85.0),
    "arc_voltage" := Number(100.0),
    "arc_current" := Number(0.85),
    "gas_type" := Text("air"),
    "flow_rate" := Number(3.0),
    "ignition_delay" := Number(0.1),
    "min_temperature" := Number(800.0)
  ]

  const MaterialConfig: Section := map[
    "density" := Number(2700.0),
    "specific_heat" := Number(800.0),
    "thermal_conductivity" := Number(3.0),
    "melting_point" := Number(1500.0),
    "vaporization_point" := Number(3000.0),
    "youngs_modulus" := Number(50000000000.0),
    "poissons_ratio" := Number(0.25),
    "thermal_expansion" := Number(0.000008),
    "absorptivity_base" := Number(0.15),
    "emissivity" := Number(0.90),
    "acoustic_velocity" := Number(5000.0),
    "acoustic_impedance" := Number(13500000.0),
    "damping_factor" := Number(0.20),
    "compressive_strength" := Number(200000000.0),
    "tensile_strength" := Number(15000000.0),
    "fracture_threshold" := Number(100000000.0),
    "specific_energy" := Number(7360000000.0)
  ]

  const ControlConfig: Section := map[
    "controller" := Text("arduino_mega"),
    "baud_rate" := Number(115200.0),
    "watchdog_timeout" := Number(1.0),
    "acoustic_ramp_time" := Number(2.0),
    "laser_ramp_time" := Number(1.0),
    "plasma_ignition_wait" := Number(0.1),
    "shutdown_delay" := Number(2.0),
    "temperature_poll_rate" := Number(10.0),
    "power_poll_rate" := Number(100.0),
    "depth_poll_rate" := Number(1.0)
  ]

  const SensorConfig: Section := map[
    "thermocouple_type" := Text("K"),
    "current_scale" := Number(10.0),
    "voltage_scale" := Number(10.0),
    "thermal_camera_enabled" := Flag(false),
    "microphone_enabled" := Flag(false),
    "laser_power_meter_enabled" := Flag(false)
  ]

  const SimulationConfig: Section := map[
    "time_step" := Number(0.001),
    "duration" := Number(2.0),
    "grid_size" := Number(100.0),
    "domain_size" := Number(0.1),
    "save_interval" := Number(0.01),
    "plot_interval" := Number(0.1)
  ]

  const SafetyLimits: Section := map[
    "max_surface_temp" := Number(1600.0),
    "max_component_temp" := Number(80.0),
    "max_acoustic_power" := Number(850.0),
    "max_laser_power" := Number(6.0),
    "max_plasma_power" := Number(100.0),
    "max_total_power" := Number(1000.0),
    "max_48v_current" := Number(22.0),
    "max_12v_current" := Number(11.0),
    "max_continuous_operation" := Number(600.0),
    "min_cooldown_time" := Number(120.0),
    "max_acoustic_spl" := Number(130.0),
    "max_exposure_time" := Number(900.0)
  ]

  predicate KnownSection(name: string)
  {
    || name == "acoustic" || name == "laser" || name == "plasma" || name == "material"
    || name == "control" || name == "sensor" || name == "simulation" || name == "safety"
  }

  /** `get_config`: the named section, or an empty dictionary for any other
      name; it never fails. */
  function GetConfig(section: string): (c: Section)
    ensures c != map[] <==> KnownSection(section)
    ensures section == "acoustic" ==> c == AcousticConfig
    ensures section == "laser" ==> c == LaserConfig
    ensures section == "plasma" ==> c == PlasmaConfig
    ensures section == "material" ==> c == MaterialConfig
    ensures section == "control" ==> c == ControlConfig
    ensures section == "sensor" ==> c == SensorConfig
    ensures section == "simulation" ==> c == SimulationConfig
    ensures section == "safety" ==> c == SafetyLimits
  {
    if section == "acoustic" then assert "phase_control" in AcousticConfig; AcousticConfig
    else if section == "laser" then assert "supply_current_max" in LaserConfig; LaserConfig
    else if section == "plasma" then assert "min_temperature" in PlasmaConfig; PlasmaConfig
    else if section == "material" then assert "specific_energy" in MaterialConfig; MaterialConfig
    else if section == "control" then assert "depth_poll_rate" in ControlConfig; ControlConfig
    else if section == "sensor" then assert "laser_power_meter_enabled" in SensorConfig; SensorConfig
    else if section == "simulation" then assert "plot_interval" in SimulationConfig; SimulationConfig
    else if section == "safety" then assert "max_exposure_time" in SafetyLimits; SafetyLimits
    else map[]
  }

  /** A problem `validate_config` reports. The acoustic one carries the total
      it found; the source formats both into messages. */
  datatype Issue = AcousticPowerExceeds(total: real) | LaserPowerExceeds

  /** A numeric operand: anything but text; text makes the arithmetic or the
      comparison raise a TypeError. */
  function Operand(v: Setting): (r: Result<real>)
    ensures r.Failure? <==> v.Text?
    ensures r.Failure? ==> r.error == TypeError
    ensures v.Number? ==> r == Success(v.x)
  {
    match AsNumber(v)
    case Some(x) => Success(x)
    case None => Failure(TypeError)
  }

  /** The settings `validate_config` reads, as numbers, when all are present
      and numeric. */
  datatype Readings = Readings(perEmitter: real, emitters: real, maxAcoustic: real,
                               average: real, maxLaser: real)

  /** The acoustic array's total power: the power per emitter times the count. */
  function TotalPower(perEmitter: real, emitters: real): real
  {
    perEmitter * emitters
  }

  /** `validate_config` over given sections: reads the entries in the source's
      order, so the first missing or non-numeric entry decides the failure;
      both supply voltages are read but never compared. */
  function ValidateConfigOf(acoustic: Section, laser: Section, safety: Section): (r: Result<seq<Issue>>)
    ensures r.Success? ==> |r.value| <= 2
    ensures r.Success? ==> Readable(acoustic, laser, safety)
    ensures Readable(acoustic, laser, safety) ==> r.Success?
    ensures "power_per_emitter" !in acoustic ==> r == Failure(KeyError("power_per_emitter"))
    ensures r.Failure? ==> r.error.KeyError? || r.error == TypeError
  {
    var perEmitter :- Subscript(acoustic, "power_per_emitter");
    var emitters :- Subscript(acoustic, "n_emitters");
    var p :- Operand(perEmitter);
    var n :- Operand(emitters);
    var total := TotalPower(p, n);
    var maxAcoustic :- Subscript(safety, "max_acoustic_power");
    var limitA :- Operand(maxAcoustic);
    var acousticIssues := if total > limitA then [AcousticPowerExceeds(total)] else [];
    var average :- Subscript(laser, "power_average");
    var maxLaser :- Subscript(safety, "max_laser_power");
    var avg :- Operand(average);
    var limitL :- Operand(maxLaser);
    var laserIssues := if avg > limitL then [LaserPowerExceeds] else [];
    var _ :- Subscript(acoustic, "supply_voltage");
    var _ :- Subscript(laser, "supply_voltage");
    Success(acousticIssues + laserIssues)
  }

  /** Every entry the validator reads is present, and the compared ones are numeric. */
  predicate Readable(acoustic: Section, laser: Section, safety: Section)
  {
    && "power_per_emitter" in acoustic && !acoustic["power_per_emitter"].Text?
    && "n_emitters" in acoustic && !acoustic["n_emitters"].Text?
    && "max_acoustic_power" in safety && !safety["max_acoustic_power"].Text?
    && "power_average" in laser && !laser["power_average"].Text?
    && "max_laser_power" in safety && !safety["max_laser_power"].Text?
    && "supply_voltage" in acoustic
    && "supply_voltage" in laser
  }

  /** The numbers the validator compares, for readable sections. */
  function ReadingsOf(acoustic: Section, laser: Section, safety: Section): Readings
    requires Readable(acoustic, laser, safety)
  {
    Readings(
      AsNumber(acoustic["power_per_emitter"]).value,
      AsNumber(acoustic["n_emitters"]).value,
      AsNumber(safety["max_acoustic_power"]).value,
      AsNumber(laser["power_average"]).value,
      AsNumber(safety["max_laser_power"]).value)
  }

  /** The two rules, both ways: the acoustic issue is reported, with the total,
      exactly when the array's total power exceeds its limit, the laser issue
      exactly when the average power exceeds its limit, and nothing else is
      ever reported. */
  lemma ValidateConfigRules(acoustic: Section, laser: Section, safety: Section)
    requires Readable(acoustic, laser, safety)
    ensures var rd := ReadingsOf(acoustic, laser, safety);
            var issues := ValidateConfigOf(acoustic, laser, safety).value;
            && ((AcousticPowerExceeds(TotalPower(rd.perEmitter, rd.emitters)) in issues)
                <==> TotalPower(rd.perEmitter, rd.emitters) > rd.maxAcoustic)
            && (LaserPowerExceeds in issues <==> rd.average > rd.maxLaser)
            && (forall i :: 0 <= i < |issues| ==>
                  issues[i] == AcousticPowerExceeds(TotalPower(rd.perEmitter, rd.emitters)) || issues[i] == LaserPowerExceeds)
  {
    ValidateConfigReadable(acoustic, laser, safety);
    IssuesOfRules(ReadingsOf(acoustic, laser, safety));
  }

  /** On readable sections the validator succeeds with the issues its
      readings call for. */
  lemma ValidateConfigReadable(acoustic: Section, laser: Section, safety: Section)
    requires Readable(acoustic, laser, safety)
    ensures ValidateConfigOf(acoustic, laser, safety) == Success(IssuesOf(ReadingsOf(acoustic, laser, safety)))
  {
    var rd := ReadingsOf(acoustic, laser, safety);
    assert Operand(acoustic["power_per_emitter"]) == Success(rd.perEmitter);
    assert Operand(acoustic["n_emitters"]) == Success(rd.emitters);
    assert Operand(safety["max_acoustic_power"]) == Success(rd.maxAcoustic);
    assert Operand(laser["power_average"]) == Success(rd.average);
    assert Operand(safety["max_laser_power"]) == Success(rd.maxLaser);
  }

  /** The issues the validator reports for given readings, in its order. */
  function IssuesOf(rd: Readings): seq<Issue>
  {
    var total := TotalPower(rd.perEmitter, rd.emitters);
    (if total > rd.maxAcoustic then [AcousticPowerExceeds(total)] else [])
      + (if rd.average > rd.maxLaser then [LaserPowerExceeds] else [])
  }

  /** The issue list reports each rule exactly when its limit is exceeded, and
      nothing else. */
  lemma IssuesOfRules(rd: Readings)
    ensures var issues := IssuesOf(rd);
            && ((AcousticPowerExceeds(TotalPower(rd.perEmitter, rd.emitters)) in issues)
                <==> TotalPower(rd.perEmitter, rd.emitters) > rd.maxAcoustic)
            && (LaserPowerExceeds in issues <==> rd.average > rd.maxLaser)
            && (forall i :: 0 <= i < |issues| ==>
                  issues[i] == AcousticPowerExceeds(TotalPower(rd.perEmitter, rd.emitters)) || issues[i] == LaserPowerExceeds)
  {
    var total := TotalPower(rd.perEmitter, rd.emitters);
    var acousticIssues := if total > rd.maxAcoustic then [AcousticPowerExceeds(total)] else [];
    var laserIssues := if rd.average > rd.maxLaser then [LaserPowerExceeds] else [];
    var issues := acousticIssues + laserIssues;
    assert IssuesOf(rd) == issues;
    if total > rd.maxAcoustic {
      assert issues[0] == AcousticPowerExceeds(total);
    }
    if rd.average > rd.maxLaser {
      assert issues[|issues| - 1] == LaserPowerExceeds;
    }
  }

  /** Raising the limits never adds an issue. */
  lemma ValidateConfigLimitsAntitone(acoustic: Section, laser: Section, safety: Section, looser: Section)
    requires Readable(acoustic, laser, safety) && Readable(acoustic, laser, looser)
    requires ReadingsOf(acoustic, laser, safety).maxAcoustic <= ReadingsOf(acoustic, laser, looser).maxAcoustic
    requires ReadingsOf(acoustic, laser, safety).maxLaser <= ReadingsOf(acoustic, laser, looser).maxLaser
    ensures forall i :: 0 <= i < |ValidateConfigOf(acoustic, laser, looser).value| ==>
              ValidateConfigOf(acoustic, laser, looser).value[i] in ValidateConfigOf(acoustic, laser, safety).value
  {
    ValidateConfigRules(acoustic, laser, safety);
    ValidateConfigRules(acoustic, laser, looser);
  }

  /** `validate_config` on the shipped constants: 19 emitters at 40 W give
      760 W against an 850 W limit, and 5 W average against a 6 W limit, so
      nothing is reported. */
  function ValidateConfig(): (r: Result<seq<Issue>>)
    ensures r == Success([])
  {
    ShippedReadings();
    ValidateConfigReadable(AcousticConfig, LaserConfig, SafetyLimits);
    ValidateConfigOf(AcousticConfig, LaserConfig, SafetyLimits)
  }

  /** The shipped sections are readable and carry 40 W per emitter, 19
      emitters, an 850 W acoustic limit, 5 W average laser power and a 6 W
      laser limit. */
  lemma ShippedReadings()
    ensures Readable(AcousticConfig, LaserConfig, SafetyLimits)
    ensures ReadingsOf(AcousticConfig, LaserConfig, SafetyLimits) == Readings(40.0, 19.0, 850.0, 5.0, 6.0)
  { }

  /** The sections `get_config` hands out for "acoustic", "laser" and "safety"
      hold every entry the validator reads, numeric where it compares them, and
      validating them is validating the shipped constants. */
  lemma GetConfigFeedsValidator()
    ensures Readable(GetConfig("acoustic"), GetConfig("laser"), GetConfig("safety"))
    ensures ValidateConfigOf(GetConfig("acoustic"), GetConfig("laser"), GetConfig("safety")) == ValidateConfig()
  {
    var _ := ValidateConfig();
  }
}
