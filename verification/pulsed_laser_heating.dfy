/** The pulsed laser heating model: a material looked up by name, the derived
    duty cycle, peak power and thermal diffusivity, an absorptivity raised by
    acoustic damage, the temperature rise of one pulse, and a pulse train in
    which the excess over ambient decays geometrically between pulses and
    approaches a closed-form steady state. */
module PulsedLaserHeating {
  import opened Numeric
  import opened Errors

  /** One row of the model's own material table. */
  datatype Material = Material(
    rho: real,               // kg/m^3
    specificHeat: real,      // J/(kg K)
    conductivity: real,      // W/(m K)
    absorptivity: real,      // at 445 nm
    meltingPoint: real,      // K
    vaporizationPoint: real) // K

  const Materials: map<string, Material> := map[
    "granite"  := Material(2700.0, 800.0, 2.0, 0.15, 1500.0, 2800.0),
    "basalt"   := Material(2900.0, 840.0, 1.7, 0.18, 1450.0, 2700.0),
    "concrete" := Material(2400.0, 880.0, 1.4, 0.20, 1400.0, 2500.0)
  ]

  // Laser and beam defaults the constructor assigns
  const AveragePower: real := 5.0          // W
  const PulseFrequency: real := 1000.0     // Hz
  const PulseDuration: real := 0.0001      // s
  const SpotRadius: real := 0.0005         // m
  const PenetrationDepth: real := 0.0001   // m

  /** Heated volume under the spot: pi r^2 d. */
  const HeatedVolume: real := Pi * SpotRadius * SpotRadius * PenetrationDepth

  /** Time between the end of one pulse and the start of the next. */
  const InterpulseGap: real := 1.0 / PulseFrequency - PulseDuration

  predicate Physical(m: Material)
  {
    0.0 < m.rho && 0.0 < m.specificHeat && 0.0 < m.conductivity && 0.0 <= m.absorptivity
  }

  lemma MaterialsPhysical()
    ensures forall name :: name in Materials ==> Physical(Materials[name])
  {
  }

  /** The model object: its material row plus the derived and mutable fields. */
  datatype Heater = Heater(
    mat: Material,
    diffusivity: real,   // alpha_th = k / (rho c_p)
    duty: real,          // f_pulse t_pulse
    peakPower: real,     // P_avg / duty
    damage: real,        // f_damage, clamped to [0, 1]
    absorptivity: real)  // alpha_eff

  /** What every heater built by the constructor satisfies. */
  predicate Valid(h: Heater)
  {
    && Physical(h.mat)
    && h.diffusivity * (h.mat.rho * h.mat.specificHeat) == h.mat.conductivity
    && h.duty == PulseFrequency * PulseDuration
    && h.peakPower * h.duty == AveragePower
    && 0.0 <= h.damage <= 1.0
  }

  /** The constructor: look the material up (a KeyError on an unknown name) and
      derive the diffusivity, duty cycle and peak power. */
  function New(name: string := "granite"): (r: Result<Heater>)
    ensures r.Failure? <==> name !in Materials
    ensures r.Failure? ==> r.error == KeyError(name)
    ensures r.Success? ==>
              && Valid(r.value)
              && r.value.mat == Materials[name]
              && r.value.damage == 0.0
              && r.value.absorptivity == Materials[name].absorptivity
  {
    if name !in Materials then Failure(KeyError(name))
    else
      var m := Materials[name];
      MaterialsPhysical();
      var heatCapacity := m.rho * m.specificHeat;
      MulPositive(m.rho, m.specificHeat);
      var duty := PulseFrequency * PulseDuration;
      assert m.conductivity / heatCapacity * heatCapacity == m.conductivity;
      Success(Heater(m, m.conductivity / heatCapacity, duty, AveragePower / duty, 0.0, m.absorptivity))
  }

  /** `set_acoustic_damage`: clamp the damage to [0, 1] and recompute the
      absorptivity from the material's base value. */
  function SetAcousticDamage(h: Heater, f: real, beta: real := 3.0): (h': Heater)
    ensures 0.0 <= h'.damage <= 1.0
    ensures 0.0 <= f <= 1.0 ==> h'.damage == f
    ensures f < 0.0 ==> h'.damage == 0.0
    ensures 1.0 < f ==> h'.damage == 1.0
    ensures h'.absorptivity == h.mat.absorptivity * (1.0 + beta * h'.damage)
    ensures h'.mat == h.mat && h'.diffusivity == h.diffusivity
    ensures h'.duty == h.duty && h'.peakPower == h.peakPower
    ensures Valid(h) ==> Valid(h')
  {
    var clamped := Min(1.0, Max(0.0, f));
    h.(damage := clamped, absorptivity := h.mat.absorptivity * (1.0 + beta * clamped))
  }

  /** A base value `a` scaled by 1 + beta d for a fraction d in [0, 1] lies
      between `a` and (1 + beta) a. */
  lemma EnhancementBetween(a: real, beta: real, d: real)
    requires 0.0 <= a && 0.0 <= beta && 0.0 <= d <= 1.0
    ensures a <= a * (1.0 + beta * d) <= a * (1.0 + beta)
  {
    var g := beta * d;
    MulNonNegative(beta, d);
    MulMonotone(d, 1.0, beta);
    assert 0.0 <= g;
    assert g <= beta;
    MulMonotone(1.0, 1.0 + g, a);
    MulMonotone(1.0 + g, 1.0 + beta, a);
  }

  /** For a non-negative coupling factor the absorptivity lies between the base
      value and (1 + beta) times it. */
  lemma SetAcousticDamageBounds(h: Heater, f: real, beta: real)
    requires 0.0 <= h.mat.absorptivity && 0.0 <= beta
    ensures var a := SetAcousticDamage(h, f, beta).absorptivity;
            h.mat.absorptivity <= a <= h.mat.absorptivity * (1.0 + beta)
  {
    var h' := SetAcousticDamage(h, f, beta);
    EnhancementBetween(h.mat.absorptivity, beta, h'.damage);
    assert h'.absorptivity == h.mat.absorptivity * (1.0 + beta * h'.damage);
  }

  /** For a non-negative coupling factor more damage never lowers the absorptivity. */
  lemma SetAcousticDamageMonotone(h: Heater, f1: real, f2: real, beta: real)
    requires 0.0 <= h.mat.absorptivity && 0.0 <= beta
    requires f1 <= f2
    ensures SetAcousticDamage(h, f1, beta).absorptivity <= SetAcousticDamage(h, f2, beta).absorptivity
  {
    var a := h.mat.absorptivity;
    var d1, d2 := SetAcousticDamage(h, f1, beta).damage, SetAcousticDamage(h, f2, beta).damage;
    assert d1 <= d2;
    MulMonotone(d1, d2, beta);
    assert beta * d1 <= beta * d2;
    MulMonotone(1.0 + beta * d1, 1.0 + beta * d2, a);
  }

  /** The absorptivity is recomputed from the base value, not the previous one:
      the last call wins. */
  lemma SetAcousticDamageLastWins(h: Heater, f1: real, b1: real, f2: real, b2: real)
    ensures SetAcousticDamage(SetAcousticDamage(h, f1, b1), f2, b2) == SetAcousticDamage(h, f2, b2)
  {
  }

  /** Diffusion time across the spot radius: r^2 / (4 alpha_th). */
  function ThermalTimeConstant(h: Heater): (tau: real)
    requires Valid(h)
    ensures 0.0 < tau
    ensures tau * (4.0 * h.diffusivity) == SpotRadius * SpotRadius
  {
    var heatCapacity := h.mat.rho * h.mat.specificHeat;
    MulPositive(h.mat.rho, h.mat.specificHeat);
    FactorPositive(h.diffusivity, heatCapacity, h.mat.conductivity);
    var d := 4.0 * h.diffusivity;
    var r2 := SpotRadius * SpotRadius;
    assert r2 / d * d == r2;
    DivPositive(r2, d);
    r2 / d
  }

  /** Temperature rise from one pulse: the absorbed pulse energy over the heat
      capacity of the heated volume. */
  function SinglePulseHeating(h: Heater): (dT: real)
    requires Valid(h)
    ensures dT * (h.mat.rho * h.mat.specificHeat * HeatedVolume)
              == h.absorptivity * h.peakPower * PulseDuration
    ensures 0.0 <= h.absorptivity ==> 0.0 <= dT
  {
    var energy := h.absorptivity * h.peakPower * PulseDuration;
    var capacity := h.mat.rho * h.mat.specificHeat * HeatedVolume;
    MulPositive(h.mat.rho, h.mat.specificHeat);
    VolumePositive();
    MulPositive(h.mat.rho * h.mat.specificHeat, HeatedVolume);
    assert energy / capacity * capacity == energy;
    PulseEnergyNonNegative(h);
    DivNonNegative(energy, capacity);
    energy / capacity
  }

  /** A non-negative absorptivity absorbs a non-negative pulse energy. */
  lemma PulseEnergyNonNegative(h: Heater)
    requires Valid(h)
    ensures 0.0 <= h.absorptivity ==> 0.0 <= h.absorptivity * h.peakPower * PulseDuration
  {
    if 0.0 <= h.absorptivity {
      PeakPowerPositive(h);
      MulNonNegative(h.absorptivity, h.peakPower);
      MulNonNegative(h.absorptivity * h.peakPower, PulseDuration);
    }
  }

  lemma VolumePositive()
    ensures 0.0 < HeatedVolume
  {
    MulPositive(Pi, SpotRadius);
    MulPositive(Pi * SpotRadius, SpotRadius);
    MulPositive(Pi * SpotRadius * SpotRadius, PenetrationDepth);
  }

  lemma PeakPowerPositive(h: Heater)
    requires Valid(h)
    ensures 0.0 < h.peakPower
  {
    FactorPositive(h.peakPower, h.duty, AveragePower);
  }

  /** The pulse rise scales linearly with the absorptivity. */
  lemma SinglePulseHeatingLinear(h: Heater, c: real)
    requires Valid(h)
    ensures SinglePulseHeating(h.(absorptivity := c * h.absorptivity)) == c * SinglePulseHeating(h)
  {
    var capacity := h.mat.rho * h.mat.specificHeat * HeatedVolume;
    var e := h.absorptivity * h.peakPower * PulseDuration;
    assert (c * h.absorptivity) * h.peakPower * PulseDuration == c * e;
    assert c * e / capacity == c * (e / capacity);
  }

  /** Fraction of the excess temperature left after the gap between pulses. */
  function CoolingFactor(exp: real -> real, h: Heater): (beta: real)
    requires ExpLaws(exp) && Valid(h)
    ensures 0.0 < beta < 1.0
  {
    var tau := ThermalTimeConstant(h);
    assert 0.0 < InterpulseGap;
    DivPositive(InterpulseGap, tau);
    ExpOfNegative(exp, -InterpulseGap / tau);
    exp(-InterpulseGap / tau)
  }

  /** `steady_state_temperature`: the triple (T_ss, pulse rise, time constant),
      where the steady excess is the pulse rise over one minus the cooling factor. */
  function SteadyStateTemperature(exp: real -> real, h: Heater, ambient: real := 300.0): (r: (real, real, real))
    requires ExpLaws(exp) && Valid(h)
    ensures r.1 == SinglePulseHeating(h) && r.2 == ThermalTimeConstant(h)
    ensures (r.0 - ambient) * (1.0 - CoolingFactor(exp, h)) == r.1
    ensures 0.0 <= h.absorptivity ==> ambient + r.1 <= r.0
  {
    var dT := SinglePulseHeating(h);
    var beta := CoolingFactor(exp, h);
    var gap := 1.0 - beta;
    assert dT / gap * gap == dT;
    DivByFraction(dT, gap);
    (ambient + dT / gap, dT, ThermalTimeConstant(h))
  }

  /** Excess over ambient after pulse `i` of a train: the first pulse adds `dT`,
      and each later one adds `dT` to the previous excess decayed by `beta`. */
  function Excess(dT: real, beta: real, i: nat): real
  {
    if i == 0 then dT else Excess(dT, beta, i - 1) * beta + dT
  }

  /** The geometric-series closed form of the recurrence. */
  lemma {:induction false} ExcessClosedForm(dT: real, beta: real, i: nat)
    ensures Excess(dT, beta, i) * (1.0 - beta) == dT * (1.0 - Pow(beta, i + 1))
  {
    if i > 0 {
      ExcessClosedForm(dT, beta, i - 1);
      ClosedFormStep(dT, beta, i);
    }
  }

  /** The closed form carries over from one pulse to the next. */
  lemma ClosedFormStep(dT: real, beta: real, i: nat)
    requires 0 < i
    requires Excess(dT, beta, i - 1) * (1.0 - beta) == dT * (1.0 - Pow(beta, i))
    ensures Excess(dT, beta, i) * (1.0 - beta) == dT * (1.0 - Pow(beta, i + 1))
  {
    var x, e := Excess(dT, beta, i - 1), Excess(dT, beta, i);
    var p, q := Pow(beta, i), Pow(beta, i + 1);
    assert e == x * beta + dT && q == beta * p;
    GeometricStep(x, beta, dT, p, e, q);
  }

  /** One step of the geometric sum: if x (1 - b) = d (1 - p), then the next
      term e = x b + d satisfies e (1 - b) = d (1 - q) for the next power q = b p. */
  lemma GeometricStep(x: real, b: real, d: real, p: real, e: real, q: real)
    requires x * (1.0 - b) == d * (1.0 - p)
    requires e == x * b + d && q == b * p
    ensures e * (1.0 - b) == d * (1.0 - q)
  {
    var y := x * (1.0 - b);
    assert (x * b + d) * (1.0 - b) == b * y + d * (1.0 - b);
    assert b * y == b * (d * (1.0 - p));
  }

  /** For a non-negative rise and a cooling factor in [0, 1) the train starts at
      the single-pulse rise, never falls, and stays below the steady excess
      dT / (1 - beta), stated here without the division. */
  lemma {:induction false} ExcessBounds(dT: real, beta: real, i: nat)
    requires 0.0 <= dT && 0.0 <= beta < 1.0
    ensures dT <= Excess(dT, beta, i) <= Excess(dT, beta, i + 1)
    ensures Excess(dT, beta, i) * (1.0 - beta) <= dT
  {
    if i > 0 {
      ExcessBounds(dT, beta, i - 1);
      var prev := Excess(dT, beta, i - 1);
      var cur := Excess(dT, beta, i);
      MulNonNegative(prev, beta);
      MulMonotone(prev, cur, beta);
      assert cur * (1.0 - beta) == prev * (1.0 - beta) * beta + dT * (1.0 - beta);
      MulMonotone(prev * (1.0 - beta), dT, beta);
    } else {
      MulNonNegative(dT, beta);
      MulNonNegative(dT, beta);
      assert dT * (1.0 - beta) == dT - dT * beta;
    }
  }

  /** The excess after any pulse lies between one rise and the steady excess
      dT / (1 - beta). */
  lemma ExcessBelowSteadyExcess(dT: real, beta: real, i: nat)
    requires 0.0 <= dT && 0.0 <= beta < 1.0
    ensures dT <= Excess(dT, beta, i) <= dT / (1.0 - beta)
  {
    var x := Excess(dT, beta, i);
    ExcessBounds(dT, beta, i);
    var gap := 1.0 - beta;
    DivMonotone(x * gap, dT, gap);
    assert x * gap / gap == x;
  }

  /** Every sample of the train lies between the first sample and the steady state. */
  lemma PulseTrainBelowSteadyState(exp: real -> real, h: Heater, ambient: real, i: nat)
    requires ExpLaws(exp) && Valid(h)
    requires 0.0 <= h.absorptivity
    ensures var dT := SinglePulseHeating(h);
            var t := ambient + Excess(dT, CoolingFactor(exp, h), i);
            ambient + dT <= t <= SteadyStateTemperature(exp, h, ambient).0
  {
    var dT := SinglePulseHeating(h);
    var beta := CoolingFactor(exp, h);
    ExcessBelowSteadyExcess(dT, beta, i);
    assert SteadyStateTemperature(exp, h, ambient).0 == ambient + dT / (1.0 - beta);
  }

  /** `simulate_pulse_train(n, T_ambient)`: sample times i / f_pulse and the
      temperature after each pulse. numpy refuses a negative length with a
      ValueError, and an empty train fails on writing its first sample. */
  method SimulatePulseTrain(exp: real -> real, h: Heater, n: int := 1000, ambient: real := 300.0)
    returns (r: Result<(seq<real>, seq<real>)>)
    requires ExpLaws(exp) && Valid(h)
    ensures n < 0 ==> r == Failure(ValueError("negative dimensions are not allowed"))
    ensures n == 0 ==> r == Failure(IndexError)
    ensures 0 < n ==> r.Success?
    ensures r.Success? ==>
              IsPulseTrain(r.value.0, r.value.1, n, ambient, SinglePulseHeating(h), CoolingFactor(exp, h))
  {
    if n < 0 {
      return Failure(ValueError("negative dimensions are not allowed"));
    }
    if n == 0 {
      return Failure(IndexError);
    }
    var times, temps := TrainSamples(SinglePulseHeating(h), CoolingFactor(exp, h), ambient, n);
    return Success((times, temps));
  }

  /** `n` samples at times i / f_pulse: the first is ambient plus one rise, each
      later one decays the previous excess by `beta` and adds a rise, and so each
      is ambient plus `Excess`, whose closed form `ExcessClosedForm` gives. */
  ghost predicate IsPulseTrain(times: seq<real>, temps: seq<real>, n: int, ambient: real, dT: real, beta: real)
  {
    && 0 < n && |times| == n && |temps| == n
    && temps[0] == ambient + dT
    && (forall i :: 0 < i < n ==> temps[i] == ambient + (temps[i - 1] - ambient) * beta + dT)
    && (forall i :: 0 <= i < n ==> times[i] == i as real / PulseFrequency)
    && (forall i :: 0 <= i < n ==> temps[i] == ambient + Excess(dT, beta, i))
  }

  /** The sampling loop of the pulse train for a given rise `dT` and cooling
      factor `beta`. */
  method TrainSamples(dT: real, beta: real, ambient: real, n: nat) returns (times: seq<real>, temps: seq<real>)
    requires 0 < n
    ensures IsPulseTrain(times, temps, n, ambient, dT, beta)
  {
    times := [0.0];
    temps := [ambient + dT];
    var i := 1;
    while i < n
      invariant 1 <= i <= n
      invariant |times| == i && |temps| == i
      invariant forall j :: 0 <= j < i ==> times[j] == j as real / PulseFrequency
      invariant forall j :: 0 <= j < i ==> temps[j] == ambient + Excess(dT, beta, j)
    {
      var excess := temps[i - 1] - ambient;
      var next := ambient + excess * beta + dT;
      ExtendTrain(dT, beta, ambient, temps, excess, next);
      times := times + [i as real / PulseFrequency];
      temps := temps + [next];
      i := i + 1;
    }
    TrainFollowsRecurrence(dT, beta, ambient, temps);
  }

  /** A train whose samples are ambient plus the excess obeys the pulse-by-pulse
      update: decay the previous excess by `beta`, then add `dT`. */
  lemma TrainFollowsRecurrence(dT: real, beta: real, ambient: real, temps: seq<real>)
    requires forall j :: 0 <= j < |temps| ==> temps[j] == ambient + Excess(dT, beta, j)
    ensures 0 < |temps| ==> temps[0] == ambient + dT
    ensures forall i :: 0 < i < |temps| ==> temps[i] == ambient + (temps[i - 1] - ambient) * beta + dT
  {
    forall i | 0 < i < |temps|
      ensures temps[i] == ambient + (temps[i - 1] - ambient) * beta + dT
    {
      ExcessStep(dT, beta, i, temps[i - 1] - ambient);
    }
  }

  /** Appending the next sample of the recurrence keeps every sample at ambient
      plus its `Excess`. */
  lemma ExtendTrain(dT: real, beta: real, ambient: real, temps: seq<real>, excess: real, next: real)
    requires 0 < |temps|
    requires forall j :: 0 <= j < |temps| ==> temps[j] == ambient + Excess(dT, beta, j)
    requires excess == temps[|temps| - 1] - ambient && next == ambient + excess * beta + dT
    ensures forall j :: 0 <= j < |temps| + 1 ==> (temps + [next])[j] == ambient + Excess(dT, beta, j)
  {
    var i := |temps|;
    ExcessStep(dT, beta, i, excess);
    assert (temps + [next])[i] == next;
  }

  /** One step of the recurrence from a known excess. */
  lemma ExcessStep(dT: real, beta: real, i: nat, prev: real)
    requires 0 < i && prev == Excess(dT, beta, i - 1)
    ensures prev * beta + dT == Excess(dT, beta, i)
  {
  }
}
