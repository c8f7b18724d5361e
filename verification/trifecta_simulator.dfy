/** The coupled acoustic-laser-plasma drilling simulator: a fixed-step,
    lumped-parameter integrator over one surface temperature, with a damage
    fraction recomputed from elapsed time, a threshold-gated plasma removal
    rate, and six parallel history lists that grow by one entry per step.

    The configuration is the fixed set of constants the simulator's
    constructor assigns (granite, 760 W acoustic, 5 W laser, 85 W plasma). */
module TrifectaSimulator {
  import opened Numeric

  // Material (granite)
  const Rho: real := 2700.0                      // kg/m^3
  const SpecificHeat: real := 800.0              // J/(kg K)
  const ThermalConductivity: real := 3.0         // W/(m K)
  const AmbientTemperature: real := 300.0        // K
  const MeltingPoint: real := 1500.0             // K

  // Acoustic system
  const AcousticPower: real := 760.0             // W
  const AcousticFrequency: real := 40000.0       // Hz

  // Laser system
  const LaserPower: real := 5.0                  // W, average
  const BaseAbsorptivity: real := 0.15

  // Plasma system
  const PlasmaPower: real := 85.0                // W
  const ArcEfficiency: real := 0.80
  const BaseTransferEfficiency: real := 0.40
  const PlasmaThreshold: real := 800.0           // K

  // Geometry
  const SpotSize: real := 0.001                  // m, spot diameter
  const KerfWidth: real := 0.001                 // m
  const SpotArea: real := Pi * (SpotSize / 2.0) * (SpotSize / 2.0)
  const KerfArea: real := Pi * (KerfWidth / 2.0) * (KerfWidth / 2.0)

  const SpecificEnergy: real := 7360000000.0     // J/m^3, granite removal energy

  // Constants written inline in the simulator's methods
  const MaxDamage: real := 0.07                  // saturation level of the damage fraction
  const SaturationCycles: real := 1000000.0
  const DamageAbsorptionGain: real := 3.0
  const ConductionDepth: real := 0.01            // m
  const StefanBoltzmann: real := 0.0000000567    // W/(m^2 K^4)
  const Emissivity: real := 0.9
  const HeatedDepth: real := 0.001               // m
  const ExpansionCoefficient: real := 0.000008   // 1/K
  const YoungsModulus: real := 50000000000.0     // Pa
  const PoissonsRatio: real := 0.25
  const PreheatGain: real := 1.0
  const PreheatRate: real := 3.0
  const DamageGain: real := 0.3
  const EfficiencyCap: real := 0.95
  const ResidualEnergyFloor: real := 0.1         // fraction of SpecificEnergy always required
  const SecondsPerHour: real := 3600.0

  /** Heat capacity of the heated slab under the spot, in J/K. */
  const HeatCapacity: real := Rho * SpotArea * HeatedDepth * SpecificHeat

  lemma GeometryPositive()
    ensures 0.0 < SpotArea && 0.0 < KerfArea && 0.0 < HeatCapacity
  {
    MulPositive(Pi, SpotSize / 2.0);
    MulPositive(Pi * (SpotSize / 2.0), SpotSize / 2.0);
    MulPositive(Rho, SpotArea);
    MulPositive(Rho * SpotArea, HeatedDepth);
    MulPositive(Rho * SpotArea * HeatedDepth, SpecificHeat);
  }

  // ---------------------------------------------------------------------------
  // Acoustic damage

  /** Damage fraction after `t` seconds of acoustic fatigue: exactly zero before
      the first full cycle, then a saturating approach to MaxDamage. */
  function AcousticDamage(exp: real -> real, t: real): (f: real)
    requires ExpLaws(exp)
    ensures f == 0.0 <==> AcousticFrequency * t < 1.0
    ensures 0.0 <= f < MaxDamage
  {
    var cycles := AcousticFrequency * t;
    if cycles < 1.0 then 0.0
    else
      ExpOfNegative(exp, -cycles / SaturationCycles);
      MaxDamage * (1.0 - exp(-cycles / SaturationCycles))
  }

  /** Damage never decreases as time goes on. */
  lemma AcousticDamageMonotone(exp: real -> real, t1: real, t2: real)
    requires ExpLaws(exp)
    requires t1 <= t2
    ensures AcousticDamage(exp, t1) <= AcousticDamage(exp, t2)
  {
    var c1, c2 := AcousticFrequency * t1, AcousticFrequency * t2;
    if 1.0 <= c1 {
      ExpMonotone(exp, -c2 / SaturationCycles, -c1 / SaturationCycles);
    }
  }

  // ---------------------------------------------------------------------------
  // Laser heating

  /** Absorptivity raised by acoustic damage. */
  function LaserAbsorption(f: real): (alpha: real)
    ensures f == 0.0 ==> alpha == BaseAbsorptivity
    ensures 0.0 <= f ==> BaseAbsorptivity <= alpha
    ensures f <= MaxDamage ==> alpha <= BaseAbsorptivity * (1.0 + DamageAbsorptionGain * MaxDamage)
  {
    BaseAbsorptivity * (1.0 + DamageAbsorptionGain * f)
  }

  /** Damage never lowers the absorptivity. */
  lemma LaserAbsorptionMonotone(f1: real, f2: real)
    requires f1 <= f2
    ensures LaserAbsorption(f1) <= LaserAbsorption(f2)
  {
  }

  /** Conduction loss through the reference depth below the spot. */
  function ConductionLoss(t: real): real
  {
    ThermalConductivity * SpotArea * (t - AmbientTemperature) / ConductionDepth
  }

  /** Stefan-Boltzmann radiation loss from the spot. */
  function RadiationLoss(t: real): real
  {
    Emissivity * StefanBoltzmann * SpotArea * (Pow(t, 4) - Pow(AmbientTemperature, 4))
  }

  /** Conduction plus radiation losses at surface temperature `t`. */
  function HeatLoss(t: real): real
  {
    ConductionLoss(t) + RadiationLoss(t)
  }

  /** Temperature change over `dt` from absorbed average laser power minus
      conduction and radiation losses (explicit Euler). */
  function LaserHeating(tCurrent: real, f: real, dt: real): (dT: real)
    ensures dt == 0.0 ==> dT == 0.0
    ensures tCurrent == AmbientTemperature ==>
              dT == LaserAbsorption(f) * LaserPower * dt / HeatCapacity
  {
    var absorbed := LaserAbsorption(f) * LaserPower;
    var net := absorbed - HeatLoss(tCurrent);
    net * dt / HeatCapacity
  }

  /** k * (t - t0) / d has the sign of t - t0 for non-negative k and positive d. */
  lemma ScaledExcessSign(k: real, t: real, t0: real, d: real)
    requires 0.0 <= k && 0.0 < d
    ensures t0 <= t ==> 0.0 <= k * (t - t0) / d
    ensures t <= t0 ==> k * (t - t0) / d <= 0.0
  {
    if t0 <= t {
      MulNonNegative(k, t - t0);
    } else {
      MulNonNegative(k, t0 - t);
      assert k * (t - t0) == -(k * (t0 - t));
    }
  }

  /** Losses have the sign of the excess over ambient. */
  lemma HeatLossSign(t: real)
    requires 0.0 <= t
    ensures AmbientTemperature <= t ==> 0.0 <= HeatLoss(t)
    ensures t <= AmbientTemperature ==> HeatLoss(t) <= 0.0
  {
    GeometryPositive();
    ScaledExcessSign(ThermalConductivity * SpotArea, t, AmbientTemperature, ConductionDepth);
    if AmbientTemperature <= t {
      PowMonotone(AmbientTemperature, t, 4);
    } else {
      PowMonotone(t, AmbientTemperature, 4);
    }
    ScaledExcessSign(Emissivity * StefanBoltzmann * SpotArea, Pow(t, 4), Pow(AmbientTemperature, 4), 1.0);
  }

  /** Subtracting a non-negative loss lowers an Euler increment; a non-positive one raises it. */
  lemma NetHeatingBound(absorbed: real, loss: real, dt: real, c: real)
    requires 0.0 <= dt && 0.0 < c
    ensures 0.0 <= loss ==> (absorbed - loss) * dt / c <= absorbed * dt / c
    ensures loss <= 0.0 ==> absorbed * dt / c <= (absorbed - loss) * dt / c
  {
    if 0.0 <= loss {
      MulMonotone(absorbed - loss, absorbed, dt);
      DivMonotone((absorbed - loss) * dt, absorbed * dt, c);
    }
    if loss <= 0.0 {
      MulMonotone(absorbed, absorbed - loss, dt);
      DivMonotone(absorbed * dt, (absorbed - loss) * dt, c);
    }
  }

  /** Above ambient the losses can only slow heating; below ambient they can only add to it. */
  lemma LaserHeatingLossBounds(tCurrent: real, f: real, dt: real)
    requires 0.0 <= dt && 0.0 <= tCurrent
    ensures AmbientTemperature <= tCurrent ==>
              LaserHeating(tCurrent, f, dt) <= LaserAbsorption(f) * LaserPower * dt / HeatCapacity
    ensures tCurrent <= AmbientTemperature ==>
              LaserAbsorption(f) * LaserPower * dt / HeatCapacity <= LaserHeating(tCurrent, f, dt)
  {
    GeometryPositive();
    HeatLossSign(tCurrent);
    NetHeatingBound(LaserAbsorption(f) * LaserPower, HeatLoss(tCurrent), dt, HeatCapacity);
  }

  /** Thermal stress of a constrained surface at temperature `t`. */
  function ThermalStress(t: real): (sigma: real)
    ensures sigma == 0.0 <==> t == AmbientTemperature
    ensures 0.0 < sigma <==> AmbientTemperature < t
    ensures sigma < 0.0 <==> t < AmbientTemperature
  {
    YoungsModulus * ExpansionCoefficient * (t - AmbientTemperature) / (1.0 - PoissonsRatio)
  }

  // ---------------------------------------------------------------------------
  // Plasma removal

  /** The activation gate: plasma cuts only at or above the threshold. */
  predicate PlasmaActive(t: real)
  {
    t >= PlasmaThreshold
  }

  /** Position of `t` between the threshold and the melting point, clipped to [0, 1]. */
  function ThresholdFactor(t: real): (x: real)
    ensures 0.0 <= x <= 1.0
    ensures t <= PlasmaThreshold ==> x == 0.0
    ensures MeltingPoint <= t ==> x == 1.0
  {
    Clip((t - PlasmaThreshold) / (MeltingPoint - PlasmaThreshold), 0.0, 1.0)
  }

  lemma ThresholdFactorMonotone(t1: real, t2: real)
    requires t1 <= t2
    ensures ThresholdFactor(t1) <= ThresholdFactor(t2)
  {
    var span := MeltingPoint - PlasmaThreshold;
    ClipMonotone((t1 - PlasmaThreshold) / span, (t2 - PlasmaThreshold) / span, 0.0, 1.0);
  }

  /** Transfer efficiency before the damage factor and the cap: the base value up
      to the threshold, then rising towards twice the base as the surface nears
      melting. */
  function PreheatEfficiency(exp: real -> real, t: real): (eta: real)
    requires ExpLaws(exp)
    ensures t <= PlasmaThreshold ==> eta == BaseTransferEfficiency
    ensures BaseTransferEfficiency <= eta < 2.0 * BaseTransferEfficiency
  {
    if t < PlasmaThreshold then BaseTransferEfficiency
    else
      var x := ThresholdFactor(t);
      ExpOfNonPositive(exp, -PreheatRate * x);
      BaseTransferEfficiency * (1.0 + PreheatGain * (1.0 - exp(-PreheatRate * x)))
  }

  /** Hotter surfaces never lower the preheat efficiency. */
  lemma PreheatEfficiencyMonotone(exp: real -> real, t1: real, t2: real)
    requires ExpLaws(exp)
    requires t1 <= t2
    ensures PreheatEfficiency(exp, t1) <= PreheatEfficiency(exp, t2)
  {
    if PlasmaThreshold <= t1 {
      var x1, x2 := ThresholdFactor(t1), ThresholdFactor(t2);
      ThresholdFactorMonotone(t1, t2);
      ExpMonotone(exp, -PreheatRate * x2, -PreheatRate * x1);
    }
  }

  /** Enhancement from acoustic roughening: 30% more per unit of damage. */
  function DamageFactor(f: real): (g: real)
    ensures 0.0 <= f ==> 1.0 <= g
  {
    1.0 + DamageGain * f
  }

  /** A preheat efficiency `p` raised by the damage factor, then capped. */
  function DamageScaled(p: real, f: real): (eta: real)
    ensures eta <= EfficiencyCap
    ensures 0.0 <= f && BaseTransferEfficiency <= p ==> BaseTransferEfficiency <= eta
  {
    ScaleAtLeast(p, DamageFactor(f));
    Min(p * DamageFactor(f), EfficiencyCap)
  }

  /** Plasma transfer efficiency at surface temperature `t` and damage `f`. */
  function PlasmaEfficiency(exp: real -> real, t: real, f: real): (eta: real)
    requires ExpLaws(exp)
    ensures eta <= EfficiencyCap
    ensures t <= PlasmaThreshold ==>
              eta == Min(BaseTransferEfficiency * DamageFactor(f), EfficiencyCap)
    ensures 0.0 <= f ==> BaseTransferEfficiency <= eta
  {
    DamageScaled(PreheatEfficiency(exp, t), f)
  }

  /** The damage factor and the cap keep the order of two preheat efficiencies. */
  lemma DamageScaledMonotone(p1: real, p2: real, f: real)
    requires p1 <= p2 && 0.0 <= f
    ensures DamageScaled(p1, f) <= DamageScaled(p2, f)
  {
    var g := DamageFactor(f);
    MulMonotone(p1, p2, g);
    MinMonotone(p1 * g, p2 * g, EfficiencyCap);
  }

  /** Hotter surfaces never lower the efficiency, for any fixed non-negative damage. */
  lemma PlasmaEfficiencyMonotone(exp: real -> real, t1: real, t2: real, f: real)
    requires ExpLaws(exp)
    requires 0.0 <= f
    requires t1 <= t2
    ensures PlasmaEfficiency(exp, t1, f) <= PlasmaEfficiency(exp, t2, f)
  {
    PreheatEfficiencyMonotone(exp, t1, t2);
    DamageScaledMonotone(PreheatEfficiency(exp, t1), PreheatEfficiency(exp, t2), f);
  }

  /** Energy per unit volume still needed once preheating is credited: never
      more than the specific energy above ambient, never below a tenth of it. */
  function ResidualEnergy(t: real): (e: real)
    ensures ResidualEnergyFloor * SpecificEnergy <= e
    ensures AmbientTemperature <= t ==> e <= SpecificEnergy
    ensures t <= AmbientTemperature ==> SpecificEnergy <= e
  {
    Max(SpecificEnergy - Rho * SpecificHeat * (t - AmbientTemperature),
        ResidualEnergyFloor * SpecificEnergy)
  }

  /** Volume removal rate in m^3/s: zero while the plasma is off, otherwise effective
      plasma power over the residual specific energy. */
  function MaterialRemovalRate(exp: real -> real, t: real, f: real): (v: real)
    requires ExpLaws(exp)
    ensures !PlasmaActive(t) ==> v == 0.0
    ensures PlasmaActive(t) ==>
              v * ResidualEnergy(t) == PlasmaPower * ArcEfficiency * PlasmaEfficiency(exp, t, f)
  {
    if !PlasmaActive(t) then 0.0
    else
      var power := PlasmaPower * ArcEfficiency * PlasmaEfficiency(exp, t, f);
      var e := ResidualEnergy(t);
      assert power / e * e == power;
      power / e
  }

  /** The removal rate is never negative, is positive whenever the plasma is on
      and the damage is non-negative, and never exceeds the arc power at the capped
      efficiency over the floored residual energy. */
  lemma MaterialRemovalRateBounds(exp: real -> real, t: real, f: real)
    requires ExpLaws(exp)
    requires 0.0 <= f
    ensures 0.0 <= MaterialRemovalRate(exp, t, f)
    ensures PlasmaActive(t) ==> 0.0 < MaterialRemovalRate(exp, t, f)
    ensures MaterialRemovalRate(exp, t, f)
              <= PlasmaPower * ArcEfficiency * EfficiencyCap / (ResidualEnergyFloor * SpecificEnergy)
  {
    var v := MaterialRemovalRate(exp, t, f);
    var g := PlasmaPower * ArcEfficiency;
    var floor := ResidualEnergyFloor * SpecificEnergy;
    var bound := g * EfficiencyCap / floor;
    if PlasmaActive(t) {
      var eta := PlasmaEfficiency(exp, t, f);
      var e := ResidualEnergy(t);
      assert v == g * eta / e;
      QuotientBounds(g, eta, EfficiencyCap, e, floor);
      MulPositive(g, eta);
      assert 0.0 < g * eta / e;
    }
    assert 0.0 <= v <= bound;
  }

  /** Linear drilling rate in m/s: the removal rate over the kerf area when positive,
      otherwise exactly zero. */
  function LinearRate(exp: real -> real, t: real, f: real): (r: real)
    requires ExpLaws(exp)
    ensures 0.0 <= r
    ensures r == 0.0 <==> MaterialRemovalRate(exp, t, f) <= 0.0
    ensures 0.0 < r ==> r * KerfArea == MaterialRemovalRate(exp, t, f)
  {
    var v := MaterialRemovalRate(exp, t, f);
    GeometryPositive();
    if v > 0.0 then
      assert v / KerfArea * KerfArea == v;
      v / KerfArea
    else 0.0
  }

  // ---------------------------------------------------------------------------
  // State, history, step and run

  /** The six parallel history lists. */
  datatype History = History(
    times: seq<real>,
    temperatures: seq<real>,
    damages: seq<real>,
    depths: seq<real>,
    rates: seq<real>,         // m/hr
    efficiencies: seq<real>)
  {
    predicate Aligned()
    {
      && |temperatures| == |times| && |damages| == |times| && |depths| == |times|
      && |rates| == |times| && |efficiencies| == |times|
    }

    function Length(): nat
    {
      |times|
    }

    /** The history with one more snapshot at the end of each list. */
    function Append(t: real, temp: real, f: real, d: real, rate: real, eta: real): (h: History)
      ensures Aligned() ==> h.Aligned()
      ensures h.Length() == Length() + 1
    {
      History(times + [t], temperatures + [temp], damages + [f], depths + [d],
              rates + [rate], efficiencies + [eta])
    }
  }

  datatype State = State(
    time: real,
    tSurface: real,
    damage: real,
    depth: real,
    energyUsed: real,
    history: History)

  /** The state the constructor and `reset` install. */
  function Reset(): (s: State)
    ensures s.history.Aligned() && s.history.Length() == 1
    ensures s.time == 0.0 && s.tSurface == AmbientTemperature
    ensures s.damage == 0.0 && s.depth == 0.0 && s.energyUsed == 0.0
    ensures s.history.times[0] == s.time && s.history.temperatures[0] == s.tSurface
    ensures s.history.damages[0] == s.damage && s.history.depths[0] == s.depth
    ensures s.history.rates[0] == 0.0 && s.history.efficiencies[0] == 0.0
  {
    State(0.0, AmbientTemperature, 0.0, 0.0, 0.0,
          History([0.0], [AmbientTemperature], [0.0], [0.0], [0.0], [0.0]))
  }

  /** Cumulative efficiency: ideal removal energy of the drilled volume over the
      energy spent, and zero until something has been drilled. */
  function SystemEfficiency(depth: real, energy: real): (eta: real)
    ensures !(0.0 < depth && 0.0 < energy) ==> eta == 0.0
    ensures 0.0 < depth && 0.0 < energy ==>
              0.0 < eta && eta * energy == SpecificEnergy * depth * KerfArea
  {
    if depth > 0.0 then
      if energy > 0.0 then
        var ideal := SpecificEnergy * (depth * KerfArea);
        GeometryPositive();
        MulPositive(depth, KerfArea);
        assert ideal / energy * energy == ideal;
        ideal / energy
      else 0.0
    else 0.0
  }

  /** Power drawn during a step that ends at surface temperature `t`: acoustic and
      laser always, plasma only while active. */
  function PowerDrawn(t: real): (w: real)
    ensures AcousticPower + LaserPower <= w <= AcousticPower + LaserPower + PlasmaPower
    ensures w == AcousticPower + LaserPower + PlasmaPower <==> PlasmaActive(t)
    ensures w == AcousticPower + LaserPower <==> !PlasmaActive(t)
  {
    AcousticPower + LaserPower + (if PlasmaActive(t) then PlasmaPower else 0.0)
  }

  /** What the activation gate decides: with non-negative damage, material is
      removed exactly when the gate is open, and the arc power is drawn exactly
      then too. */
  lemma PlasmaActiveGate(exp: real -> real, t: real, f: real)
    requires ExpLaws(exp) && 0.0 <= f
    ensures PlasmaActive(t) <==> 0.0 < MaterialRemovalRate(exp, t, f)
    ensures PlasmaActive(t) <==> PowerDrawn(t) == AcousticPower + LaserPower + PlasmaPower
  {
    MaterialRemovalRateBounds(exp, t, f);
  }

  /** Depth drilled in one step of length `dt`: the linear rate times `dt`. Over
      the kerf area it is exactly the volume removed in `dt`, and it is zero
      without a positive volume rate. */
  function DepthGain(exp: real -> real, t: real, f: real, dt: real): (d: real)
    requires ExpLaws(exp)
    ensures 0.0 < MaterialRemovalRate(exp, t, f) ==> d * KerfArea == MaterialRemovalRate(exp, t, f) * dt
    ensures MaterialRemovalRate(exp, t, f) <= 0.0 ==> d == 0.0
  {
    var r := LinearRate(exp, t, f);
    RateOverTime(r, dt, KerfArea, MaterialRemovalRate(exp, t, f));
    r * dt
  }

  /** A rate that fills an area `a` at volume rate `v` fills `v * dt` over `dt`. */
  lemma RateOverTime(r: real, dt: real, a: real, v: real)
    ensures r * a == v ==> r * dt * a == v * dt
  {
  }

  /** One fixed time step: advance the clock, recompute the damage from the elapsed
      time, integrate the laser heating (never below ambient), remove material at
      the gated plasma rate, charge the power drawn, and record a snapshot. */
  function Step(exp: real -> real, s: State, dt: real): (s': State)
    requires ExpLaws(exp)
    ensures s'.time == s.time + dt
    ensures s'.damage == AcousticDamage(exp, s'.time)
    ensures s'.tSurface == Max(s.tSurface + LaserHeating(s.tSurface, s'.damage, dt), AmbientTemperature)
    ensures AmbientTemperature <= s'.tSurface
    ensures !PlasmaActive(s'.tSurface) ==> s'.depth == s.depth
    ensures s'.depth == s.depth + DepthGain(exp, s'.tSurface, s'.damage, dt)
    ensures s'.energyUsed == s.energyUsed + PowerDrawn(s'.tSurface) * dt
    ensures s'.history == s.history.Append(s'.time, s'.tSurface, s'.damage, s'.depth,
                                           LinearRate(exp, s'.tSurface, s'.damage) * SecondsPerHour,
                                           SystemEfficiency(s'.depth, s'.energyUsed))
  {
    var time := s.time + dt;
    var f := AcousticDamage(exp, time);
    var temp := Max(s.tSurface + LaserHeating(s.tSurface, f, dt), AmbientTemperature);
    var rate := LinearRate(exp, temp, f);
    var depth := s.depth + DepthGain(exp, temp, f, dt);
    var energy := s.energyUsed + PowerDrawn(temp) * dt;
    State(time, temp, f, depth, energy,
          s.history.Append(time, temp, f, depth, rate * SecondsPerHour,
                           SystemEfficiency(depth, energy)))
  }

  /** A forward step never makes the hole shallower. */
  lemma StepDepthMonotone(exp: real -> real, s: State, dt: real)
    requires ExpLaws(exp)
    ensures 0.0 <= dt ==> s.depth <= Step(exp, s, dt).depth
  {
    var s' := Step(exp, s, dt);
    if 0.0 <= dt {
      MulNonNegative(LinearRate(exp, s'.tSurface, s'.damage), dt);
    }
  }

  /** A forward step that ends with the plasma on makes the hole strictly deeper. */
  lemma StepDepthGrows(exp: real -> real, s: State, dt: real)
    requires ExpLaws(exp)
    requires 0.0 < dt && PlasmaActive(Step(exp, s, dt).tSurface)
    ensures s.depth < Step(exp, s, dt).depth
  {
    var s' := Step(exp, s, dt);
    MaterialRemovalRateBounds(exp, s'.tSurface, s'.damage);
    MulPositive(LinearRate(exp, s'.tSurface, s'.damage), dt);
  }

  /** Depth moves only on a positive removal rate: without one the step records
      a zero rate and leaves the depth alone, and with one (for a non-zero step)
      it records the positive rate in m/hr and moves the depth. */
  lemma StepRemovalGate(exp: real -> real, s: State, dt: real)
    requires ExpLaws(exp)
    ensures var s' := Step(exp, s, dt);
            var rates := s'.history.rates;
            && (MaterialRemovalRate(exp, s'.tSurface, s'.damage) <= 0.0 ==>
                  s'.depth == s.depth && rates[|rates| - 1] == 0.0)
            && (0.0 < MaterialRemovalRate(exp, s'.tSurface, s'.damage) && dt != 0.0 ==>
                  s'.depth != s.depth && 0.0 < rates[|rates| - 1])
  {
    var s' := Step(exp, s, dt);
    var rate := LinearRate(exp, s'.tSurface, s'.damage);
    if 0.0 < MaterialRemovalRate(exp, s'.tSurface, s'.damage) {
      MulPositive(rate, SecondsPerHour);
      if dt > 0.0 {
        MulPositive(rate, dt);
      } else if dt < 0.0 {
        MulPositive(rate, -dt);
      }
    }
  }

  /** A forward step charges at least the always-on acoustic and laser power. */
  lemma StepEnergy(exp: real -> real, s: State, dt: real)
    requires ExpLaws(exp)
    requires 0.0 <= dt
    ensures s.energyUsed + (AcousticPower + LaserPower) * dt <= Step(exp, s, dt).energyUsed
  {
    MulMonotone(AcousticPower + LaserPower, PowerDrawn(Step(exp, s, dt).tSurface), dt);
  }

  /** `k` consecutive steps of size `dt`. */
  function Steps(exp: real -> real, s: State, k: nat, dt: real): (s': State)
    requires ExpLaws(exp)
    ensures s'.history.Length() == s.history.Length() + k
    ensures s.history.Aligned() ==> s'.history.Aligned()
    ensures 0.0 <= dt ==> s.depth <= s'.depth
    ensures 0 < k ==> AmbientTemperature <= s'.tSurface
  {
    if k == 0 then s
    else
      var p := Steps(exp, s, k - 1, dt);
      StepDepthMonotone(exp, p, dt);
      Step(exp, p, dt)
  }

  /** Number of steps `run` takes: int(duration / dt), and none when that is negative. */
  function StepCount(duration: real, dt: real): nat
    requires dt != 0.0
  {
    var n := Trunc(duration / dt);
    if n < 0 then 0 else n
  }

  /** For a positive step the count is the number of whole steps that fit in the
      duration (truncation, not a ceiling), and a negative duration runs nothing. */
  lemma StepCountFits(duration: real, dt: real)
    requires 0.0 < dt
    ensures duration < 0.0 ==> StepCount(duration, dt) == 0
    ensures 0.0 <= duration ==> StepCount(duration, dt) as real * dt <= duration
    ensures 0.0 <= duration ==> duration < (StepCount(duration, dt) + 1) as real * dt
  {
    var n := StepCount(duration, dt);
    if 0.0 <= duration {
      assert 0.0 <= duration / dt;
      assert (n + 1) as real == n as real + 1.0;
      QuotientFits(duration, dt, n);
    }
  }

  /** `run(duration, dt)`: the step loop, without the progress printing. */
  method Run(exp: real -> real, s: State, duration: real, dt: real := 0.001) returns (s': State)
    requires ExpLaws(exp)
    requires dt != 0.0
    ensures s' == Steps(exp, s, StepCount(duration, dt), dt)
    ensures s'.history.Length() == s.history.Length() + StepCount(duration, dt)
    ensures s.history.Aligned() ==> s'.history.Aligned()
  {
    var steps := StepCount(duration, dt);
    s' := s;
    var i := 0;
    while i < steps
      invariant 0 <= i <= steps
      invariant s' == Steps(exp, s, i, dt)
    {
      s' := Step(exp, s', dt);
      i := i + 1;
    }
  }

  /** After `reset`, a run leaves int(duration / dt) + 1 entries in every history
      list whenever that count is non-negative, and a single entry otherwise. */
  lemma ResetRunLength(exp: real -> real, duration: real, dt: real)
    requires ExpLaws(exp)
    requires dt != 0.0
    ensures var s := Steps(exp, Reset(), StepCount(duration, dt), dt);
            && s.history.Aligned()
            && (0 <= Trunc(duration / dt) ==> s.history.Length() == Trunc(duration / dt) + 1)
            && (Trunc(duration / dt) < 0 ==> s.history.Length() == 1)
  {
  }

  // ---------------------------------------------------------------------------
  // The run invariant

  ghost predicate NonDecreasing(xs: seq<real>)
  {
    forall i, j :: 0 <= i <= j < |xs| ==> xs[i] <= xs[j]
  }

  lemma NonDecreasingAppend(xs: seq<real>, x: real)
    requires NonDecreasing(xs)
    requires 0 < |xs| ==> xs[|xs| - 1] <= x
    ensures NonDecreasing(xs + [x])
  {
  }

  /** What holds of every state reachable from `reset` by non-negative steps. */
  ghost predicate Invariant(exp: real -> real, s: State)
    requires ExpLaws(exp)
  {
    var h := s.history;
    && h.Aligned() && 0 < h.Length()
    && h.times[|h.times| - 1] == s.time
    && h.temperatures[|h.temperatures| - 1] == s.tSurface
    && h.damages[|h.damages| - 1] == s.damage
    && h.depths[|h.depths| - 1] == s.depth
    && s.damage == AcousticDamage(exp, s.time)
    && 0.0 <= s.time && 0.0 <= s.depth
    && (AcousticPower + LaserPower) * s.time <= s.energyUsed
    && (forall i :: 0 <= i < |h.temperatures| ==> AmbientTemperature <= h.temperatures[i])
    && (forall i :: 0 <= i < |h.damages| ==> 0.0 <= h.damages[i] < MaxDamage)
    && (forall i :: 0 <= i < |h.rates| ==> 0.0 <= h.rates[i])
    && (forall i :: 0 <= i < |h.efficiencies| ==> 0.0 <= h.efficiencies[i])
    && NonDecreasing(h.times) && NonDecreasing(h.damages) && NonDecreasing(h.depths)
  }

  lemma ResetEstablishesInvariant(exp: real -> real)
    requires ExpLaws(exp)
    ensures Invariant(exp, Reset())
  {
  }

  lemma StepPreservesInvariant(exp: real -> real, s: State, dt: real)
    requires ExpLaws(exp)
    requires 0.0 <= dt
    requires Invariant(exp, s)
    ensures Invariant(exp, Step(exp, s, dt))
  {
    var s' := Step(exp, s, dt);
    var h := s.history;
    var rate := LinearRate(exp, s'.tSurface, s'.damage);
    AcousticDamageMonotone(exp, s.time, s'.time);
    NonDecreasingAppend(h.times, s'.time);
    NonDecreasingAppend(h.damages, s'.damage);
    StepDepthMonotone(exp, s, dt);
    StepEnergy(exp, s, dt);
    NonDecreasingAppend(h.depths, s'.depth);
    MulNonNegative(rate, SecondsPerHour);
    assert 0.0 <= SystemEfficiency(s'.depth, s'.energyUsed);
  }

  /** The invariant holds after any number of non-negative steps. */
  lemma {:induction false} StepsPreserveInvariant(exp: real -> real, s: State, k: nat, dt: real)
    requires ExpLaws(exp)
    requires 0.0 <= dt
    requires Invariant(exp, s)
    ensures Invariant(exp, Steps(exp, s, k, dt))
  {
    if k > 0 {
      var p := Steps(exp, s, k - 1, dt);
      StepsPreserveInvariant(exp, s, k - 1, dt);
      StepPreservesInvariant(exp, p, dt);
      StepsUnfold(exp, s, k, dt);
    }
  }

  /** k steps are one step after k - 1 steps. */
  lemma StepsUnfold(exp: real -> real, s: State, k: nat, dt: real)
    requires ExpLaws(exp)
    requires 0 < k
    ensures Steps(exp, s, k, dt) == Step(exp, Steps(exp, s, k - 1, dt), dt)
  {
  }
}
