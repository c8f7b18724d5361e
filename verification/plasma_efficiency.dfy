/** The standalone plasma cutting model: a temperature-dependent heat transfer
    coefficient, a capped transfer efficiency that rises with preheating and
    acoustic damage, a removal rate over a floored specific energy, and the
    conversion of that volume rate into a linear drilling rate through a kerf.

    The configuration is the fixed set of granite and torch constants the
    model's constructor assigns. */
module PlasmaEfficiencyModel {
  import opened Numeric

  // Material (granite)
  const Rho: real := 2700.0                          // kg/m^3
  const SpecificHeat: real := 800.0                  // J/(kg K)
  const MeltingPoint: real := 1500.0                 // K
  const LatentHeatFusion: real := 400000.0           // J/kg
  const LatentHeatVaporization: real := 6000000.0    // J/kg

  // Torch
  const PlasmaPower: real := 85.0                    // W
  const ArcEfficiency: real := 0.80
  const BaseTransferEfficiency: real := 0.40

  const SpecificEnergy: real := 7360000000.0         // J/m^3

  // Constants written inline in the model's methods
  const ReferenceTemperature: real := 300.0          // K
  const BaseHeatTransfer: real := 50000.0            // W/(m^2 K)
  const CouplingGain: real := 0.5
  const PreheatGain: real := 1.0
  const PreheatRate: real := 3.0
  const DamageGain: real := 0.3
  const EfficiencyCap: real := 0.95
  const EnergyFloorFraction: real := 0.1
  const SecondsPerHour: real := 3600.0

  /** Heat transfer coefficient from the arc to material at `t`: the base value
      scaled by a coupling enhancement clipped to [1, 2]. */
  function HeatTransferCoefficient(t: real): (h: real)
    ensures BaseHeatTransfer <= h <= 2.0 * BaseHeatTransfer
    ensures t <= ReferenceTemperature ==> h == BaseHeatTransfer
  {
    var enhancement := 1.0 + CouplingGain * (t - ReferenceTemperature) / (MeltingPoint - ReferenceTemperature);
    BaseHeatTransfer * Clip(enhancement, 1.0, 2.0)
  }

  /** The coefficient never falls as the material heats, and reaches its cap two
      melting spans above the reference temperature. */
  lemma HeatTransferCoefficientMonotone(t1: real, t2: real)
    requires t1 <= t2
    ensures HeatTransferCoefficient(t1) <= HeatTransferCoefficient(t2)
    ensures ReferenceTemperature + 2.0 * (MeltingPoint - ReferenceTemperature) <= t1 ==>
              HeatTransferCoefficient(t1) == 2.0 * BaseHeatTransfer
  {
    var span := MeltingPoint - ReferenceTemperature;
    var e1 := 1.0 + CouplingGain * (t1 - ReferenceTemperature) / span;
    var e2 := 1.0 + CouplingGain * (t2 - ReferenceTemperature) / span;
    assert e1 <= e2;
    ClipMonotone(e1, e2, 1.0, 2.0);
  }

  /** Position of `t` between the reference temperature and the melting point,
      clipped to [0, 1]. */
  function PreheatFactor(t: real): (x: real)
    ensures 0.0 <= x <= 1.0
    ensures t <= ReferenceTemperature ==> x == 0.0
    ensures MeltingPoint <= t ==> x == 1.0
  {
    Clip((t - ReferenceTemperature) / (MeltingPoint - ReferenceTemperature), 0.0, 1.0)
  }

  /** Transfer efficiency from preheating alone, before the damage factor and the cap. */
  function PreheatEfficiency(exp: real -> real, t: real): (eta: real)
    requires ExpLaws(exp)
    ensures BaseTransferEfficiency <= eta < 2.0 * BaseTransferEfficiency
    ensures t <= ReferenceTemperature ==> eta == BaseTransferEfficiency
  {
    var x := PreheatFactor(t);
    ExpOfNonPositive(exp, -PreheatRate * x);
    BaseTransferEfficiency * (1.0 + PreheatGain * (1.0 - exp(-PreheatRate * x)))
  }

  /** Preheating never lowers the efficiency. */
  lemma PreheatEfficiencyMonotone(exp: real -> real, t1: real, t2: real)
    requires ExpLaws(exp)
    requires t1 <= t2
    ensures PreheatEfficiency(exp, t1) <= PreheatEfficiency(exp, t2)
  {
    var span := MeltingPoint - ReferenceTemperature;
    ClipMonotone((t1 - ReferenceTemperature) / span, (t2 - ReferenceTemperature) / span, 0.0, 1.0);
    var x1, x2 := PreheatFactor(t1), PreheatFactor(t2);
    ExpMonotone(exp, -PreheatRate * x2, -PreheatRate * x1);
  }

  /** Enhancement from acoustic roughening: 30% more per unit of damage. */
  function DamageFactor(f: real): (g: real)
    ensures 0.0 <= f ==> 1.0 <= g
  {
    1.0 + DamageGain * f
  }

  /** A preheat efficiency `p` raised by the damage factor, then capped. */
  function DamageScaled(p: real, f: real): (eta: real)
    ensures eta <= EfficiencyCap
    ensures 0.0 <= f && BaseTransferEfficiency <= p ==> BaseTransferEfficiency <= eta
  {
    ScaleAtLeast(p, DamageFactor(f));
    Min(p * DamageFactor(f), EfficiencyCap)
  }

  /** Plasma-to-material transfer efficiency at temperature `t` and damage `f`. */
  function TransferEfficiency(exp: real -> real, t: real, f: real := 0.0): (eta: real)
    requires ExpLaws(exp)
    ensures eta <= EfficiencyCap
    ensures 0.0 <= f ==> BaseTransferEfficiency <= eta
    ensures t <= ReferenceTemperature ==>
              eta == Min(BaseTransferEfficiency * DamageFactor(f), EfficiencyCap)
  {
    DamageScaled(PreheatEfficiency(exp, t), f)
  }

  /** Cold, undamaged material transfers exactly the base efficiency. */
  lemma ColdTransferEfficiency(exp: real -> real, t: real)
    requires ExpLaws(exp)
    requires t <= ReferenceTemperature
    ensures TransferEfficiency(exp, t, 0.0) == BaseTransferEfficiency
  {
    assert DamageFactor(0.0) == 1.0;
  }

  /** The damage factor and the cap keep the order of two preheat efficiencies,
      and of two damage fractions at one preheat efficiency. */
  lemma DamageScaledMonotone(p1: real, p2: real, f1: real, f2: real)
    requires 0.0 <= p1 <= p2 && 0.0 <= f1 <= f2
    ensures DamageScaled(p1, f1) <= DamageScaled(p2, f2)
  {
    var g1, g2 := DamageFactor(f1), DamageFactor(f2);
    MulMonotoneBoth(p1, p2, g1, g2);
    MinMonotone(p1 * g1, p2 * g2, EfficiencyCap);
  }

  /** Hotter or more damaged material never transfers less. */
  lemma TransferEfficiencyMonotone(exp: real -> real, t1: real, t2: real, f1: real, f2: real)
    requires ExpLaws(exp)
    requires t1 <= t2 && 0.0 <= f1 <= f2
    ensures TransferEfficiency(exp, t1, f1) <= TransferEfficiency(exp, t2, f2)
  {
    PreheatEfficiencyMonotone(exp, t1, t2);
    DamageScaledMonotone(PreheatEfficiency(exp, t1), PreheatEfficiency(exp, t2), f1, f2);
  }

  /** Energy per unit volume the removal needs: melting (only below the melting
      point) plus vaporisation, floored at a tenth of the specific energy. */
  function RemovalEnergy(t: real): (e: real)
    ensures EnergyFloorFraction * SpecificEnergy <= e
    ensures t < MeltingPoint ==> e == Rho * (LatentHeatFusion + LatentHeatVaporization)
    ensures MeltingPoint <= t ==> e == Rho * LatentHeatVaporization
  {
    var melt := if t < MeltingPoint then Rho * LatentHeatFusion else 0.0;
    var vaporize := Rho * LatentHeatVaporization;
    Max(melt + vaporize, SpecificEnergy * EnergyFloorFraction)
  }

  /** The sensible heat already supplied by preheating is not credited: any two
      temperatures on the same side of the melting point need the same energy. */
  lemma RemovalEnergyIgnoresPreheat(t1: real, t2: real)
    requires (t1 < MeltingPoint) == (t2 < MeltingPoint)
    ensures RemovalEnergy(t1) == RemovalEnergy(t2)
    ensures t1 < MeltingPoint ==> RemovalEnergy(t1) == RemovalEnergy(ReferenceTemperature)
  {
  }

  /** Volume removal rate in m^3/s, with no activation gate. */
  function MaterialRemovalRate(exp: real -> real, t: real, f: real := 0.0): (v: real)
    requires ExpLaws(exp)
    ensures v * RemovalEnergy(t) == PlasmaPower * ArcEfficiency * TransferEfficiency(exp, t, f)
  {
    var power := PlasmaPower * ArcEfficiency * TransferEfficiency(exp, t, f);
    var e := RemovalEnergy(t);
    assert power / e * e == power;
    power / e
  }

  /** The rate is positive for any non-negative damage, and never exceeds the arc
      power at the capped efficiency over the vaporisation energy. */
  lemma MaterialRemovalRateBounds(exp: real -> real, t: real, f: real)
    requires ExpLaws(exp)
    requires 0.0 <= f
    ensures 0.0 < MaterialRemovalRate(exp, t, f)
    ensures MaterialRemovalRate(exp, t, f)
              <= PlasmaPower * ArcEfficiency * EfficiencyCap / (Rho * LatentHeatVaporization)
  {
    var g := PlasmaPower * ArcEfficiency;
    var eta := TransferEfficiency(exp, t, f);
    var e := RemovalEnergy(t);
    QuotientBounds(g, eta, EfficiencyCap, e, Rho * LatentHeatVaporization);
    MulPositive(g, eta);
    assert MaterialRemovalRate(exp, t, f) == g * eta / e;
  }

  /** Cross-section of a kerf of width `w`, pi (w/2)^2; the branches on the sign
      of the radius only carry the positivity argument. */
  function KerfArea(w: real): (a: real)
    ensures w != 0.0 ==> 0.0 < a
    ensures w == 0.0 ==> a == 0.0
  {
    var r := w / 2.0;
    if r > 0.0 then
      MulPositive(Pi, r);
      var pr := Pi * r;
      MulPositive(pr, r);
      pr * r
    else if r < 0.0 then
      var m := -r;
      MulPositive(Pi, m);
      var pm := Pi * m;
      MulPositive(pm, m);
      pm * m
    else 0.0
  }

  /** The kerf area is the disc area for radius w/2, whatever the sign of w. */
  lemma KerfAreaIsDisc(w: real)
    ensures KerfArea(w) == Pi * (w / 2.0) * (w / 2.0)
  {
  }

  /** Linear drilling rate in m/hr: the volume rate over the kerf area, per hour.
      A zero kerf width divides by zero, which numpy turns into inf or nan. */
  function DrillingRate(exp: real -> real, t: real, f: real := 0.0, kerfWidth: real := 0.001): (r: Float)
    requires ExpLaws(exp)
    ensures r.NonFinite? <==> kerfWidth == 0.0
    ensures r.Finite? ==>
              r.value * KerfArea(kerfWidth) == SecondsPerHour * MaterialRemovalRate(exp, t, f)
  {
    var v := MaterialRemovalRate(exp, t, f);
    var a := KerfArea(kerfWidth);
    if a == 0.0 then NonFinite
    else
      assert v / a * a == v;
      Finite(v / a * SecondsPerHour)
  }

  /** For a non-zero kerf and non-negative damage the drilling rate is positive,
      and a wider kerf drills more slowly. */
  lemma DrillingRatePositive(exp: real -> real, t: real, f: real, w1: real, w2: real)
    requires ExpLaws(exp)
    requires 0.0 <= f && 0.0 < w1 <= w2
    ensures 0.0 < DrillingRate(exp, t, f, w2).value <= DrillingRate(exp, t, f, w1).value
  {
    var v := MaterialRemovalRate(exp, t, f);
    MaterialRemovalRateBounds(exp, t, f);
    var a1, a2 := KerfArea(w1), KerfArea(w2);
    var r1, r2 := w1 / 2.0, w2 / 2.0;
    MulMonotone(r1, r2, Pi);
    MulMonotoneBoth(Pi * r1, Pi * r2, r1, r2);
    assert a1 <= a2;
    DivAntitone(v, a1, a2);
    DivPositive(v, a2);
    MulPositive(v / a2, SecondsPerHour);
    MulMonotone(v / a2, v / a1, SecondsPerHour);
  }
}
