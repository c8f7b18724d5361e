# Trifecta drill: a verified model of the simulation core

This project models the drilling simulations of the trifecta drill in Dafny. The drill combines three processes:

- acoustic fatigue damage;
- pulsed blue-laser heating;
- plasma cutting.

The model is written over exact reals. It covers five parts of the source.

- **`TrifectaSimulator`** (`trifecta_simulator.dfy`) is the coupled fixed-step integrator. Each step does the following, in order:
  - recompute the damage fraction from the elapsed time;
  - advance one surface temperature by an explicit Euler step, floored at ambient;
  - gate plasma removal on a threshold temperature, using a capped transfer efficiency and a floored residual specific energy;
  - charge the power drawn;
  - append one snapshot to each of six parallel history lists.

  `run` takes `int(duration / dt)` steps.
- **`PlasmaEfficiencyModel`** (`plasma_efficiency.dfy`) is the standalone plasma model. It has:
  - a clipped heat transfer coefficient;
  - a capped transfer efficiency;
  - a removal energy floored at a tenth of the specific energy;
  - the conversion of a volume rate into a linear drilling rate through a kerf.
- **`PulsedLaserHeating`** (`pulsed_laser_heating.dfy`) is the pulsed laser model. It has:
  - the material lookup and the derived duty cycle, peak power and diffusivity;
  - a clamped damage and the absorptivity that depends on it;
  - the rise of a single pulse;
  - the pulse train: a recurrence whose excess over ambient decays geometrically between pulses and stays below the closed-form steady state.
- **`MaterialProperties`** (`material_properties.dfy`) is the rock database. It has:
  - a case-insensitive lookup that raises a ValueError listing the keys on a miss;
  - the acoustic impedance and thermal diffusivity with their fallbacks to derived values;
  - the drilling rate estimate: the stored mechanical rate, or 17 times it for the combined method.
- **`Config`** (`config.dfy`) holds the configuration sections. It has:
  - the section lookup, which falls back to an empty dictionary;
  - the two-rule limit validator.

Three shared modules support them:

- `Numeric` holds numpy's pairwise `max`, `min` and `clip`, Python's `int()` truncation, `np.pi`, integer powers and the exponential laws.
- `Errors` holds the Python exceptions and a `Result` type.
- `Options` holds an `Option` type for a dictionary lookup that does not raise and for a setting's numeric reading.

The models never evaluate `exp`. Every member that needs it takes the function as a parameter, constrained only by `ExpLaws`: `exp(0) = 1`, `exp` is positive, and `exp` is strictly increasing. Every property therefore holds for any function with those laws, the true exponential included.

Python's default arguments are Dafny default parameter values: `dt = 0.001` in `run`, `material = 'granite'`, `beta = 3.0`, `T_ambient = 300`, `n_pulses = 1000`, `f_damage = 0.0`, `kerf_width = 0.001` and `method = 'trifecta'`.

Python code that raises becomes a `Result` failure with the same exception:

- a missing dictionary key is a `KeyError`;
- an unknown material or method is a `ValueError` with the source's message;
- numpy refuses a negative array length with a `ValueError`;
- writing the first sample of an empty train is an `IndexError`;
- arithmetic on a non-number is a `TypeError`;
- a float division by zero is a `ZeroDivisionError`.

numpy's division by zero gives inf or nan instead of raising. That case is the `NonFinite` value of `Numeric.Float`.

Three behaviours of the code are worth stating on their own:

- **Step count.** `run` takes `int(duration / dt)` steps, truncated toward zero (simulations/coupled/trifecta_simulator.py:289). After a reset the history therefore holds `int(duration / dt) + 1` entries.
- **No validation.** `run` validates neither `dt` nor `duration`.
  - A negative quotient runs no steps.
  - A negative `dt` with a negative `duration` runs a positive number of backward steps.
  - Only `dt == 0` fails, with Python's ZeroDivisionError. That is the one precondition of `Run`.
- **Preheat energy.** The plasma model computes a preheat energy and never uses it (simulations/plasma/plasma_efficiency.py:160). `PlasmaEfficiencyModel.RemovalEnergyIgnoresPreheat` states the consequence.

## Model

| member | source | states |
|---|---|---|
| Numeric.Clip | simulations/coupled/trifecta_simulator.py:181 | np.clip as min(max(x, lo), hi): bounded by hi, at least lo for a proper interval, identity inside, and the nearer bound outside |
| Numeric.Trunc | simulations/coupled/trifecta_simulator.py:289 | int() on a float rounds toward zero: for x >= 0 the result n has n <= x < n + 1, for x < 0 it has n - 1 < x <= n |
| TrifectaSimulator.GeometryPositive | simulations/coupled/trifecta_simulator.py:59-60 | the spot area, the kerf area and the heat capacity of the 1 mm slab under the spot are positive, so every division by them is defined |
| TrifectaSimulator.AcousticDamage | simulations/coupled/trifecta_simulator.py:88-106 | the damage is exactly 0 if and only if fewer than one acoustic cycle has elapsed, and always lies in [0, 0.07) |
| TrifectaSimulator.AcousticDamageMonotone | simulations/coupled/trifecta_simulator.py:88-106 | the damage never decreases with elapsed time, across the sub-cycle cutoff too |
| TrifectaSimulator.LaserAbsorption | simulations/coupled/trifecta_simulator.py:108-111 | undamaged rock absorbs the base 0.15; damage never lowers the absorptivity; at the 0.07 damage ceiling it is at most 0.15 * (1 + 3 * 0.07) |
| TrifectaSimulator.LaserAbsorptionMonotone | simulations/coupled/trifecta_simulator.py:108-111 | more damage never lowers the absorptivity |
| TrifectaSimulator.LaserHeating | simulations/coupled/trifecta_simulator.py:113-155 | a zero step changes nothing, and at ambient temperature the change is exactly the absorbed laser power * dt over the slab's heat capacity, because the losses vanish |
| TrifectaSimulator.HeatLossSign | simulations/coupled/trifecta_simulator.py:138-146 | conduction plus radiation losses are non-negative above ambient and non-positive below it, for any non-negative absolute temperature |
| TrifectaSimulator.LaserHeatingLossBounds | simulations/coupled/trifecta_simulator.py:113-155 | for a forward step, above ambient the losses can only slow the heating below the lossless increment, and below ambient they can only add to it |
| TrifectaSimulator.ThermalStress | simulations/coupled/trifecta_simulator.py:157-165 | the stress is zero, positive or negative exactly when the temperature is at, above or below ambient |
| TrifectaSimulator.ThresholdFactor | simulations/coupled/trifecta_simulator.py:180-181 | the clipped position between the threshold and the melting point lies in [0, 1]: 0 up to the threshold, 1 from the melting point on |
| TrifectaSimulator.PreheatEfficiency | simulations/coupled/trifecta_simulator.py:173-182 | the efficiency is the base 0.40 up to and including the threshold, and always lies in [0.40, 0.80) |
| TrifectaSimulator.PreheatEfficiencyMonotone | simulations/coupled/trifecta_simulator.py:173-182 | a hotter surface never has a lower preheat efficiency, including across the threshold |
| TrifectaSimulator.PlasmaEfficiency | simulations/coupled/trifecta_simulator.py:167-191 | never above the 0.95 cap; at or below the threshold it is min(0.40 * (1 + 0.3 f), 0.95), so the value at the threshold does not jump; at least 0.40 for non-negative damage |
| TrifectaSimulator.DamageScaled | simulations/coupled/trifecta_simulator.py:184-188 | scaling an efficiency by the damage factor and capping it never exceeds the 0.95 cap, and keeps at least the base 0.40 for a non-negative damage and an efficiency of at least 0.40 |
| TrifectaSimulator.DamageScaledMonotone | simulations/coupled/trifecta_simulator.py:184-188 | for non-negative damage, a higher efficiency before the damage factor never gives a lower capped efficiency |
| TrifectaSimulator.PlasmaEfficiencyMonotone | simulations/coupled/trifecta_simulator.py:167-191 | for fixed non-negative damage, a hotter surface never has a lower capped efficiency |
| TrifectaSimulator.ResidualEnergy | simulations/coupled/trifecta_simulator.py:216-219 | the residual specific energy is at least a tenth of the specific energy, at most the full specific energy above ambient, and at least the full specific energy at or below ambient |
| TrifectaSimulator.MaterialRemovalRate | simulations/coupled/trifecta_simulator.py:198-224 | the rate is exactly 0 while the plasma is off (below 800 K); while on, rate * residual energy equals the effective plasma power 85 * 0.8 * efficiency |
| TrifectaSimulator.MaterialRemovalRateBounds | simulations/coupled/trifecta_simulator.py:198-224 | for non-negative damage the rate is non-negative, positive whenever the plasma is on, and at most 85 * 0.8 * 0.95 over the floored energy |
| TrifectaSimulator.LinearRate | simulations/coupled/trifecta_simulator.py:246-254 | the linear rate is non-negative, is zero exactly when the volume rate is not positive, and otherwise times the kerf area gives back the volume rate |
| TrifectaSimulator.Reset | simulations/coupled/trifecta_simulator.py:72-86 | time 0, surface at ambient, damage, depth and energy 0, and six aligned single-entry histories recording that state with zero rate and efficiency |
| TrifectaSimulator.SystemEfficiency | simulations/coupled/trifecta_simulator.py:260-265 | zero unless both the depth and the energy used are positive, so also for a zero or negative energy; with both positive it is positive and times the energy equals the ideal removal energy of the drilled kerf volume |
| TrifectaSimulator.PowerDrawn | simulations/coupled/trifecta_simulator.py:256-258 | the drawn power lies between acoustic plus laser power and acoustic plus laser plus plasma power; it is the full sum exactly when the plasma is active at the post-update temperature, and acoustic plus laser exactly when it is not |
| TrifectaSimulator.PlasmaActiveGate | simulations/coupled/trifecta_simulator.py:193-196 | what the activation gate decides: for non-negative damage, material is removed at a positive rate exactly when the gate is open, and the full acoustic plus laser plus plasma power is drawn exactly then |
| TrifectaSimulator.DepthGain | simulations/coupled/trifecta_simulator.py:246-252 | the depth drilled in one step, the linear rate * dt, times the kerf area is exactly the volume removed in dt (the volume rate * dt), and it is zero without a positive volume rate |
| TrifectaSimulator.Step | simulations/coupled/trifecta_simulator.py:226-273 | the clock advances by dt; the damage is recomputed from total elapsed time; the temperature is the Euler update floored at ambient, so never below ambient; the depth grows by exactly the step's drilled depth (the linear rate * dt), so it is unchanged while the plasma is off; energy grows by the drawn power * dt; each history list gains exactly the new snapshot |
| TrifectaSimulator.StepDepthMonotone | simulations/coupled/trifecta_simulator.py:246-254 | a forward step never decreases the depth |
| TrifectaSimulator.StepDepthGrows | simulations/coupled/trifecta_simulator.py:246-254 | a positive step that ends with the plasma on strictly increases the depth |
| TrifectaSimulator.StepRemovalGate | simulations/coupled/trifecta_simulator.py:246-272 | without a positive volume rate the depth is unchanged and the recorded rate is 0; with one and a non-zero step, the depth moves and the recorded rate in m/hr is positive |
| TrifectaSimulator.StepEnergy | simulations/coupled/trifecta_simulator.py:256-258 | a forward step adds at least (760 + 5) * dt to the energy used |
| TrifectaSimulator.Steps | simulations/coupled/trifecta_simulator.py:295-296 | k repeated steps grow every history by exactly k entries, keep the six lists aligned, never decrease the depth for a non-negative dt, and leave the surface at or above ambient |
| TrifectaSimulator.StepCountFits | simulations/coupled/trifecta_simulator.py:289 | for a positive dt the step count is the number of whole steps that fit in the duration (count * dt <= duration < (count + 1) * dt), and a negative duration runs no steps |
| TrifectaSimulator.Run | simulations/coupled/trifecta_simulator.py:275-296 | the loop performs exactly max(0, int(duration / dt)) steps, with dt defaulting to 0.001, so each history grows by that count and stays aligned |
| TrifectaSimulator.ResetRunLength | simulations/coupled/trifecta_simulator.py:289-296 | after reset, a run leaves int(duration / dt) + 1 aligned entries in every history when that quotient is non-negative, and one entry otherwise |
| TrifectaSimulator.ResetEstablishesInvariant | simulations/coupled/trifecta_simulator.py:72-86 | the reset state satisfies the run invariant |
| TrifectaSimulator.StepPreservesInvariant | simulations/coupled/trifecta_simulator.py:226-273 | a forward step keeps the run invariant: aligned histories ending in the current state, all temperatures at or above ambient, damages in [0, 0.07), non-negative rates and efficiencies, non-decreasing times, damages and depths, and energy at least (760 + 5) * elapsed time |
| TrifectaSimulator.StepsPreserveInvariant | simulations/coupled/trifecta_simulator.py:289-296 | the run invariant holds after any number of forward steps from a state that satisfies it |
| PlasmaEfficiencyModel.HeatTransferCoefficient | simulations/plasma/plasma_efficiency.py:77-94 | the coefficient lies in [5e4, 1e5], and is exactly 5e4 at or below 300 K |
| PlasmaEfficiencyModel.HeatTransferCoefficientMonotone | simulations/plasma/plasma_efficiency.py:77-94 | the coefficient never falls as the material heats, and reaches the 1e5 cap at 300 + 2 * (1500 - 300) K |
| PlasmaEfficiencyModel.PreheatFactor | simulations/plasma/plasma_efficiency.py:117-118 | the clipped temperature factor lies in [0, 1]: 0 at or below 300 K, 1 from the melting point on |
| PlasmaEfficiencyModel.PreheatEfficiency | simulations/plasma/plasma_efficiency.py:115-121 | the preheat efficiency lies in [0.40, 0.80) and is exactly 0.40 at or below 300 K |
| PlasmaEfficiencyModel.PreheatEfficiencyMonotone | simulations/plasma/plasma_efficiency.py:115-121 | before the damage factor, the efficiency never decreases with temperature |
| PlasmaEfficiencyModel.DamageFactor | simulations/plasma/plasma_efficiency.py:125 | non-negative damage never shrinks the efficiency (factor at least 1) |
| PlasmaEfficiencyModel.TransferEfficiency | simulations/plasma/plasma_efficiency.py:96-133 | never above 0.95; at least 0.40 for non-negative damage; at or below 300 K it is min(0.40 * (1 + 0.3 f), 0.95); the damage defaults to 0 |
| PlasmaEfficiencyModel.DamageScaled | simulations/plasma/plasma_efficiency.py:123-131 | the damage-scaled, capped efficiency never exceeds 0.95, and keeps at least the base 0.40 for a non-negative damage and an efficiency of at least 0.40 |
| PlasmaEfficiencyModel.DamageScaledMonotone | simulations/plasma/plasma_efficiency.py:123-131 | a higher efficiency before the damage factor, or more non-negative damage, never gives a lower capped efficiency |
| PlasmaEfficiencyModel.ColdTransferEfficiency | simulations/plasma/plasma_efficiency.py:112-121 | at any temperature at or below 300 K with no damage the efficiency is exactly 0.40 |
| PlasmaEfficiencyModel.TransferEfficiencyMonotone | simulations/plasma/plasma_efficiency.py:96-133 | hotter or more damaged material (damage non-negative) never has a lower transfer efficiency |
| PlasmaEfficiencyModel.RemovalEnergy | simulations/plasma/plasma_efficiency.py:162-175 | the divisor is at least a tenth of the specific energy; below the melting point it is rho * (L_melt + L_vap), at or above it rho * L_vap |
| PlasmaEfficiencyModel.RemovalEnergyIgnoresPreheat | simulations/plasma/plasma_efficiency.py:157-175 | the computed preheat energy has no effect: any two temperatures on the same side of the melting point need the same energy, the same as at 300 K below it |
| PlasmaEfficiencyModel.MaterialRemovalRate | simulations/plasma/plasma_efficiency.py:135-180 | there is no activation gate: rate * removal energy equals 85 * 0.8 * transfer efficiency at every temperature; the damage defaults to 0 |
| PlasmaEfficiencyModel.MaterialRemovalRateBounds | simulations/plasma/plasma_efficiency.py:135-180 | for non-negative damage the rate is positive and at most 85 * 0.8 * 0.95 / (rho * L_vap) |
| PlasmaEfficiencyModel.KerfArea | simulations/plasma/plasma_efficiency.py:202 | the kerf area is positive for any non-zero width and zero for a zero width |
| PlasmaEfficiencyModel.KerfAreaIsDisc | simulations/plasma/plasma_efficiency.py:202 | the kerf area is pi * (w / 2)^2 for every width, negative ones included |
| PlasmaEfficiencyModel.DrillingRate | simulations/plasma/plasma_efficiency.py:182-207 | the result is inf or nan exactly when the kerf width is zero; otherwise rate * kerf area equals 3600 times the volume rate; the damage defaults to 0 and the kerf width to 1 mm |
| PlasmaEfficiencyModel.DrillingRatePositive | simulations/plasma/plasma_efficiency.py:182-207 | for non-negative damage and positive widths the rate is positive, and a wider kerf never drills faster |
| PulsedLaserHeating.MaterialsPhysical | simulations/thermal/pulsed_laser_heating.py:34-59 | every row of the model's material table has positive density, specific heat and conductivity and a non-negative absorptivity |
| PulsedLaserHeating.New | simulations/thermal/pulsed_laser_heating.py:24-79 | an unknown material fails with a KeyError naming it; otherwise the heater holds that row, duty = f_pulse * t_pulse, P_peak * duty = P_avg, alpha_th * rho * c_p = k, zero damage and the base absorptivity; the material defaults to granite |
| PulsedLaserHeating.SetAcousticDamage | simulations/thermal/pulsed_laser_heating.py:81-93 | the stored damage is the input clamped to [0, 1] (the input itself inside, 0 below, 1 above); the absorptivity is alpha_base * (1 + beta * stored damage), with beta defaulting to 3.0; material, diffusivity, duty and peak power are unchanged, and a valid heater stays valid |
| PulsedLaserHeating.SetAcousticDamageMonotone | simulations/thermal/pulsed_laser_heating.py:81-93 | for a non-negative base absorptivity and beta, a larger requested damage never gives a lower absorptivity, clamping included |
| PulsedLaserHeating.SetAcousticDamageBounds | simulations/thermal/pulsed_laser_heating.py:92-93 | for beta >= 0 the effective absorptivity lies between alpha_base and alpha_base * (1 + beta) |
| PulsedLaserHeating.SetAcousticDamageLastWins | simulations/thermal/pulsed_laser_heating.py:92-93 | the absorptivity is recomputed from the base value, so a second call overrides the first completely |
| PulsedLaserHeating.ThermalTimeConstant | simulations/thermal/pulsed_laser_heating.py:95-98 | tau is positive and tau * 4 * alpha_th = r_spot^2 |
| PulsedLaserHeating.SinglePulseHeating | simulations/thermal/pulsed_laser_heating.py:100-118 | dT * rho * c_p * (pi r_spot^2 d_pen) equals the pulse energy alpha_eff * P_peak * t_pulse, and dT is non-negative for a non-negative absorptivity |
| PulsedLaserHeating.SinglePulseHeatingLinear | simulations/thermal/pulsed_laser_heating.py:110-118 | scaling the effective absorptivity by c scales the pulse rise by c |
| PulsedLaserHeating.CoolingFactor | simulations/thermal/pulsed_laser_heating.py:136-139 | the cooling factor exp(-(1/f_pulse - t_pulse) / tau) lies strictly between 0 and 1 |
| PulsedLaserHeating.SteadyStateTemperature | simulations/thermal/pulsed_laser_heating.py:120-146 | returns (T_ss, pulse rise, tau) with (T_ss - T_amb) * (1 - beta) = pulse rise, and T_ss at least T_amb plus one pulse rise for a non-negative absorptivity; T_amb defaults to 300 K |
| PulsedLaserHeating.ExcessClosedForm | simulations/thermal/pulsed_laser_heating.py:171-182 | the excess after pulse i is the geometric sum: excess * (1 - beta) = dT * (1 - beta^(i+1)) |
| PulsedLaserHeating.ClosedFormStep | simulations/thermal/pulsed_laser_heating.py:173-180 | one more pulse keeps the geometric sum: if the closed form holds after pulse i - 1, it holds after pulse i |
| PulsedLaserHeating.ExcessBounds | simulations/thermal/pulsed_laser_heating.py:171-182 | for dT >= 0 and 0 <= beta < 1 the excess starts at dT, never decreases from pulse to pulse, and never exceeds dT / (1 - beta) |
| PulsedLaserHeating.PulseTrainBelowSteadyState | simulations/thermal/pulsed_laser_heating.py:134-182 | every sample of the train lies in [T_amb + dT, T_ss], with T_ss the value the steady-state function returns |
| PulsedLaserHeating.SimulatePulseTrain | simulations/thermal/pulsed_laser_heating.py:148-182 | a negative count fails with numpy's ValueError and zero with an IndexError; otherwise n samples at times i / f_pulse, the first T_amb + dT and each later one T_amb + (previous - T_amb) * beta + dT, equal to T_amb plus `Excess`, whose closed form `ExcessClosedForm` gives; n defaults to 1000 and T_amb to 300 K |
| PulsedLaserHeating.TrainSamples | simulations/thermal/pulsed_laser_heating.py:166-182 | the sampling loop yields n times and n temperatures that satisfy the recurrence and the excess form |
| PulsedLaserHeating.TrainFollowsRecurrence | simulations/thermal/pulsed_laser_heating.py:173-180 | any train of ambient-plus-excess samples obeys the pulse-by-pulse update: decay the previous excess by beta, then add dT |
| PulsedLaserHeating.ExtendTrain | simulations/thermal/pulsed_laser_heating.py:173-180 | appending the next recurrence sample to a train in ambient-plus-excess form keeps the whole train in that form |
| MaterialProperties.Keys | code/python/material_properties.py:240 | the keys of the database in insertion order, one per entry |
| MaterialProperties.Find | code/python/material_properties.py:237-238 | the dictionary lookup finds nothing exactly when the key is absent, and otherwise a record stored under that key |
| MaterialProperties.FindStored | code/python/material_properties.py:237-238 | with distinct keys the lookup returns the one record stored under the key |
| MaterialProperties.Lower | code/python/material_properties.py:236 | lower-casing keeps the length, maps each character independently and leaves no upper-case letter |
| MaterialProperties.LowerIdempotent | code/python/material_properties.py:236 | lower-casing twice is lower-casing once |
| MaterialProperties.GetMaterialIn | code/python/material_properties.py:223-241 | succeeds exactly when the lower-cased name is a key, returning a record stored under it; otherwise a ValueError naming the request and listing every key in order |
| MaterialProperties.GetMaterialCaseInsensitive | code/python/material_properties.py:236-238 | two names equal up to case both succeed or both fail, and succeed with the same record, the same as the lower-cased name |
| MaterialProperties.GetMaterialFindsStored | code/python/material_properties.py:236-238 | every record under a distinct lower-case key is returned for that key |
| MaterialProperties.Divide | code/python/material_properties.py:291 | two numbers with a non-zero divisor always divide; a non-number raises a TypeError, a zero divisor a ZeroDivisionError, and a quotient times the divisor gives back the dividend |
| MaterialProperties.AcousticImpedanceIn | code/python/material_properties.py:270-279 | a lookup failure propagates unchanged; a stored impedance is returned as is; otherwise the first missing of density and p_wave_velocity raises a KeyError, and the two present values are multiplied |
| MaterialProperties.ThermalDiffusivityIn | code/python/material_properties.py:281-291 | a lookup failure propagates unchanged; a stored diffusivity is returned as is; otherwise the first missing of conductivity, density and specific heat, in that order, raises a KeyError |
| MaterialProperties.ThermalDiffusivityFallback | code/python/material_properties.py:286-291 | with the three properties stored as numbers and no stored diffusivity, a zero heat capacity raises ZeroDivisionError, and otherwise diffusivity * rho * c_p = k |
| MaterialProperties.EstimateDrillingRateIn | code/python/material_properties.py:293-318 | the material is looked up first and its failure wins; an unknown method is a ValueError "Unknown method: ..."; "mechanical" is the stored mechanical rate; the method defaults to "trifecta" |
| MaterialProperties.TrifectaIsSeventeenfold | code/python/material_properties.py:310-316 | the combined estimate succeeds exactly when the mechanical one is a number, and is then exactly 17 times it |
| MaterialProperties.CompleteRecordLookups | code/python/material_properties.py:270-318 | a record storing all three values answers the impedance and diffusivity queries and both rate estimates from storage |
| MaterialProperties.ShippedRecordsComplete | code/python/material_properties.py:14-217 | the six shipped keys are distinct and lower case, and each record stores its impedance, diffusivity and mechanical rate as numbers |
| MaterialProperties.GetMaterial | code/python/material_properties.py:223-241 | on the shipped database the lookup succeeds exactly for the six names in any casing |
| MaterialProperties.AcousticImpedance | code/python/material_properties.py:270-279 | on the shipped database the impedance query succeeds exactly for the six names in any casing |
| MaterialProperties.ThermalDiffusivity | code/python/material_properties.py:281-291 | on the shipped database the diffusivity query succeeds exactly for the six names in any casing |
| MaterialProperties.EstimateDrillingRate | code/python/material_properties.py:293-318 | on the shipped database the estimate succeeds exactly for a known name with method "mechanical" or "trifecta", the method defaulting to "trifecta" |
| MaterialProperties.ShippedMaterialFound | code/python/material_properties.py:236-238 | every shipped record is found under its own key (and so, by GetMaterialCaseInsensitive, under any casing of it) |
| MaterialProperties.ShippedStoredValues | code/python/material_properties.py:270-291 | every shipped material has all the entries the lookups read, and yields its stored impedance and stored diffusivity, never the derived fallbacks |
| MaterialProperties.ShippedMechanicalRate | code/python/material_properties.py:293-312 | every shipped material's mechanical estimate is its stored mechanical drilling rate |
| Config.GetConfig | code/python/config.py:248-260 | never fails; each of the eight known names returns exactly its own section, so the result is non-empty exactly for those names, and any other name gets an empty dictionary |
| Config.ValidateConfigOf | code/python/config.py:262-280 | succeeds exactly when all seven entries read are present and the five compared ones are numeric, and then reports at most two issues; a missing per-emitter power is the KeyError reported first; every failure is a KeyError or a TypeError |
| Config.ValidateConfigReadable | code/python/config.py:262-280 | on sections holding every entry read, numeric where compared, the validator succeeds with exactly the issues the five readings call for |
| Config.ValidateConfigRules | code/python/config.py:264-280 | the acoustic issue, with its total, is reported exactly when per-emitter power * emitters exceeds the acoustic limit; the laser issue exactly when the average power exceeds the laser limit; nothing else is reported |
| Config.ValidateConfigLimitsAntitone | code/python/config.py:269-274 | raising either limit never adds an issue |
| Config.ValidateConfig | code/python/config.py:262-280 | on the shipped constants (19 * 40 W = 760 W against 850 W, 5 W against 6 W) nothing is reported |
| Config.GetConfigFeedsValidator | code/python/config.py:248-280 | the acoustic, laser and safety sections the lookup serves hold everything the validator reads, and validating them gives the shipped-constant result |

## Left out

- Floating point: every quantity is an exact real. IEEE rounding, overflow and numpy's float64 are not modelled. The literals are the decimal values the source writes, so 100e-6 is exactly 0.0001.
- `exp` is abstract. Only `exp(0) = 1`, positivity and strict monotonicity are assumed, so no numeric value that depends on `exp` is computed.
- MaterialProperties.Lower: folds only the ASCII letters A-Z, one character at a time, so the result always has the input's length and leaves other upper-case letters such as 'É' unchanged. Python's `str.lower` covers all of Unicode: it can change the length ('İ', U+0130, becomes two characters) and it lowers a final 'Σ' depending on its context. On the shipped keys no lookup changes: the only non-ASCII character that lowers to an ASCII letter is U+212A KELVIN SIGN, which gives 'k', and no shipped key contains 'k'.
- Copies and aliasing are not modelled, because records are immutable values here:
  - the shallow `copy()` in `get_material`, and the nested dictionaries that copy shares with the database;
  - `get_config` returning the module's own dictionary object.
- A Python int is not told apart from a float.
- Config.ValidateConfigOf: a text entry in any arithmetic or comparison operand fails with TypeError, so the "succeeds exactly when … numeric" claim matches Python only when no compared entry is text. Python differs in these cases:
  - one of `power_per_emitter` and `n_emitters` is text and the other an int or a bool. `str * int` repeats the string, so Python goes on to read `max_acoustic_power`. It raises KeyError('max_acoustic_power') when that entry is missing, and TypeError on the comparison only when the limit is not text;
  - the compared entries of one rule are both text. Python compares two strings without error.
- Formatting: the validator's message strings are the `Issue` values. The acoustic one carries the total that the source formats into the text.
- Constructor constants the modelled functions never read:
  - `sigma_fracture`, `P_peak_acoustic`, `f_pulse`, `duty_cycle`, `P_pulse`, `tau_thermal` and `t_steady` in the coupled simulator;
  - `T_vap`, `T_plasma`, `d_arc`, `v_gas` and `k_thermal` in the plasma model.
- The plasma model's `thermal_conductivity` and `electrical_conductivity` curves are left out: no modelled function uses them, and they need a square root and an Arrhenius exponential.
- MaterialProperties.GetMaterial: the records omit entries no modelled function reads, so a returned record holds fewer keys than the source's. The omitted keys are `latent_heat_fusion`, `latent_heat_vaporization`, `hardness_mohs`, `thermal_expansion`, `emissivity`, `refractive_index`, `s_wave_velocity`, `damping_factor`, `attenuation`, `quality_factor`, `compressive_strength`, `tensile_strength`, `shear_strength`, `fracture_toughness`, `fracture_threshold`, `youngs_modulus`, `shear_modulus`, `bulk_modulus` and `poissons_ratio`.
- Config.GetConfig: the sections omit entries the validator never reads, so a returned section holds fewer keys than the source's. The omitted keys are `data_dir` and `plots_dir` in the simulation section, and the hardware entries: `interlock_pin` (laser) and `enable_pin` (laser and plasma), `serial_port`, `emergency_stop_pin`, `thermocouple_pin`, `temp_range`, and the `current_pins` and `voltage_pins` maps.
- The `PATHS` and `LOGGING_CONFIG` dictionaries are left out, because `get_config` does not serve them.
- Presentation and I/O are left out: printing, progress markers in `run`, plotting, the validation and `__main__` blocks, and `list_materials` / `compare_materials`, which only print.
- The acoustic pressure-field simulations are not part of this model. They are spatial sums over complex exponentials with random emitter layouts, and the coupled simulator does not read them.
- TrifectaSimulator.Run: requires `dt != 0`, where Python raises ZeroDivisionError. It does not model that failure as a value.
- TrifectaSimulator.LaserHeating: its contract gives the exact increment only at ambient temperature. Elsewhere `TrifectaSimulator.LaserHeatingLossBounds` bounds it by the lossless increment; the radiation term is a fourth power, which the contract does not evaluate.
