/** The rock material database: six records keyed by lower-case name, a
    case-insensitive lookup that fails loudly on a miss, the acoustic impedance
    and thermal diffusivity with their fallbacks to derived values, and the
    drilling rate estimate.

    A database is an ordered list of (key, record) pairs, as a Python dict keeps
    its insertion order; that order shows in the message of a failed lookup.
    The operations are stated for any database and then applied to the shipped
    one. */
module MaterialProperties {
  import opened Errors
  import opened Options

  /** A value stored in a material record. */
  datatype Value =
    | Num(x: real)                    // a float (or int) property
    | Text(s: string)                 // a name or a description
    | Table(entries: map<string, real>) // a nested dict, e.g. absorptivity per wavelength

  type Record = map<string, Value>

  type Database = seq<(string, Record)>

  /** Keys of a database in insertion order. */
  function Keys(db: Database): (ks: seq<string>)
    ensures |ks| == |db|
    ensures forall i :: 0 <= i < |db| ==> ks[i] == db[i].0
  {
    if db == [] then [] else [db[0].0] + Keys(db[1..])
  }

  /** A dict never holds the same key twice. */
  predicate UniqueKeys(db: Database)
  {
    forall i, j :: 0 <= i < j < |db| ==> db[i].0 != db[j].0
  }

  /** Dictionary lookup: the record stored under `key`, if any. */
  function Find(db: Database, key: string): (r: Option<Record>)
    ensures r.None? <==> key !in Keys(db)
    ensures r.Some? ==> (key, r.value) in db
  {
    if db == [] then None
    else if db[0].0 == key then Some(db[0].1)
    else Find(db[1..], key)
  }

  /** Under unique keys the lookup returns the one record stored under the key. */
  lemma {:induction false} FindStored(db: Database, i: nat)
    requires UniqueKeys(db) && i < |db|
    ensures Find(db, db[i].0) == Some(db[i].1)
  {
    if i > 0 {
      assert db[0].0 != db[i].0;
      assert db[1..][i - 1] == db[i];
      FindStored(db[1..], i - 1);
    }
  }

  /** str.join over a list of strings. */
  function Join(parts: seq<string>, sep: string): string
  {
    if |parts| == 0 then ""
    else if |parts| == 1 then parts[0]
    else parts[0] + sep + Join(parts[1..], sep)
  }

  function LowerChar(c: char): char
  {
    if 'A' <= c <= 'Z' then (c as int + 32) as char else c
  }

  predicate IsUpper(c: char)
  {
    'A' <= c <= 'Z'
  }

  /** str.lower restricted to ASCII letters. */
  function Lower(s: string): (r: string)
    ensures |r| == |s|
    ensures forall i :: 0 <= i < |s| ==> r[i] == LowerChar(s[i])
    ensures forall i :: 0 <= i < |s| ==> !IsUpper(r[i])
  {
    if s == [] then [] else [LowerChar(s[0])] + Lower(s[1..])
  }

  /** Lower-casing twice is lower-casing once. */
  lemma LowerIdempotent(s: string)
    ensures Lower(Lower(s)) == Lower(s)
  {
    var once := Lower(s);
    var twice := Lower(once);
    forall i | 0 <= i < |s|
      ensures twice[i] == once[i]
    {
      assert !IsUpper(once[i]);
    }
  }

  /** A string without upper-case letters is its own lower-case form. */
  lemma LowerOfLowerCase(s: string)
    requires forall i :: 0 <= i < |s| ==> !IsUpper(s[i])
    ensures Lower(s) == s
  {
    var r := Lower(s);
    forall i | 0 <= i < |s|
      ensures r[i] == s[i]
    {
    }
  }

  /** The message of a failed lookup, listing the keys in order. */
  function NotFoundMessage(db: Database, name: string): string
  {
    "Material '" + name + "' not found. Available: " + Join(Keys(db), ", ")
  }

  /** `get_material`: lower-case the name, return the stored record, or raise a
      ValueError that names the request and lists the available keys. */
  function GetMaterialIn(db: Database, name: string): (r: Result<Record>)
    ensures r.Success? <==> Lower(name) in Keys(db)
    ensures r.Success? ==> (Lower(name), r.value) in db
    ensures r.Failure? ==> r.error == ValueError(NotFoundMessage(db, name))
  {
    match Find(db, Lower(name))
    case Some(record) => Success(record)
    case None => Failure(ValueError(NotFoundMessage(db, name)))
  }

  /** Any two spellings that differ only in case find the same record, and a
      name that is already lower case finds the same record as any spelling of it. */
  lemma GetMaterialCaseInsensitive(db: Database, a: string, b: string)
    requires Lower(a) == Lower(b)
    ensures GetMaterialIn(db, a).Success? == GetMaterialIn(db, b).Success?
    ensures GetMaterialIn(db, a).Success? ==> GetMaterialIn(db, a) == GetMaterialIn(db, b)
    ensures GetMaterialIn(db, Lower(a)).Success? == GetMaterialIn(db, a).Success?
    ensures GetMaterialIn(db, a).Success? ==> GetMaterialIn(db, Lower(a)) == GetMaterialIn(db, a)
  {
    LowerIdempotent(a);
  }

  /** Every stored record is reachable through its own key when the keys are
      lower case and distinct. */
  lemma GetMaterialFindsStored(db: Database, i: nat)
    requires UniqueKeys(db) && i < |db|
    requires forall j :: 0 <= j < |db[i].0| ==> !IsUpper(db[i].0[j])
    ensures GetMaterialIn(db, db[i].0) == Success(db[i].1)
  {
    LowerOfLowerCase(db[i].0);
    FindStored(db, i);
  }

  /** Multiplication of two stored values: numbers multiply, anything else is a
      TypeError. */
  function Multiply(a: Value, b: Value): (r: Result<Value>)
    ensures r.Success? <==> a.Num? && b.Num?
    ensures r.Success? ==> r.value.Num? && r.value.x == a.x * b.x
  {
    if a.Num? && b.Num? then Success(Num(a.x * b.x)) else Failure(TypeError)
  }

  /** Float division: a TypeError on a non-number, a ZeroDivisionError on zero. */
  function Divide(a: Value, b: Value): (r: Result<Value>)
    ensures !(a.Num? && b.Num?) ==> r == Failure(TypeError)
    ensures a.Num? && b.Num? && b.x == 0.0 ==> r == Failure(ZeroDivisionError)
    ensures a.Num? && b.Num? && b.x != 0.0 ==> r.Success?
    ensures r.Success? ==> r.value.Num? && r.value.x * b.x == a.x
  {
    if !(a.Num? && b.Num?) then Failure(TypeError)
    else if b.x == 0.0 then Failure(ZeroDivisionError)
    else
      assert a.x / b.x * b.x == a.x;
      Success(Num(a.x / b.x))
  }

  /** `get_acoustic_impedance`: the stored value when present, otherwise
      density times P-wave velocity. */
  function AcousticImpedanceIn(db: Database, name: string): (r: Result<Value>)
    ensures GetMaterialIn(db, name).Failure? ==> r == Failure(GetMaterialIn(db, name).error)
    ensures GetMaterialIn(db, name).Success? ==>
              var mat := GetMaterialIn(db, name).value;
              && ("acoustic_impedance" in mat ==> r == Success(mat["acoustic_impedance"]))
              && ("acoustic_impedance" !in mat && "density" !in mat ==> r == Failure(KeyError("density")))
              && ("acoustic_impedance" !in mat && "density" in mat && "p_wave_velocity" !in mat ==>
                    r == Failure(KeyError("p_wave_velocity")))
              && ("acoustic_impedance" !in mat && "density" in mat && "p_wave_velocity" in mat ==>
                    r == Multiply(mat["density"], mat["p_wave_velocity"]))
  {
    var mat :- GetMaterialIn(db, name);
    if "acoustic_impedance" in mat then Success(mat["acoustic_impedance"])
    else
      var rho :- Subscript(mat, "density");
      var c :- Subscript(mat, "p_wave_velocity");
      Multiply(rho, c)
  }

  /** `get_thermal_diffusivity`: the stored value when present, otherwise
      conductivity over density times specific heat, reading the three keys in
      that order. */
  function ThermalDiffusivityIn(db: Database, name: string): (r: Result<Value>)
    ensures GetMaterialIn(db, name).Failure? ==> r == Failure(GetMaterialIn(db, name).error)
    ensures GetMaterialIn(db, name).Success? ==>
              var mat := GetMaterialIn(db, name).value;
              && ("thermal_diffusivity" in mat ==> r == Success(mat["thermal_diffusivity"]))
              && ("thermal_diffusivity" !in mat ==>
                    && ("thermal_conductivity" !in mat ==> r == Failure(KeyError("thermal_conductivity")))
                    && ("thermal_conductivity" in mat && "density" !in mat ==> r == Failure(KeyError("density")))
                    && ("thermal_conductivity" in mat && "density" in mat && "specific_heat" !in mat ==>
                          r == Failure(KeyError("specific_heat"))))
  {
    var mat :- GetMaterialIn(db, name);
    if "thermal_diffusivity" in mat then Success(mat["thermal_diffusivity"])
    else DerivedDiffusivity(mat)
  }

  /** Conductivity over density times specific heat, read from a record. */
  function DerivedDiffusivity(mat: Record): (r: Result<Value>)
  {
    var k :- Subscript(mat, "thermal_conductivity");
    var rho :- Subscript(mat, "density");
    var cp :- Subscript(mat, "specific_heat");
    var heatCapacity :- Multiply(rho, cp);
    Divide(k, heatCapacity)
  }

  /** The diffusivity fallback: with the three properties stored as numbers
      it is their quotient, a ZeroDivisionError for a zero heat capacity. */
  lemma ThermalDiffusivityFallback(db: Database, name: string, k: real, rho: real, cp: real)
    requires GetMaterialIn(db, name).Success?
    requires var mat := GetMaterialIn(db, name).value;
             && "thermal_diffusivity" !in mat
             && "thermal_conductivity" in mat && mat["thermal_conductivity"] == Num(k)
             && "density" in mat && mat["density"] == Num(rho)
             && "specific_heat" in mat && mat["specific_heat"] == Num(cp)
    ensures rho * cp == 0.0 <==> ThermalDiffusivityIn(db, name) == Failure(ZeroDivisionError)
    ensures rho * cp != 0.0 ==>
              && ThermalDiffusivityIn(db, name).Success?
              && ThermalDiffusivityIn(db, name).value.x * (rho * cp) == k
  {
    var mat := GetMaterialIn(db, name).value;
    assert ThermalDiffusivityIn(db, name) == DerivedDiffusivity(mat);
    DerivedDiffusivityOfNumbers(mat, k, rho, cp);
  }

  /** A record storing the three properties as numbers derives the quotient of
      the conductivity by their heat capacity. */
  lemma DerivedDiffusivityOfNumbers(mat: Record, k: real, rho: real, cp: real)
    requires "thermal_conductivity" in mat && mat["thermal_conductivity"] == Num(k)
    requires "density" in mat && mat["density"] == Num(rho)
    requires "specific_heat" in mat && mat["specific_heat"] == Num(cp)
    ensures DerivedDiffusivity(mat) == Divide(Num(k), Num(rho * cp))
  {
    var heatCapacity := Multiply(Num(rho), Num(cp));
    assert heatCapacity.Success? && heatCapacity.value == Num(rho * cp);
  }

  /** Synergy factor of the combined drill over mechanical drilling. */
  const Synergy: real := 17.0

  /** `estimate_drilling_rate`: the stored mechanical rate, seventeen times it
      for the combined method, or a ValueError naming an unknown method. The
      material is looked up first, so an unknown material wins over an unknown
      method. */
  function EstimateDrillingRateIn(db: Database, name: string, methodName: string := "trifecta"): (r: Result<Value>)
    ensures GetMaterialIn(db, name).Failure? ==> r == Failure(GetMaterialIn(db, name).error)
    ensures GetMaterialIn(db, name).Success? && methodName != "mechanical" && methodName != "trifecta" ==>
              r == Failure(ValueError("Unknown method: " + methodName))
    ensures GetMaterialIn(db, name).Success? && methodName == "mechanical" ==>
              r == Subscript(GetMaterialIn(db, name).value, "drilling_rate_mechanical")
  {
    var mat :- GetMaterialIn(db, name);
    if methodName == "mechanical" then Subscript(mat, "drilling_rate_mechanical")
    else if methodName == "trifecta" then
      var base :- Subscript(mat, "drilling_rate_mechanical");
      Multiply(base, Num(Synergy))
    else Failure(ValueError("Unknown method: " + methodName))
  }

  /** The combined estimate is exactly seventeen times the mechanical one, and
      it succeeds exactly when the mechanical one is a number. */
  lemma TrifectaIsSeventeenfold(db: Database, name: string)
    ensures EstimateDrillingRateIn(db, name, "trifecta").Success? <==>
              EstimateDrillingRateIn(db, name, "mechanical").Success? &&
              EstimateDrillingRateIn(db, name, "mechanical").value.Num?
    ensures EstimateDrillingRateIn(db, name, "trifecta").Success? ==>
              EstimateDrillingRateIn(db, name, "trifecta").value
                == Num(Synergy * EstimateDrillingRateIn(db, name, "mechanical").value.x)
  {
  }

  /** The shipped database, in the order of its source. */
  const Materials: Database := [
    ("granite", map[
      "name" := Text("Granite"),
      "description" := Text("Common igneous rock, primary target"),
      "density" := Num(2700.0),
      "specific_heat" := Num(800.0),
      "thermal_conductivity" := Num(3.0),
      "thermal_diffusivity" := Num(0.00000139),
      "melting_point" := Num(1500.0),
      "vaporization_point" := Num(3000.0),
      "absorptivity" := Table(map["445nm" := 0.15, "532nm" := 0.12, "1064nm" := 0.08]),
      "p_wave_velocity" := Num(5000.0),
      "acoustic_impedance" := Num(13500000.0),
      "specific_energy" := Num(7360000000.0),
      "drilling_rate_mechanical" := Num(2.0)]),
    ("basalt", map[
      "name" := Text("Basalt"),
      "description" := Text("Volcanic rock, slightly softer than granite"),
      "density" := Num(2900.0),
      "specific_heat" := Num(850.0),
      "thermal_conductivity" := Num(2.0),
      "thermal_diffusivity" := Num(0.00000081),
      "melting_point" := Num(1473.0),
      "vaporization_point" := Num(2900.0),
      "absorptivity" := Table(map["445nm" := 0.20]),
      "p_wave_velocity" := Num(5500.0),
      "acoustic_impedance" := Num(16000000.0),
      "specific_energy" := Num(6500000000.0),
      "drilling_rate_mechanical" := Num(2.5)]),
    ("limestone", map[
      "name" := Text("Limestone"),
      "description" := Text("Sedimentary rock, softer than granite"),
      "density" := Num(2400.0),
      "specific_heat" := Num(900.0),
      "thermal_conductivity" := Num(2.5),
      "thermal_diffusivity" := Num(0.00000116),
      "melting_point" := Num(1200.0),
      "vaporization_point" := Num(2600.0),
      "absorptivity" := Table(map["445nm" := 0.10]),
      "p_wave_velocity" := Num(4000.0),
      "acoustic_impedance" := Num(9600000.0),
      "specific_energy" := Num(4000000000.0),
      "drilling_rate_mechanical" := Num(4.0)]),
    ("sandstone", map[
      "name" := Text("Sandstone"),
      "description" := Text("Sedimentary rock, soft and porous"),
      "density" := Num(2200.0),
      "specific_heat" := Num(920.0),
      "thermal_conductivity" := Num(2.0),
      "thermal_diffusivity" := Num(0.00000099),
      "melting_point" := Num(1100.0),
      "vaporization_point" := Num(2500.0),
      "absorptivity" := Table(map["445nm" := 0.12]),
      "p_wave_velocity" := Num(3500.0),
      "acoustic_impedance" := Num(7700000.0),
      "specific_energy" := Num(3000000000.0),
      "drilling_rate_mechanical" := Num(6.0)]),
    ("concrete", map[
      "name" := Text("Concrete"),
      "description" := Text("Common construction material"),
      "density" := Num(2400.0),
      "specific_heat" := Num(880.0),
      "thermal_conductivity" := Num(1.7),
      "thermal_diffusivity" := Num(0.0000008),
      "melting_point" := Num(1400.0),
      "vaporization_point" := Num(2700.0),
      "absorptivity" := Table(map["445nm" := 0.18]),
      "p_wave_velocity" := Num(4200.0),
      "acoustic_impedance" := Num(10100000.0),
      "specific_energy" := Num(3500000000.0),
      "drilling_rate_mechanical" := Num(5.0)]),
    ("marble", map[
      "name" := Text("Marble"),
      "description" := Text("Metamorphic rock, crystalline"),
      "density" := Num(2700.0),
      "specific_heat" := Num(880.0),
      "thermal_conductivity" := Num(2.8),
      "thermal_diffusivity" := Num(0.00000118),
      "melting_point" := Num(1200.0),
      "vaporization_point" := Num(2600.0),
      "absorptivity" := Table(map["445nm" := 0.08]),
      "p_wave_velocity" := Num(5200.0),
      "acoustic_impedance" := Num(14000000.0),
      "specific_energy" := Num(5000000000.0),
      "drilling_rate_mechanical" := Num(3.5)])
  ]

  function GetMaterial(name: string): (r: Result<Record>)
    ensures r.Success? <==> Lower(name) in Keys(Materials)
  {
    GetMaterialIn(Materials, name)
  }

  function AcousticImpedance(name: string): (r: Result<Value>)
    ensures r.Success? <==> Lower(name) in Keys(Materials)
  {
    ShippedRecordsComplete();
    AcousticImpedanceIn(Materials, name)
  }

  function ThermalDiffusivity(name: string): (r: Result<Value>)
    ensures r.Success? <==> Lower(name) in Keys(Materials)
  {
    ShippedRecordsComplete();
    ThermalDiffusivityIn(Materials, name)
  }

  function EstimateDrillingRate(name: string, methodName: string := "trifecta"): (r: Result<Value>)
    ensures r.Success? <==> Lower(name) in Keys(Materials) && (methodName == "mechanical" || methodName == "trifecta")
  {
    ShippedRecordsComplete();
    EstimateDrillingRateIn(Materials, name, methodName)
  }

  /** The shipped keys are distinct and lower case, and every shipped record
      stores its impedance, diffusivity and mechanical rate as numbers. */
  lemma ShippedRecordsComplete()
    ensures UniqueKeys(Materials)
    ensures forall i :: 0 <= i < |Materials| ==> LowerCaseKey(Materials[i].0)
    ensures forall i :: 0 <= i < |Materials| ==> Complete(Materials[i].1)
    ensures forall key, mat :: (key, mat) in Materials ==> Complete(mat)
  {
    ShippedKeysUnique();
    ShippedKeysLowerCase();
    ShippedRecordsStoreValues();
  }

  lemma ShippedKeysUnique()
    ensures UniqueKeys(Materials)
  {
  }

  lemma ShippedKeysLowerCase()
    ensures forall i :: 0 <= i < |Materials| ==> LowerCaseKey(Materials[i].0)
  {
  }

  lemma ShippedRecordsStoreValues()
    ensures forall i :: 0 <= i < |Materials| ==> Complete(Materials[i].1)
  {
  }

  predicate LowerCaseKey(key: string)
  {
    forall j :: 0 <= j < |key| ==> !IsUpper(key[j])
  }

  predicate Complete(mat: Record)
  {
    && "acoustic_impedance" in mat && mat["acoustic_impedance"].Num?
    && "thermal_diffusivity" in mat && mat["thermal_diffusivity"].Num?
    && "drilling_rate_mechanical" in mat && mat["drilling_rate_mechanical"].Num?
  }

  /** A record that stores all three values answers every query from storage. */
  lemma CompleteRecordLookups(db: Database, name: string)
    requires GetMaterialIn(db, name).Success? && Complete(GetMaterialIn(db, name).value)
    ensures var mat := GetMaterialIn(db, name).value;
            && AcousticImpedanceIn(db, name) == Success(mat["acoustic_impedance"])
            && ThermalDiffusivityIn(db, name) == Success(mat["thermal_diffusivity"])
            && EstimateDrillingRateIn(db, name, "mechanical") == Success(mat["drilling_rate_mechanical"])
            && EstimateDrillingRateIn(db, name, "trifecta")
                 == Success(Num(Synergy * mat["drilling_rate_mechanical"].x))
  {
    TrifectaIsSeventeenfold(db, name);
  }

  /** Every shipped material is found under its own key, and so under any
      spelling of that key (see GetMaterialCaseInsensitive). */
  lemma ShippedMaterialFound(i: nat)
    requires i < |Materials|
    ensures GetMaterial(Materials[i].0) == Success(Materials[i].1)
  {
    ShippedRecordsComplete();
    GetMaterialFindsStored(Materials, i);
  }

  /** Every shipped material yields its stored impedance and its stored
      diffusivity, never the derived fallbacks. */
  lemma ShippedStoredValues(i: nat)
    requires i < |Materials|
    ensures Complete(Materials[i].1)
    ensures AcousticImpedance(Materials[i].0) == Success(Materials[i].1["acoustic_impedance"])
    ensures ThermalDiffusivity(Materials[i].0) == Success(Materials[i].1["thermal_diffusivity"])
  {
    ShippedRecordsComplete();
    ShippedMaterialFound(i);
    CompleteRecordLookups(Materials, Materials[i].0);
  }

  /** Every shipped material's mechanical estimate is its stored rate. */
  lemma ShippedMechanicalRate(i: nat)
    requires i < |Materials|
    ensures Complete(Materials[i].1)
    ensures EstimateDrillingRate(Materials[i].0, "mechanical")
              == Success(Materials[i].1["drilling_rate_mechanical"])
  {
    ShippedRecordsComplete();
    ShippedMaterialFound(i);
  }
}
