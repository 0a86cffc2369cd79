/** The impact estimator: cost and carbon footprint of a part from its material and volume. */
module Estimator {
  import opened Common

  /** The result object `{cost_usd, carbon_kg}`. */
  datatype Impact = Impact(costUsd: real, carbonKg: real)

  /** A record of the material registry: numeric properties by key. */
  type MaterialRecord = map<string, real>

  /** The material registry lookup; `None` when the registry or the material is missing. */
  type MaterialLookup = string -> Option<MaterialRecord>

  const DensityKey: string := "density_g_cm3"
  const CostKey: string := "cost_per_kg"
  const Co2Key: string := "co2_kg_per_kg"

  /** Python's `round(x, 2)` on an exact real: to the nearest multiple of 0.01,
      ties to the even multiple. */
  function Round2(x: real): real
  {
    var y := x * 100.0;
    var n := y.Floor;
    var frac := y - n as real;
    var k := if frac < 0.5 then n else if frac > 0.5 then n + 1 else if n % 2 == 0 then n else n + 1;
    k as real / 100.0
  }

  /** Rounding to two decimals never reverses the order of two amounts. */
  lemma Round2Monotone(x: real, y: real)
    requires x <= y
    ensures Round2(x) <= Round2(y)
  {
    var nx, ny := (x * 100.0).Floor, (y * 100.0).Floor;
    assert nx <= ny;
  }

  /** Rounding to two decimals moves an amount by at most half a cent. */
  lemma Round2Error(x: real)
    ensures -0.005 <= Round2(x) - x <= 0.005
  {
  }

  /** A non-negative amount rounds to a non-negative amount. */
  lemma Round2NonNegative(x: real)
    requires x >= 0.0
    ensures Round2(x) >= 0.0
  {
    Round2Monotone(0.0, x);
  }

  /** The CO2 factor of a record, 0 when the record has none. */
  function Co2Factor(rec: MaterialRecord): real
  {
    if Co2Key in rec then rec[Co2Key] else 0.0
  }

  /** The mass in kilograms of a volume in cubic millimetres at a density in g/cm3:
      mm3 to cm3, times the density gives grams, grams to kilograms. */
  function MassKg(volumeMm3: real, density: real): real
  {
    var volCm3 := volumeMm3 / 1000.0;
    var massG := volCm3 * density;
    massG / 1000.0
  }

  /** The cost of a mass before rounding: the material cost plus a manufacturing
      surcharge of three times the material cost. */
  function TotalCost(massKg: real, costPerKg: real): real
  {
    var materialCost := massKg * costPerKg;
    var manufacturingCost := materialCost * 3.0;
    materialCost + manufacturingCost
  }

  /** The carbon footprint of a mass before rounding, at a CO2 factor per kilogram. */
  function Footprint(massKg: real, co2PerKg: real): real
  {
    massKg * co2PerKg
  }

  /** `estimate_impact`: `None` for an unknown (or empty) material record, a
      `KeyError` for a record without density or cost, and otherwise the rounded
      cost and the rounded carbon footprint. */
  function EstimateImpact(lookup: MaterialLookup, materialName: string, volumeMm3: real): (r: Result<Option<Impact>, Error>)
    ensures r == Success(None) <==> lookup(materialName).None? || lookup(materialName).value == map[]
    ensures r.Failure? <==>
      lookup(materialName).Some? && lookup(materialName).value != map[]
      && (DensityKey !in lookup(materialName).value || CostKey !in lookup(materialName).value)
    ensures r.Failure? ==>
      r.error == KeyError(if DensityKey !in lookup(materialName).value then DensityKey else CostKey)
  {
    match lookup(materialName)
    case None => Success(None)
    case Some(props) =>
      if props == map[] then Success(None)
      else if DensityKey !in props then Failure(KeyError(DensityKey))
      else
        var massKg := MassKg(volumeMm3, props[DensityKey]);
        if CostKey !in props then Failure(KeyError(CostKey))
        else
          var totalCost := Round2(TotalCost(massKg, props[CostKey]));
          var carbonFootprint := Round2(Footprint(massKg, Co2Factor(props)));
          Success(Some(Impact(totalCost, carbonFootprint)))
  }

  /** A complete record: the keys the estimate reads are present. */
  predicate Complete(rec: MaterialRecord)
  {
    DensityKey in rec && CostKey in rec
  }

  /** The estimate of a complete record: cost is four times the material cost, carbon
      is mass times the CO2 factor, both rounded to cents. */
  lemma EstimateFormula(lookup: MaterialLookup, materialName: string, volumeMm3: real)
    requires lookup(materialName).Some? && Complete(lookup(materialName).value)
    ensures var rec := lookup(materialName).value;
      var mass := MassKg(volumeMm3, rec[DensityKey]);
      && mass == volumeMm3 / 1000.0 * rec[DensityKey] / 1000.0
      && TotalCost(mass, rec[CostKey]) == 4.0 * (mass * rec[CostKey])
      && EstimateImpact(lookup, materialName, volumeMm3)
           == Success(Some(Impact(Round2(TotalCost(mass, rec[CostKey])), Round2(Footprint(mass, Co2Factor(rec))))))
  {
    assert lookup(materialName).value != map[] by { assert DensityKey in lookup(materialName).value; }
  }

  /** A record without a CO2 factor gives a carbon footprint of zero. */
  lemma MissingCo2GivesZeroCarbon(lookup: MaterialLookup, materialName: string, volumeMm3: real)
    requires lookup(materialName).Some? && Complete(lookup(materialName).value)
    requires Co2Key !in lookup(materialName).value
    ensures EstimateImpact(lookup, materialName, volumeMm3).Success?
    ensures EstimateImpact(lookup, materialName, volumeMm3).value.Some?
    ensures EstimateImpact(lookup, materialName, volumeMm3).value.value.carbonKg == 0.0
  {
  }

  /** Non-negative record properties. */
  predicate NonNegativeRecord(rec: MaterialRecord)
  {
    Complete(rec) && rec[DensityKey] >= 0.0 && rec[CostKey] >= 0.0 && Co2Factor(rec) >= 0.0
  }

  lemma MulMonotone(a: real, b: real, k: real)
    requires a <= b && k >= 0.0
    ensures a * k <= b * k
  {
    assert b * k - a * k == (b - a) * k;
  }

  lemma MassMonotone(v1: real, v2: real, d: real)
    requires v1 <= v2 && d >= 0.0
    ensures MassKg(v1, d) <= MassKg(v2, d)
  {
    MulMonotone(v1 / 1000.0, v2 / 1000.0, d);
  }

  /** The pre-rounding cost never decreases with the mass at a non-negative price. */
  lemma TotalCostMonotone(m1: real, m2: real, c: real)
    requires m1 <= m2 && c >= 0.0
    ensures TotalCost(m1, c) <= TotalCost(m2, c)
  {
    MulMonotone(m1, m2, c);
  }

  /** The pre-rounding footprint never decreases with the mass at a non-negative factor. */
  lemma FootprintMonotone(m1: real, m2: real, f: real)
    requires m1 <= m2 && f >= 0.0
    ensures Footprint(m1, f) <= Footprint(m2, f)
  {
    MulMonotone(m1, m2, f);
  }

  /** With a non-negative volume and record, cost and carbon are non-negative. */
  lemma EstimateNonNegative(lookup: MaterialLookup, materialName: string, volumeMm3: real)
    requires lookup(materialName).Some? && NonNegativeRecord(lookup(materialName).value)
    requires volumeMm3 >= 0.0
    ensures EstimateImpact(lookup, materialName, volumeMm3).Success?
    ensures var i := EstimateImpact(lookup, materialName, volumeMm3).value;
      i.Some? && i.value.costUsd >= 0.0 && i.value.carbonKg >= 0.0
  {
    var rec := lookup(materialName).value;
    var d, c, f := rec[DensityKey], rec[CostKey], Co2Factor(rec);
    var mass := MassKg(volumeMm3, d);
    MassMonotone(0.0, volumeMm3, d);
    TotalCostMonotone(0.0, mass, c);
    FootprintMonotone(0.0, mass, f);
    EstimateFormula(lookup, materialName, volumeMm3);
    Round2NonNegative(TotalCost(mass, c));
    Round2NonNegative(Footprint(mass, f));
  }

  /** For a fixed non-negative record, cost and carbon never decrease as the volume grows. */
  lemma EstimateMonotoneInVolume(lookup: MaterialLookup, materialName: string, v1: real, v2: real)
    requires lookup(materialName).Some? && NonNegativeRecord(lookup(materialName).value)
    requires v1 <= v2
    ensures EstimateImpact(lookup, materialName, v1).Success? && EstimateImpact(lookup, materialName, v2).Success?
    ensures var i1, i2 := EstimateImpact(lookup, materialName, v1).value, EstimateImpact(lookup, materialName, v2).value;
      i1.Some? && i2.Some? && i1.value.costUsd <= i2.value.costUsd && i1.value.carbonKg <= i2.value.carbonKg
  {
    var rec := lookup(materialName).value;
    var d, c, f := rec[DensityKey], rec[CostKey], Co2Factor(rec);
    var m1, m2 := MassKg(v1, d), MassKg(v2, d);
    MassMonotone(v1, v2, d);
    TotalCostMonotone(m1, m2, c);
    FootprintMonotone(m1, m2, f);
    EstimateFormula(lookup, materialName, v1);
    EstimateFormula(lookup, materialName, v2);
    Round2Monotone(TotalCost(m1, c), TotalCost(m2, c));
    Round2Monotone(Footprint(m1, f), Footprint(m2, f));
  }
}
