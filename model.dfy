/**
 * The straw-house emissions adjustment as pure functions: keep the rows of
 * the emissions table that belong to the configured country, then derive,
 * for every kept row, the housing-sector emissions, the adoption intensity
 * of straw houses, the reduction they bring and the adjusted emissions.
 */
module StrawHouseModel {
  import opened Power

  /** One row of the emissions table: a country, a year and its total CO2. */
  datatype EmissionsRow = EmissionsRow(country: string, year: int, co2: real)

  /** One row of the result: the year and the three derived columns. */
  datatype AdjustedRow = AdjustedRow(year: int, cHousing: real, cStraw: real, cAdjusted: real)

  /**
   * The scalar parameters of an analysis: the country to keep, the reduction
   * per unit of adoption `r`, the housing share `h` in percent, the year
   * adoption starts, and the yearly degradation and growth rates.
   */
  datatype Params = Params(
    country: string,
    r: real,
    h: real,
    startingYear: int,
    degradationRate: real,
    growthRate: real)

  /** The defaults of the analysis' constructor. */
  const DefaultR: real := 10.0
  const DefaultH: real := 25.0
  const DefaultStartingYear: int := 1950
  const DefaultDegradationRate: real := 0.02
  const DefaultGrowthRate: real := 0.05

  /** The parameters bound when only the country is given. */
  function DefaultParams(country: string): (p: Params)
    ensures p.country == country
    ensures ValidParams(p)
  {
    Params(country, DefaultR, DefaultH, DefaultStartingYear, DefaultDegradationRate, DefaultGrowthRate)
  }

  /** The rates the model is meant for: a degradation rate in [0, 1). */
  predicate ValidParams(p: Params) {
    0.0 <= p.degradationRate < 1.0
  }

  /** What the model needs of the exponential function it is given. */
  ghost predicate IsExp(exp: real -> real) {
    exp(0.0) == 1.0 && forall x :: exp(x) > 0.0
  }

  /** The share of a year's emissions attributed to housing. */
  function Housing(p: Params, co2: real): (c: real)
    ensures c * 100.0 == co2 * p.h
  {
    co2 * (p.h / 100.0)
  }

  /** The indicator of `year >= startingYear`, as a number. */
  function Gate(p: Params, year: int): (g: real)
    ensures g == 0.0 || g == 1.0
    ensures g == 1.0 <==> year >= p.startingYear
  {
    if year >= p.startingYear then 1.0 else 0.0
  }

  /** Exponential growth of adoption, evaluated for every year. */
  function Growth(p: Params, exp: real -> real, year: int): (g: real)
    ensures IsExp(exp) ==> g > 0.0
    ensures IsExp(exp) && (year == p.startingYear || p.growthRate == 0.0) ==> g == 1.0
  {
    exp(p.growthRate * (year - p.startingYear) as real)
  }

  /** The degradation factor `(1 - degradationRate) ^ (year - startingYear)`, negative exponents included. */
  function Degradation(p: Params, year: int): (d: real)
    requires ValidParams(p)
    ensures d > 0.0
    ensures year == p.startingYear ==> d == 1.0
  {
    IntPow(1.0 - p.degradationRate, year - p.startingYear)
  }

  /** Adoption intensity `S`: the gate times growth, then times degradation. */
  function Intensity(p: Params, exp: real -> real, year: int): (s: real)
    requires ValidParams(p)
    ensures year < p.startingYear ==> s == 0.0
    ensures year >= p.startingYear ==> s == Growth(p, exp, year) * Degradation(p, year)
  {
    Gate(p, year) * Growth(p, exp, year) * Degradation(p, year)
  }

  /** The output row derived from one kept input row. */
  function AdjustRow(p: Params, exp: real -> real, row: EmissionsRow): (a: AdjustedRow)
    requires ValidParams(p)
    ensures a.year == row.year
    ensures a.cStraw == Intensity(p, exp, row.year) * p.r
    ensures a.cAdjusted + a.cStraw == a.cHousing
  {
    var cHousing := Housing(p, row.co2);
    var cStraw := Intensity(p, exp, row.year) * p.r;
    AdjustedRow(row.year, cHousing, cStraw, cHousing - cStraw)
  }

  /** The rows of `rows` whose country is `country`, in their original order. */
  function FilterCountry(rows: seq<EmissionsRow>, country: string): (kept: seq<EmissionsRow>)
    ensures |kept| <= |rows|
    ensures forall x :: x in kept <==> x in rows && x.country == country
  {
    if rows == [] then []
    else
      var last := rows[|rows| - 1];
      var front := FilterCountry(rows[..|rows| - 1], country);
      assert rows == rows[..|rows| - 1] + [last];
      if last.country == country then front + [last] else front
  }

  /** The ascending indices below `n` of the rows whose country is `country`. */
  function MatchingIndices(rows: seq<EmissionsRow>, country: string, n: nat): (idx: seq<nat>)
    requires n <= |rows|
    ensures |idx| <= n
    ensures forall k :: 0 <= k < |idx| ==> idx[k] < n
    ensures forall k, l :: 0 <= k < l < |idx| ==> idx[k] < idx[l]
    ensures forall i :: 0 <= i < n ==> (i in idx <==> rows[i].country == country)
  {
    if n == 0 then []
    else
      var front := MatchingIndices(rows, country, n - 1);
      if rows[n - 1].country == country then front + [n - 1] else front
  }

  /** Every row mapped through `AdjustRow`, one output row per input row, in order. */
  function CalculateRows(p: Params, exp: real -> real, rows: seq<EmissionsRow>): (out: seq<AdjustedRow>)
    requires ValidParams(p)
    ensures |out| == |rows|
    ensures forall i :: 0 <= i < |rows| ==> out[i] == AdjustRow(p, exp, rows[i])
  {
    if rows == [] then []
    else CalculateRows(p, exp, rows[..|rows| - 1]) + [AdjustRow(p, exp, rows[|rows| - 1])]
  }

  /** The whole calculation: the country's rows, each turned into an output row. */
  function FilterAndCalculate(p: Params, exp: real -> real, data: seq<EmissionsRow>): (out: seq<AdjustedRow>)
    requires ValidParams(p)
    ensures |out| == |FilterCountry(data, p.country)|
    ensures forall k :: 0 <= k < |out| ==> out[k].year == FilterCountry(data, p.country)[k].year
  {
    CalculateRows(p, exp, FilterCountry(data, p.country))
  }
}
