/**
 * The analysis object: it binds the emissions table and the parameters once,
 * at construction, and computes the adjusted table column by column on a
 * filtered copy of its data.
 */
module StrawHouseAnalysis {
  import opened StrawHouseModel

  class StrawHouseAnalysis {
    /** The emissions table, as already loaded. */
    const data: seq<EmissionsRow>
    const country: string
    const r: real
    const h: real
    const startingYear: int
    const degradationRate: real
    const growthRate: real

    /** The bound parameters as one record. */
    function Parameters(): (p: Params)
      ensures p.country == country && p.r == r && p.h == h && p.startingYear == startingYear
      ensures p.degradationRate == degradationRate && p.growthRate == growthRate
    {
      Params(country, r, h, startingYear, degradationRate, growthRate)
    }

    /** The object's invariant: the degradation rate lies in [0, 1). */
    predicate Valid() {
      ValidParams(Parameters())
    }

    /** Binds the table and the parameters, with the same defaults as `__init__`. */
    constructor (data: seq<EmissionsRow>, country: string,
                 h: real := DefaultH, r: real := DefaultR, startingYear: int := DefaultStartingYear,
                 degradationRate: real := DefaultDegradationRate, growthRate: real := DefaultGrowthRate)
      requires 0.0 <= degradationRate < 1.0
      ensures Valid()
      ensures this.data == data
      ensures Parameters() == Params(country, r, h, startingYear, degradationRate, growthRate)
    {
      this.data := data;
      this.country := country;
      this.r := r;
      this.h := h;
      this.startingYear := startingYear;
      this.degradationRate := degradationRate;
      this.growthRate := growthRate;
    }

    /**
     * Filters the table to the configured country and derives the housing
     * emissions, the adoption intensity, the reduction and the adjusted
     * emissions, one column at a time; the table itself is left as it is.
     */
    method FilterAndCalculate(exp: real -> real) returns (result: seq<AdjustedRow>)
      requires Valid()
      ensures result == StrawHouseModel.FilterAndCalculate(Parameters(), exp, data)
      ensures |result| == |FilterCountry(data, country)|
    {
      var p := Parameters();
      var countryData := FilterCountry(data, country);
      var n := |countryData|;
      var cHousing := seq(n, i requires 0 <= i < n => Housing(p, countryData[i].co2));
      var s := seq(n, i requires 0 <= i < n => Gate(p, countryData[i].year) * Growth(p, exp, countryData[i].year));
      s := seq(n, i requires 0 <= i < n => s[i] * Degradation(p, countryData[i].year));
      var cStraw := seq(n, i requires 0 <= i < n => s[i] * r);
      var cAdjusted := seq(n, i requires 0 <= i < n => cHousing[i] - cStraw[i]);
      result := seq(n, i requires 0 <= i < n => AdjustedRow(countryData[i].year, cHousing[i], cStraw[i], cAdjusted[i]));
      ghost var spec := StrawHouseModel.FilterAndCalculate(p, exp, data);
      forall k | 0 <= k < n
        ensures result[k] == spec[k]
      {
        assert spec[k] == AdjustRow(p, exp, countryData[k]);
      }
    }
  }

  /**
   * Builds an analysis with only the table and the country, as the script
   * entry point does, and runs the calculation twice: the object binds the
   * default parameters, and both calls give the same result.
   */
  method AnalyzeWithDefaults(data: seq<EmissionsRow>, country: string, exp: real -> real)
    returns (first: seq<AdjustedRow>, second: seq<AdjustedRow>)
    ensures first == second
    ensures first == StrawHouseModel.FilterAndCalculate(DefaultParams(country), exp, data)
  {
    var analysis := new StrawHouseAnalysis(data, country);
    assert analysis.Parameters() == DefaultParams(country);
    first := analysis.FilterAndCalculate(exp);
    second := analysis.FilterAndCalculate(exp);
  }
}
