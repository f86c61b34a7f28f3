/**
 * What the calculation guarantees: the filter keeps exactly the country's
 * rows in order, every output row is derived from its input row by the
 * documented formulas, the start-year gate switches the reduction off,
 * the start year is exact, and without growth the reduction only decays.
 */
module StrawHouseProperties {
  import opened Power
  import opened StrawHouseModel

  /** The first `n` rows, filtered, are the rows at the matching indices below `n`. */
  lemma {:induction false} FilterPrefixSelects(rows: seq<EmissionsRow>, country: string, n: nat)
    requires n <= |rows|
    ensures |FilterCountry(rows[..n], country)| == |MatchingIndices(rows, country, n)|
    ensures forall k :: 0 <= k < |MatchingIndices(rows, country, n)| ==>
      FilterCountry(rows[..n], country)[k] == rows[MatchingIndices(rows, country, n)[k]]
  {
    if n > 0 {
      FilterPrefixSelects(rows, country, n - 1);
      var front := FilterCountry(rows[..n - 1], country);
      var idx := MatchingIndices(rows, country, n - 1);
      assert rows[..n][..n - 1] == rows[..n - 1];
      assert rows[..n][n - 1] == rows[n - 1];
      if rows[n - 1].country == country {
        assert FilterCountry(rows[..n], country) == front + [rows[n - 1]];
        assert MatchingIndices(rows, country, n) == idx + [n - 1];
      } else {
        assert FilterCountry(rows[..n], country) == front;
        assert MatchingIndices(rows, country, n) == idx;
      }
    }
  }

  /**
   * The filter is the selection of the matching rows: one output row per
   * matching input row, taken in ascending index order.
   */
  lemma FilterSelectsMatchingRows(rows: seq<EmissionsRow>, country: string)
    ensures |FilterCountry(rows, country)| == |MatchingIndices(rows, country, |rows|)|
    ensures forall k :: 0 <= k < |FilterCountry(rows, country)| ==>
      FilterCountry(rows, country)[k] == rows[MatchingIndices(rows, country, |rows|)[k]]
  {
    FilterPrefixSelects(rows, country, |rows|);
    assert rows[..|rows|] == rows;
  }

  /** Filtering a concatenation filters each part and keeps their order. */
  lemma {:induction false} FilterAppend(a: seq<EmissionsRow>, b: seq<EmissionsRow>, country: string)
    ensures FilterCountry(a + b, country) == FilterCountry(a, country) + FilterCountry(b, country)
  {
    if b == [] {
      assert a + b == a;
    } else {
      var ab := a + b;
      assert ab[..|ab| - 1] == a + b[..|b| - 1];
      assert ab[|ab| - 1] == b[|b| - 1];
      FilterAppend(a, b[..|b| - 1], country);
    }
  }

  /**
   * Every output row is the adjustment of the matching input row at the same
   * position of the selection, and that row belongs to the configured country.
   */
  lemma OutputRowsFromInput(p: Params, exp: real -> real, data: seq<EmissionsRow>)
    requires ValidParams(p)
    ensures |FilterAndCalculate(p, exp, data)| == |MatchingIndices(data, p.country, |data|)|
    ensures forall k :: 0 <= k < |FilterAndCalculate(p, exp, data)| ==>
      data[MatchingIndices(data, p.country, |data|)[k]].country == p.country &&
      FilterAndCalculate(p, exp, data)[k] == AdjustRow(p, exp, data[MatchingIndices(data, p.country, |data|)[k]])
  {
    FilterSelectsMatchingRows(data, p.country);
    var idx := MatchingIndices(data, p.country, |data|);
    forall k | 0 <= k < |idx|
      ensures data[idx[k]].country == p.country
    {
      assert idx[k] in idx;
    }
  }

  /**
   * The columns of an output row: the year is carried over, the housing
   * emissions are `co2 * h / 100`, the reduction is `S * r` and the adjusted
   * emissions plus the reduction give back the housing emissions.
   */
  lemma ColumnIdentities(p: Params, exp: real -> real, row: EmissionsRow)
    requires ValidParams(p)
    ensures AdjustRow(p, exp, row).year == row.year
    ensures AdjustRow(p, exp, row).cHousing == row.co2 * p.h / 100.0
    ensures AdjustRow(p, exp, row).cStraw == Intensity(p, exp, row.year) * p.r
    ensures AdjustRow(p, exp, row).cAdjusted + AdjustRow(p, exp, row).cStraw == AdjustRow(p, exp, row).cHousing
  {
  }

  /**
   * The gate on the whole output: every output row before the start year has
   * no reduction, and every output row of the start year has exactly `r`.
   */
  lemma GateOnOutput(p: Params, exp: real -> real, data: seq<EmissionsRow>)
    requires ValidParams(p) && IsExp(exp)
    ensures forall k :: 0 <= k < |FilterAndCalculate(p, exp, data)| ==>
      var out := FilterAndCalculate(p, exp, data)[k];
      (out.year < p.startingYear ==> out.cStraw == 0.0 && out.cAdjusted == out.cHousing) &&
      (out.year == p.startingYear ==> out.cStraw == p.r && out.cAdjusted == out.cHousing - p.r)
  {
  }

  /** Before the start year the gate makes `S` zero, whatever the rates and `r`. */
  lemma NoReductionBeforeStart(p: Params, exp: real -> real, row: EmissionsRow)
    requires ValidParams(p)
    requires row.year < p.startingYear
    ensures Intensity(p, exp, row.year) == 0.0
    ensures AdjustRow(p, exp, row).cStraw == 0.0
    ensures AdjustRow(p, exp, row).cAdjusted == AdjustRow(p, exp, row).cHousing
  {
  }

  /** At the start year both exponents are zero, so `S` is exactly one. */
  lemma ExactAtStart(p: Params, exp: real -> real, row: EmissionsRow)
    requires ValidParams(p) && IsExp(exp)
    requires row.year == p.startingYear
    ensures Intensity(p, exp, row.year) == 1.0
    ensures AdjustRow(p, exp, row).cStraw == p.r
    ensures AdjustRow(p, exp, row).cAdjusted == AdjustRow(p, exp, row).cHousing - p.r
  {
  }

  /** Without degradation, `S` from the start year on is the pure growth curve. */
  lemma NoDegradationIsPureGrowth(p: Params, exp: real -> real, year: int)
    requires ValidParams(p)
    requires p.degradationRate == 0.0
    requires year >= p.startingYear
    ensures Intensity(p, exp, year) == Growth(p, exp, year)
  {
    PowOfOne(year - p.startingYear);
    assert Degradation(p, year) == 1.0;
  }

  /** `S` is never negative, and it is positive from the start year on. */
  lemma IntensitySign(p: Params, exp: real -> real, year: int)
    requires ValidParams(p) && IsExp(exp)
    ensures Intensity(p, exp, year) >= 0.0
    ensures year >= p.startingYear ==> Intensity(p, exp, year) > 0.0
  {
  }

  /**
   * With a non-negative `r` the reduction is never negative and the adjusted
   * emissions never exceed the housing emissions; from the start year on,
   * a positive `r` makes them strictly smaller.
   */
  lemma ReductionBounds(p: Params, exp: real -> real, row: EmissionsRow)
    requires ValidParams(p) && IsExp(exp)
    requires p.r >= 0.0
    ensures AdjustRow(p, exp, row).cStraw >= 0.0
    ensures AdjustRow(p, exp, row).cAdjusted <= AdjustRow(p, exp, row).cHousing
    ensures row.year >= p.startingYear && p.r > 0.0 ==>
      AdjustRow(p, exp, row).cAdjusted < AdjustRow(p, exp, row).cHousing
  {
  }

  /**
   * With zero growth and a degradation rate strictly between zero and one,
   * `S` strictly decreases from year to year once adoption has started.
   */
  lemma PureDecayStrictlyDecreasing(p: Params, exp: real -> real, y1: int, y2: int)
    requires ValidParams(p) && IsExp(exp)
    requires p.growthRate == 0.0 && 0.0 < p.degradationRate
    requires p.startingYear <= y1 < y2
    ensures Intensity(p, exp, y2) < Intensity(p, exp, y1)
  {
    assert Growth(p, exp, y1) == 1.0 && Growth(p, exp, y2) == 1.0;
    PowStrictlyDecreasing(1.0 - p.degradationRate, y1 - p.startingYear, y2 - p.startingYear);
  }

  /** With the default parameters, a 1950 row with 1000 units of CO2 gives 250, 10 and 240. */
  lemma DefaultStartYearRow(exp: real -> real)
    requires IsExp(exp)
    ensures AdjustRow(DefaultParams("X"), exp, EmissionsRow("X", 1950, 1000.0)) == AdjustedRow(1950, 250.0, 10.0, 240.0)
  {
  }

  /** With the default parameters, a 1940 row with 1000 units of CO2 gives 250, 0 and 250. */
  lemma DefaultEarlyRow(exp: real -> real)
    ensures AdjustRow(DefaultParams("X"), exp, EmissionsRow("X", 1940, 1000.0)) == AdjustedRow(1940, 250.0, 0.0, 250.0)
  {
  }

  /** A table of three rows, one of another country, keeps the two rows of `"X"` in order. */
  lemma DefaultFilter()
    ensures FilterCountry([EmissionsRow("X", 1950, 1000.0), EmissionsRow("Y", 1950, 1000.0), EmissionsRow("X", 1940, 1000.0)], "X")
      == [EmissionsRow("X", 1950, 1000.0), EmissionsRow("X", 1940, 1000.0)]
  {
  }

  /**
   * The whole calculation with the default parameters on that table: the
   * other country's row is dropped, and the two kept rows give 250, 10, 240
   * and 250, 0, 250.
   */
  lemma DefaultScenario(exp: real -> real)
    requires IsExp(exp)
    ensures FilterAndCalculate(DefaultParams("X"), exp,
      [EmissionsRow("X", 1950, 1000.0), EmissionsRow("Y", 1950, 1000.0), EmissionsRow("X", 1940, 1000.0)])
      == [AdjustedRow(1950, 250.0, 10.0, 240.0), AdjustedRow(1940, 250.0, 0.0, 250.0)]
  {
  }
}
