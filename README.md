# Straw-house emissions adjustment, modelled in Dafny

This project models the computational core of `StrawHouseAnalysis`: an object
that binds a CO2 emissions table and five scalar parameters, and derives per
year how much of a country's emissions come from housing (`C_housing`), how
much a growing but degrading adoption of straw houses would remove
(`C_straw`), and what remains (`C_adjusted`).

The calculation works in two steps:

1. keep the table rows whose `country` is the configured country, in order;
2. for every kept row derive
   - `C_housing = co2 * H / 100`,
   - the adoption intensity `S = [year >= starting_year] * exp(growth_rate * (year - starting_year)) * (1 - degradation_rate) ^ (year - starting_year)`,
   - `C_straw = S * R` and `C_adjusted = C_housing - C_straw`,

   and project the result to `year, C_housing, C_straw, C_adjusted`.

Layout:

- `power.dfy` (module `Power`): integer powers of a real base, `Pow` for
  natural and `IntPow` for all integer exponents, with the facts the model
  needs (positivity, one to any power, strict decrease for a base below one).
- `model.dfy` (module `StrawHouseModel`): the data model (`EmissionsRow`,
  `AdjustedRow`, `Params`), the constructor's defaults, and the calculation as
  pure functions: `FilterCountry`, `AdjustRow` (through `Housing`, `Gate`,
  `Growth`, `Degradation`, `Intensity`), `CalculateRows` and
  `FilterAndCalculate`. `MatchingIndices` is an independent reference for the
  filter: the ascending indices of the matching rows, as a boolean mask selects them.
- `properties.dfy` (module `StrawHouseProperties`): lemmas about the model.
- `analysis.dfy` (module `StrawHouseAnalysis`): the class, whose fields are
  bound once by its constructor (with the Python defaults) and never
  changed, and whose method `FilterAndCalculate` builds the output column by
  column as the Python code does, proved equal to the functional model.

Modelling decisions:

- Numbers are exact `real`s; years are `int`s. `H / 100` is real division, as
  Python 3's `/` is.
- `np.exp` is foreign code: it is a parameter `exp: real -> real` of the
  calculation. Lemmas that need its properties require `IsExp(exp)`:
  `exp(0) == 1` and `exp(x) > 0` for every `x`.
- The degradation power is evaluated for every row, before the start year
  too (a negative exponent gives the reciprocal), and multiplied into the
  already-gated `S`, as the Python code does. On exact reals the lemma
  `NoReductionBeforeStart` shows that the gate then makes `S` zero; with
  floats the Python code can instead give NaN there (see "## Left out").
- The Python code does not check `degradation_rate`. Here `0 <= degradation_rate < 1`
  is a precondition of the constructor (`Valid()` of the object,
  `ValidParams` of the functions). It is not an error path.
- The code raises no error for a degradation rate outside `[0, 1)`, filters
  the table itself, and keeps the table's row order without sorting. The
  model follows the code.
- The emissions table is a `seq<EmissionsRow>` bound at construction. The
  object's fields are `const`, and `FilterAndCalculate` has no `modifies`
  clause. So the method cannot change the table or the object, and two calls
  on the same object return the same result, which is the functional model's
  value (`AnalyzeWithDefaults` shows this for an object built with the defaults).
- The intermediate `S` column, which the Python code stores in its copied frame
  and then projects away, is a local of the method and not part of the output.

## Model

| member | source | states |
|---|---|---|
| `Power.Pow` | StrawHouseAnalysis.py:30 | a natural power of a positive base is positive, and of a non-zero base is non-zero |
| `Power.IntPow` | StrawHouseAnalysis.py:29-30 | the degradation power is positive for a positive base, and for a negative exponent it is the reciprocal of the natural power |
| `Power.PowOfOne` | StrawHouseAnalysis.py:29-30 | a degradation factor of one (rate zero) gives a power of one for every elapsed time |
| `Power.PowStrictlyDecreasing` | StrawHouseAnalysis.py:29-30 | for a factor strictly between zero and one the power strictly decreases as the exponent grows |
| `StrawHouseModel.DefaultParams` | StrawHouseAnalysis.py:6 | the defaults (R 10, H 25, start 1950, degradation 0.02, growth 0.05) bind the given country and satisfy the degradation-rate precondition |
| `StrawHouseModel.FilterCountry` | StrawHouseAnalysis.py:22 | a row is kept exactly when it is in the table and its country is the configured one; no more rows than the table |
| `StrawHouseModel.MatchingIndices` | StrawHouseAnalysis.py:22 | the boolean-mask selection: strictly ascending indices in range, and an index is selected exactly when its row's country matches |
| `StrawHouseModel.Housing` | StrawHouseAnalysis.py:23 | the housing emissions times 100 equal `co2 * H`, i.e. `C_housing` is `H` percent of the total |
| `StrawHouseModel.Gate` | StrawHouseAnalysis.py:26 | the gate is 0 or 1, and it is 1 exactly when the year is at or after the start year |
| `StrawHouseModel.Growth` | StrawHouseAnalysis.py:26 | the growth term is positive, and it is 1 at the start year or when the growth rate is zero |
| `StrawHouseModel.Degradation` | StrawHouseAnalysis.py:29-30 | the degradation factor raised to the elapsed years is positive for every year, and 1 at the start year |
| `StrawHouseModel.Intensity` | StrawHouseAnalysis.py:26-30 | `S` is 0 before the start year and the growth term times the degradation term from the start year on (further properties: `ExactAtStart`, `IntensitySign`, `NoDegradationIsPureGrowth`, `PureDecayStrictlyDecreasing`) |
| `StrawHouseModel.AdjustRow` | StrawHouseAnalysis.py:23-33 | the year is carried over, `C_straw == S * R`, and `C_adjusted + C_straw == C_housing` (further properties: `ColumnIdentities`, `NoReductionBeforeStart`, `ExactAtStart`, `ReductionBounds`) |
| `StrawHouseModel.CalculateRows` | StrawHouseAnalysis.py:23-34 | one output row per kept row, each the pointwise adjustment of the row at the same position |
| `StrawHouseModel.FilterAndCalculate` | StrawHouseAnalysis.py:20-34 | one output row per kept row, carrying that row's year (further properties: `OutputRowsFromInput`, `GateOnOutput`) |
| `StrawHouseProperties.FilterSelectsMatchingRows` | StrawHouseAnalysis.py:22 | the filtered table is exactly the rows at the matching indices, in ascending order, so its length is the number of matching rows |
| `StrawHouseProperties.FilterAppend` | StrawHouseAnalysis.py:22 | filtering a concatenation is the concatenation of the filtered parts: the relative order of rows is preserved |
| `StrawHouseProperties.OutputRowsFromInput` | StrawHouseAnalysis.py:22-34 | the output has one row per matching input row, in order; each comes from a row of the configured country and is that row's adjustment |
| `StrawHouseProperties.ColumnIdentities` | StrawHouseAnalysis.py:23-34 | the year is carried over, `C_housing == co2 * H / 100`, `C_straw == S * R`, and `C_adjusted + C_straw == C_housing` |
| `StrawHouseProperties.GateOnOutput` | StrawHouseAnalysis.py:26-34 | in the whole output, every row before the start year has `C_straw == 0` and `C_adjusted == C_housing`, and every start-year row has `C_straw == R` and `C_adjusted == C_housing - R` |
| `StrawHouseProperties.NoReductionBeforeStart` | StrawHouseAnalysis.py:26-33 | before the start year `S == 0`, `C_straw == 0` and `C_adjusted == C_housing`, whatever the rates, `R` and `exp` |
| `StrawHouseProperties.ExactAtStart` | StrawHouseAnalysis.py:26-33 | at the start year `S == 1`, `C_straw == R` and `C_adjusted == C_housing - R` |
| `StrawHouseProperties.NoDegradationIsPureGrowth` | StrawHouseAnalysis.py:26-30 | with degradation rate zero, `S` from the start year on equals the growth term `exp(growth_rate * (year - starting_year))` |
| `StrawHouseProperties.IntensitySign` | StrawHouseAnalysis.py:26-30 | `S` is never negative and is positive from the start year on |
| `StrawHouseProperties.ReductionBounds` | StrawHouseAnalysis.py:32-33 | for `R >= 0` the reduction is non-negative and `C_adjusted <= C_housing`; from the start year with `R > 0`, strictly less |
| `StrawHouseProperties.PureDecayStrictlyDecreasing` | StrawHouseAnalysis.py:26-30 | with growth rate zero and degradation rate in (0, 1), `S` strictly decreases from one year to any later year once adoption has started |
| `StrawHouseProperties.DefaultStartYearRow` | StrawHouseAnalysis.py:23-33 | with the default parameters a 1950 row of 1000 gives 250, 10 and 240 |
| `StrawHouseProperties.DefaultEarlyRow` | StrawHouseAnalysis.py:23-33 | with the default parameters a 1940 row of 1000 gives 250, 0 and 250 |
| `StrawHouseProperties.DefaultFilter` | StrawHouseAnalysis.py:22 | on a three-row table the other country's row is dropped and the two matching rows keep their order |
| `StrawHouseProperties.DefaultScenario` | StrawHouseAnalysis.py:6-34 | the whole calculation with the defaults on that table gives exactly the two rows (1950, 250, 10, 240) and (1940, 250, 0, 250) |
| `StrawHouseAnalysis.StrawHouseAnalysis.constructor` | StrawHouseAnalysis.py:6-13 | binds the table and every parameter as given, with the Python defaults, and establishes the object invariant |
| `StrawHouseAnalysis.StrawHouseAnalysis.FilterAndCalculate` | StrawHouseAnalysis.py:20-34 | the column-by-column computation equals the functional model on the bound table and parameters, with one row per matching row |
| `StrawHouseAnalysis.AnalyzeWithDefaults` | StrawHouseAnalysis.py:6-34 | an object built from only the table and the country computes with the default parameters, and two calls on it give the same result |

## Left out

- Reading the CSV file (`__read_data`): file and network I/O. The table is given to the constructor as a sequence of rows.
- Plotting (`__plot_results`) and `analyze`, which only plots the result: chart rendering.
- The web dashboards in `main.py` and `app.py`: layout, tabs, sliders and figure dictionaries, which only call the core.
- The "global" analysis mode: the dashboards pass a `by_country` keyword that the constructor does not accept (a Python `TypeError` at the call), and the filter always matches on country. The model has no aggregation across countries.
- Floating-point behaviour: rounding, NaN emissions in the data set, and the `0 ** negative = inf`, `0 * inf = NaN` case for a degradation rate of exactly one. The rate is restricted to `[0, 1)` instead, but that does not rule out overflow: for a rate near one (0.99 and a row 200 years before the start gives `0.01 ** -200`) the power at StrawHouseAnalysis.py:30 overflows to `inf`, and for a strongly negative growth rate `np.exp` at StrawHouseAnalysis.py:26 does, so the gated product `0 * inf` makes `S`, `C_straw` and `C_adjusted` NaN for those pre-start rows. `NoReductionBeforeStart` and `GateOnOutput` hold on exact reals only.
- Integer parameters: every numeric parameter except `starting_year`, which is an integer, is taken as a float (a `real`). In the Python code an integer degradation rate of `0` or `1` makes `degradation_factor` an integer at StrawHouseAnalysis.py:29, so line 30 becomes an integer power by a negative integer exponent for every row before the start year, which numpy refuses with a `ValueError`. The model's rate-zero case (`NoDegradationIsPureGrowth`) corresponds to the float `0.0` only.
- A non-integer `starting_year`: the Python code accepts one, and the exponents at StrawHouseAnalysis.py:26 and :30 then become fractional; the model's start year is an integer and its powers have integer exponents.
- `np.exp` itself: it is a parameter, and only `exp(0) == 1` and positivity are assumed of it where a lemma needs them. So the model does not prove numeric values such as `exp(0.5)` for rows after the start year.
- The pandas frame itself: its index, its extra columns (`country`, `co2`, the intermediate `S`) and the `.copy()`. Immutable sequences stand for the copy.
- `StrawHouseAnalysis.StrawHouseAnalysis.FilterAndCalculate`: its contract ties the result to the functional model. It does not restate the per-row facts; `OutputRowsFromInput` and the row lemmas state those about the model.
