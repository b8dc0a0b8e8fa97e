# COVID-19 chart data pipeline, modelled in Dafny

The chart page reads a CSV table of confirmed COVID-19 cases. Each row is a
country or region, and each date column holds a cumulative count. The page
reshapes the table into chart series. This project models that reshaping,
found in `chart/drawchart.js`:

- **`dataSet.init`** keeps the rows whose last count is not zero.
- **`dataSet.aggregateStates(country)`** makes one series per row of a
  country, named after its province or state. Its points are sorted by
  date and numbered by day. Each point after the first carries the
  difference to the point before it.
- **`dataSet.aggregateCountries()`** sums each country's rows date by date
  into one series per country. Dates are ascending. The first delta is 0
  and each later delta is the difference to the previous date's sum. Dates
  whose sum is not positive are dropped afterwards.
- **`dataSet.filterLow`** works on both results. It cuts every series at its
  first point with more than 15 cases (`threshold`) and renumbers the
  remaining points 0, 1, 2, …. A series with no such point is dropped.
- **`Data`** holds the resulting series and a location list. The list has
  one entry per series, ordered from the largest latest count to the
  smallest. Three setters switch visibility on the entries and the series
  together.
- **`chart.getExtent`** computes the overall least and greatest value of a
  key across several series, for the chart's axes.

Dates are integer timestamps (milliseconds, as `Date.getTime()` returns
them) and counts are integers.

Modules:

| File | Module | Contents |
|---|---|---|
| `seqs.dfy` | `Seqs` | The JavaScript array and `Set` behaviour the pipeline relies on: `filter`, a stable `sort` by a numeric key, `reverse`, and the first-occurrence order of a `Set`. |
| `records.dfy` | `Records` | Rows, samples, points, series, the threshold, and deltas. |
| `threshold.dfy` | `ThresholdFilter` | `filterLow`. |
| `states.dfy` | `States` | The per-region series of `aggregateStates`. |
| `countries.dfy` | `Countries` | The per-date summing of `aggregateCountries`. |
| `chart.dfy` | `Chart` | `getExtent`. |
| `chart_data.dfy` | `ChartData` | The `Data` class and its location list. |
| `dataset.dfy` | `Pipeline` | The `dataSet` object as a class: `init`, `filterLow` on an array of series, and the two aggregations. Each aggregation returns a new `Data`. |

Each loop of the source is a method with loop invariants. The method is
proved equal to a specification function, and the functions carry lemmas
stating what the source promises. Series and points are values. Where the
source writes into a series (`filterLow`), the series sits in an array slot
that the method overwrites. `Data` and `dataSet` are classes whose methods
update their fields.

`filterLow` renumbers `day` but leaves `delta` alone, so the first point
kept after the threshold cut keeps its difference to the point that was
cut off, not 0 (see `ThresholdFilter.KeptPointsDeltas` and
`States.FirstKeptDeltaExample`).

## Model

| member | source | states |
|---|---|---|
| Seqs.Filter | chart/drawchart.js:257 | `filter` keeps exactly the elements that pass the predicate. |
| Seqs.FilterPositions | chart/drawchart.js:257 | `filter` keeps order and drops only failing elements. The result is the input read at strictly increasing positions, and every position whose element passes is among them. |
| Seqs.FilterAppend | chart/drawchart.js:257 | Filtering a concatenation gives the concatenation of the filtered parts. Kept elements stay in input order. |
| Seqs.SortBy | chart/drawchart.js:311-313 | Sorting by a numeric key gives a non-decreasing result. The result is a permutation of the input (same multiset, same length). |
| Seqs.SortByNoDups | chart/drawchart.js:345 | Sorting distinct keys leaves them distinct. |
| Seqs.Reverse | chart/drawchart.js:227 | `reverse` puts element `i` at position `n-1-i`. |
| Seqs.ReverseMultiset | chart/drawchart.js:227 | `reverse` is a permutation. |
| Seqs.Distinct | chart/drawchart.js:331-333 | Iterating a `Set` built from a list yields each element of the list once, and nothing else. |
| Seqs.DistinctFirstOccurrence | chart/drawchart.js:331-333 | A `Set` yields its elements in the order of their first occurrence: of two elements it yields, the earlier occurs in the list before any occurrence of the later. |
| Records.DeltasReconstruct | chart/drawchart.js:316-323 | With consecutive deltas, the first count plus the deltas up to a point gives that point's count. Deltas invert running sums. |
| ThresholdFilter.CrossingIndex | chart/drawchart.js:284-290 | The first index whose count is strictly above the threshold. Every earlier count is at or below it. |
| ThresholdFilter.KeptPoints | chart/drawchart.js:280-291 | Definition of the points one series keeps: the suffix from the first strict crossing, with `day` set to the position. Its properties are proved in `ThresholdFilter.KeptPointsShape` and the lemmas after it. |
| ThresholdFilter.FilterLowSpec | chart/drawchart.js:277-298 | Definition of the list `filterLow` returns: the surviving series, trimmed, in input order. Its properties are proved in `ThresholdFilter.FilterLowSpecShape`, `FilterLowSpecMembers`, `FilterLowSpecAppend` and `FilterLowSpecIdempotent`. |
| ThresholdFilter.Slots | chart/drawchart.js:279-297 | Definition of the array after `filterLow`: each surviving series replaced by its trimmed form, every other series left as it was. |
| ThresholdFilter.FilterLowSpecShape | chart/drawchart.js:277-298 | Every returned series is non-empty and starts above the threshold. There are never more series out than in. |
| ThresholdFilter.SlotsIndex | chart/drawchart.js:279-297 | What the array holds after the filter at a position depends only on the series that was there. |
| ThresholdFilter.KeepFromCrossing | chart/drawchart.js:280-291 | The inner loop, with its `keep` flag and running `idx`, returns the points from the first strict crossing on, renumbered from 0. |
| ThresholdFilter.KeptPointsShape | chart/drawchart.js:284-291 | Everything before the crossing is at or below the threshold. The first kept point is above it. Later points are kept whatever their count. The kept points appear in their original order with `day == i`. |
| ThresholdFilter.KeptPointsDeltas | chart/drawchart.js:284-291 | The cut keeps deltas consecutive. The first kept point keeps its delta to the point that was cut off. |
| ThresholdFilter.KeptPointsEmptyIff | chart/drawchart.js:292-295 | Nothing is kept if and only if no count is above the threshold. |
| ThresholdFilter.KeptPointsAllAbove | chart/drawchart.js:284-291 | When every count is above the threshold, the same dates and counts are kept, only renumbered. |
| ThresholdFilter.KeptPointsIdempotent | chart/drawchart.js:277-298 | Cutting an already cut series changes nothing. |
| ThresholdFilter.KeptPointsExample | chart/drawchart.js:284-291 | 10, 12, 16, 20 keeps 16 as day 0 and 20 as day 1. |
| ThresholdFilter.SurvivesIff | chart/drawchart.js:292-295 | A series is returned if and only if one of its counts is above the threshold. |
| ThresholdFilter.FilterLowSpecMembers | chart/drawchart.js:292-297 | The result holds the trimmed form of every surviving series and nothing else. |
| ThresholdFilter.FilterLowSpecAppend | chart/drawchart.js:279-297 | Series are handled independently and in order: the result for `a + b` is the result for `a` followed by the result for `b`. |
| ThresholdFilter.FilterLowSpecIdempotent | chart/drawchart.js:277-298 | Filtering the result again returns it unchanged. |
| States.Numbered | chart/drawchart.js:314-324 | Definition of the numbered points of one region. Its properties are proved in `States.NumberedShape` and `States.NumberedRoundTrip`. |
| States.StateSeries | chart/drawchart.js:302-324 | Definition of one region's series: named after the state, shown, its points sorted by date and numbered. Its properties are proved in `States.StateSeriesShape`. |
| States.StatesOf | chart/drawchart.js:302-325 | Definition of the series `aggregateStates` builds before the cut: one per row of the country, in row order. Its properties are proved in `States.StatesOfRows`. |
| States.NumberDays | chart/drawchart.js:314-324 | The `forEach` with `currDay` and `prev` produces the numbered points: day = position, location = region, first delta unset, later deltas = consecutive differences. |
| States.NumberedRoundTrip | chart/drawchart.js:316-324 | Numbering keeps every date and count, in order. |
| States.NumberedShape | chart/drawchart.js:314-324 | Every point has `day == i` and the region as location. The first delta is unset. Deltas are consecutive differences. |
| States.FirstKeptDeltaExample | chart/drawchart.js:316-326 | A region at 10 then 20 keeps one point after the cut: day 0, count 20, delta 10. |
| States.BuildStateSeries | chart/drawchart.js:310-324 | The sort and numbering of one region build exactly that region's series. |
| States.StateSeriesShape | chart/drawchart.js:302-325 | A region's series is shown and named after the state. Its points are a permutation of the row's samples, sorted by date and numbered 0..n-1. The first delta is unset and later deltas are consecutive differences. |
| States.StatesOfRows | chart/drawchart.js:302-308 | There is one series per row of the country. A series is in the result if and only if it comes from such a row. |
| Countries.SumMap | chart/drawchart.js:334-344 | Definition of the dictionary's intended content, independent of the loops: each date that occurs, mapped to the sum over the rows of their counts at that date. `Countries.SumByDate` proves the loops compute it. |
| Countries.AddRow | chart/drawchart.js:336-343 | The inner dictionary loop adds each of a row's counts to the sum at its date. Keys stay in first-insertion order. |
| Countries.SumByDate | chart/drawchart.js:335-344 | The dictionary maps exactly the dates that occur to the sum of all of the country's counts at that date. Its keys come in first-occurrence order. |
| Countries.CountryKeys | chart/drawchart.js:345 | Definition of the sorted keys: the distinct dates, sorted ascending. Its properties are proved in `Countries.CountryKeysMembers` and `Countries.CountryKeysIncreasing`. |
| Countries.CountryKeysMembers | chart/drawchart.js:345 | The sorted keys are exactly the dates that occur. Each is a key of the dictionary. |
| Countries.CountryKeysIncreasing | chart/drawchart.js:345 | The sorted keys are strictly ascending. |
| Countries.Indexed | chart/drawchart.js:346-365 | Definition of the points `keys.map` builds before the positive filter. Its properties are proved in `Countries.IndexedDeltas`, `Countries.IndexedDelta` and `Countries.IndexedPoints`. |
| Countries.CountryPoints | chart/drawchart.js:346-366 | The `days`/`delta` index loop and the `map`/`filter` yield the indexed points with positive counts. |
| Countries.IndexedDeltas | chart/drawchart.js:348-354 | Before the positive filter, `day == i`, the first delta is 0, and later deltas are differences of consecutive sums. |
| Countries.IndexedDelta | chart/drawchart.js:348-354 | With ascending keys, each point's delta is 0 at the earliest date. Otherwise it is the difference to the sum at the greatest earlier date. |
| Countries.CountrySeries | chart/drawchart.js:334-367 | Definition of one country's series before the cut. Its properties are proved in `Countries.CountryPointSums`, `CountryDatesExact`, `CountryDatesIncreasing` and `CountryDelta`. |
| Countries.CountriesAll | chart/drawchart.js:331-368 | Definition of the list `aggregateCountries` builds before the cut: one series per distinct country, in `Set` order. Its properties are proved in `Countries.CountriesAllOnePerCountry` and `Seqs.DistinctFirstOccurrence`. |
| Countries.BuildCountrySeries | chart/drawchart.js:334-367 | The loop body for one country builds exactly that country's series. |
| Countries.IndexedPoints | chart/drawchart.js:355-366 | Every point kept by the positive filter carries the country, a positive count, and the dictionary's sum at one of the keys. |
| Countries.CountryPointSums | chart/drawchart.js:334-366 | Every point belongs to the country, has a positive count, and has a date that occurs in its rows. Its count is the sum of the rows' counts at that date. |
| Countries.CountryDatesExact | chart/drawchart.js:334-366 | A date has a point if and only if it occurs in the country's rows with a positive sum. |
| Countries.CountryDatesIncreasing | chart/drawchart.js:345-366 | A country's points have strictly ascending dates. |
| Countries.CountryDelta | chart/drawchart.js:348-366 | Each delta is taken before the non-positive dates are removed. It is 0 at the country's earliest date. Otherwise it is the difference to the sum at the previous date, including a date that was later dropped. |
| Countries.CountryRefilterAtZero | chart/drawchart.js:366 | All counts are positive, so cutting the series at 0 keeps every date and count. |
| Countries.CountriesAllOnePerCountry | chart/drawchart.js:331-368 | There is one series per distinct country. No country appears twice. Every series is some row's country, and every row's country has a series. |
| Chart.Join | chart/drawchart.js:194-197 | Joining two extents keeps the smaller low and the larger high. A pair of `undefined` leaves the other extent as it is. |
| Chart.ExtentOf | chart/drawchart.js:194 | `d3.extent`: both bounds occur among the values and bound all of them. Empty input gives `[undefined, undefined]`. |
| Chart.GetExtent | chart/drawchart.js:191-203 | `undefined` if and only if there are no arrays. `[undefined, undefined]` if and only if every array is empty. Otherwise both bounds are values of the key that bound every value. |
| ChartData.LocationListOrdered | chart/drawchart.js:211-230 | The location list has one entry per series, is a permutation of the entries, and is non-increasing in `maxConfirmed`. |
| ChartData.LocationList | chart/drawchart.js:208-230 | Definition of `getLocationList`: the entries sorted ascending by `maxConfirmed`, then reversed. Its properties are proved in `ChartData.LocationListOrdered` and `ChartData.LocationListEntries`. |
| ChartData.LocationListEntries | chart/drawchart.js:211-221 | An entry is in the list if and only if some series has the entry's location, its last count as `maxConfirmed`, its first date as `start`, and `show` set exactly when no visible set is given or the set holds its location. |
| ChartData.Data.constructor | chart/drawchart.js:207-209 | Keeps the series and builds their location list with every entry shown. Entries and series then agree on visibility. |
| ChartData.Data.ShowEntries | chart/drawchart.js:236 | `forEach(setShow)` over the location list updates each entry's `show` and nothing else. |
| ChartData.Data.ShowSeries | chart/drawchart.js:237 | `forEach(setShow)` over the series updates each series' `show` and nothing else. |
| ChartData.Data.SetVisibleLocations | chart/drawchart.js:233-238 | Shows exactly the listed locations in both lists. With no list, it hides all. Everything else is unchanged, and entries and series agree afterwards. |
| ChartData.Data.SetVisibilityForAll | chart/drawchart.js:240-244 | Sets `show` on every entry and series and changes nothing else. |
| ChartData.Data.SetVisibilityForLocation | chart/drawchart.js:246-252 | Sets `show` only on the entries and series of that location. Every other entry keeps its value, and agreement is preserved. |
| Pipeline.HasCases | chart/drawchart.js:257 | Definition of the filter of `init`: the row's last count is not zero. |
| Pipeline.FilterLowReady | chart/drawchart.js:292-297 | Every series that `filterLow` returns has points and keeps its `show`. |
| Pipeline.DataSet.constructor | chart/drawchart.js:255-257 | A data set starts with no rows. |
| Pipeline.DataSet.Init | chart/drawchart.js:256-257 | With every row non-empty, the held rows are exactly the input rows whose last count is non-zero, in order. A row without points fails and leaves the data set unchanged. |
| Pipeline.DataSet.FilterLow | chart/drawchart.js:277-298 | Returns the filtered list. Each array slot holding a surviving series is overwritten with its trimmed form, and every other slot is left as it was. |
| Pipeline.DataSet.CollectStates | chart/drawchart.js:302-325 | The loops over the country's rows fill a new array with exactly the per-region series, one per row, in row order. |
| Pipeline.DataSet.AggregateStates | chart/drawchart.js:300-328 | Returns a new `Data` holding the cut per-region series of the country, with their location list. Entries and series agree on visibility. |
| Pipeline.DataSet.CollectCountries | chart/drawchart.js:331-368 | The loop over countries fills a new array with one series per country, in first-appearance order. |
| Pipeline.DataSet.AggregateCountries | chart/drawchart.js:330-371 | Returns a new `Data` holding the cut per-country series, with their location list. Entries and series agree on visibility. |

## Left out

- CSV loading, the page controller, the colour scales, `console.log`, and
  the d3 rendering functions (`update`, `updateChart`, `showLocationList`)
  are not modelled. They are I/O and presentation over an external library.
- Parsing of date headers and count cells (`d3.timeParse`, `Number`) is not
  modelled. Dates and counts are integers from the start, and the column
  filter `/^[0-9]/` is taken as already applied.
- `getDataPoint` sorts each row's points with a one-argument comparator.
  That comparator gives no consistent order, so its result depends on the
  engine. The model keeps the points in column order and claims nothing
  about their order there.
- Countries.CountryKeys: the source sorts the dictionary keys as strings.
  The model sorts them as integers. Both orders agree only while every
  timestamp has the same number of digits, which holds for dates between
  2001 and 2286.
- The filter at line 309 can never be false, because a series' `data` is
  always defined. It is not modelled.
- Point objects are shared between the held rows and the per-region series
  (`slice` copies only the array). So `aggregateStates` and `filterLow`
  also write `day`, `delta` and `location` into the held rows. Points are
  values here, so that aliasing is not modelled.
- The series objects inside a `Data` are the same objects `filterLow`
  returned. The model copies them by value.
- ChartData.LocationListOrdered: the order among entries with equal
  `maxConfirmed` is not claimed. The ascending sort is stable and then
  reversed, and the model only proves the non-increasing order and the
  permutation.
- Pipeline.DataSet.Init: before `init` runs, `_rawData` is `undefined`, and
  an aggregation would throw. The model starts from an empty row list.
- Pipeline.DataSet.Init: a row with no date columns makes the source throw a
  `TypeError`. The model returns `false` in that case, and which exception
  is thrown is not modelled.
