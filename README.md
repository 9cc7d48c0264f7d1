# Ski resorts dashboard: the data logic, verified

The ski resorts dashboard (`ski_resorts_app.py`) loads a table of ski resorts
once. It adds four per-country rank columns to the table and never changes it
afterwards. Its callbacks then build read-only views of that table:

- the **Resort Finder** map shows the resorts below a lift-ticket price limit
  that offer the checked amenities (`global_resortmap`);
- the **Resort Rankings** tab fills the country dropdown from the chosen
  continent (`continent_filter`);
- the same tab draws the top ten resorts of a country by a metric
  (`graph_generator`);
- it also shows the report card of the resort under the mouse
  (`report_card`).

This project models that logic as pure functions over `seq<Resort>`. It
proves what each view promises.

- `seqs.dfy` (module `Seqs`): the dataframe idioms the program uses, stated
  once for any element type:
  - `Filter` is boolean-mask selection and keeps row order;
  - `Map` is column projection;
  - `Unique` is `Series.unique()` and keeps first-appearance order;
  - `SortDescending` is `sort_values(ascending=False)`: some non-increasing
    permutation, with no promise about the order of ties.
- `resorts.dfy` (module `Resorts`): the resort record, the amenity
  and metric selectors, the four rank columns and `Column`, which lists the
  numeric columns the program names.
- `ranking.dfy` (module `Ranking`): pandas' `groupby("Country")[col].rank(ascending=False)`
  with the default `method="average"`:
  - rank = (number of larger values) + (number of equal values + 1) / 2,
    within the resort's country;
  - ranks can be halves, so they are `real`;
  - rank 1 is the largest value.
- `resort_map.dfy` (module `ResortMap`): the map filter.
- `rankings_tab.dfy` (module `RankingsTab`): the country list, the top-ten
  chart and the report card.

Dash's `PreventUpdate` becomes an `Option` (`None`) or the `NoUpdate` case of
`CardUpdate`. A failing `.item()` becomes `NotExactlyOne`.

Where the program's own descriptions and its code disagree, the model follows
the code:

- The on-screen "Ranking Guide" (ski_resorts_app.py:263-266) says rank 1 is
  the lowest value. The code ranks with `ascending=False`, so rank 1 is the
  highest value.
- Ranks are average ranks. Tied resorts share a possibly fractional rank, not
  consecutive whole numbers.
- `continent_filter` lists countries in order of first appearance in the
  table, not sorted.
- `report_card` fails when the hovered name matches more than one row, as
  `.item()` does. It does not take the first match.
- The top-ten chart gives no order among equal metric values, since the sort
  is not stable.
- The checklist branches on the length of `options` alone. Three entries
  filter on all three columns, whatever they are. Any length other than 1, 2
  or 3 applies no amenity filter.

## Model

| member | source | states |
|---|---|---|
| Seqs.Filter | ski_resorts_app.py:303 | a mask selection keeps exactly the rows the mask accepts, as a subsequence in table order |
| Seqs.Unique | ski_resorts_app.py:350 | `unique()` has no repeats, has exactly the values of its input, and lists them in order of first appearance |
| Seqs.SortDescending | ski_resorts_app.py:364-366 | the descending sort is a permutation of its input in non-increasing key order |
| Ranking.AssignRanks | ski_resorts_app.py:27-51 | the ranked table has the input's rows in the input's order, each with its elevation, price, slope and cannon rank computed within its own country |
| Ranking.RankColumnOf | ski_resorts_app.py:45-48 | each rank column holds the rank of the metric it is named after |
| Ranking.RankCountsCountryRivals | ski_resorts_app.py:29-40 | a resort's rank is 1 + (number of resorts of its country with a larger value) + (number with an equal value, itself included, minus 1) / 2 |
| Ranking.RankIsMeanOfTiedPositions | ski_resorts_app.py:29-40 | in any descending ordering of the country's values, the tied values fill exactly the positions Above+1 .. Above+Level, and the rank is the mean of those positions |
| Ranking.UntiedRankIsPosition | ski_resorts_app.py:29-40 | without ties, the rank of the value at position i of the descending order is i + 1 |
| Ranking.NoTiesRanksAreOneToN | ski_resorts_app.py:29-40 | without ties, the ranks computed from a country's value column (`CountryValues`) are a permutation of 1..N |
| Ranking.CountsUnderPermutation | ski_resorts_app.py:29-40 | the rank of a value does not depend on the order of the country's rows |
| Ranking.RankBounds | ski_resorts_app.py:29-40 | the rank of a present value lies in [1, N] |
| Ranking.RankWithinCountrySize | ski_resorts_app.py:29-40 | every rank column of every row lies in [1, N], N the number of resorts of its country |
| Ranking.SoleResortRankIsOne | ski_resorts_app.py:29-40 | the only resort of its country has rank 1 on a metric |
| Ranking.SoleResortRanksFirst | ski_resorts_app.py:27-51 | the only resort of its country has rank 1 in all four rank columns |
| Ranking.RankOrder | ski_resorts_app.py:29-40 | for present values: larger value iff smaller rank, and equal value iff equal rank |
| Ranking.RanksFollowValues | ski_resorts_app.py:27-51 | within a country, a strictly larger metric value iff a strictly smaller rank, and equal values iff equal ranks |
| Ranking.RankOneIsUntiedMaximum | ski_resorts_app.py:29-40 | rank 1 exactly for the untied largest value of the country |
| Ranking.RankIgnoresOtherCountries | ski_resorts_app.py:29-40 | inserting rows of other countries anywhere in the table leaves a resort's rank unchanged |
| Ranking.RankIgnoresChangesElsewhere | ski_resorts_app.py:29-40 | replacing a row of another country by a row of another country leaves a resort's rank unchanged |
| ResortMap.MapFilter | ski_resorts_app.py:301-319 | every row on the map is a table row with a price strictly below the limit |
| ResortMap.MapFilterSelectsWanted | ski_resorts_app.py:303-318 | for distinct options: the map is the subsequence of the table whose rows are below the price limit and have "Yes" in every checked column; no option means the price test alone |
| ResortMap.DistinctOptions | ski_resorts_app.py:307 | a checklist of distinct amenities has at most three entries, and three means all of them |
| ResortMap.AllOptionsIsIntersection | ski_resorts_app.py:307-318 | checking all three boxes shows exactly the rows every single box shows |
| ResortMap.ZeroLimitShowsNothing | ski_resorts_app.py:303 | the bound is strict: a limit of 0 shows no resort with a non-negative price |
| RankingsTab.ContinentFilter | ski_resorts_app.py:349-350 | the country options have no repeats and appear in order of first appearance among the continent's rows; a cleared continent gives none |
| RankingsTab.ContinentFilterListsItsCountries | ski_resorts_app.py:350 | a country is offered iff some resort lies in that country on the chosen continent |
| RankingsTab.TopTenIsTopOfCountry | ski_resorts_app.py:364-366 | the chart rows are min(10, country size) rows of the chosen country, non-increasing in the metric, drawn from the country's rows, and every resort left out is no greater than the last one shown |
| RankingsTab.GraphGenerator | ski_resorts_app.py:360-377 | no update iff the country is unset or empty or the metric is unset; otherwise the bars are the top ten of the country, and the title's count is their number, at most 10 |
| RankingsTab.ReportCardFor | ski_resorts_app.py:389-411 | no update iff nothing is hovered; a card iff exactly one row has the hovered name, showing that row's ranks with the elevation rank on the price line; otherwise the failure carries the number of matching rows |
| RankingsTab.ReportCardShowsTheRow | ski_resorts_app.py:395-411 | a name carried by one row shows exactly that row's name and ranks, as written |
| RankingsTab.ReportCardRejectsRepeatedName | ski_resorts_app.py:395 | a name carried by two rows makes `.item()` fail |
| RankingsTab.ReportCardRejectsUnknownName | ski_resorts_app.py:395 | a name carried by no row makes `.item()` fail on zero matches |
| RankingsTab.ReportCardShowsComputedRanks | ski_resorts_app.py:395-407 | for a uniquely named resort, the card shows the ranks computed at load time, with the elevation rank on the price line |
| RankingsTab.PriceLineShowsElevationRank | ski_resorts_app.py:407 | two resorts of one country, one higher and cheaper: its price rank is 2 but its card's price line reads 1 |
| RankingsTab.CorrectedReportCardFor | ski_resorts_app.py:396-407 | as ReportCardFor (including the match count on failure), with the price line carrying the price rank |
| RankingsTab.CorrectedReportCardShowsComputedRanks | ski_resorts_app.py:395-409 | with the price line corrected, the card shows all four computed ranks of a uniquely named resort |

## Left out

- The Dash layout, tabs, dropdowns, slider and checklist markup (ski_resorts_app.py:54-288): presentation only.
- Callback wiring and the `PreventUpdate` exception: replaced by `None` / `NoUpdate` results.
- Plotly figures (`px.density_mapbox`, `px.bar`), themes and CSS: calls into libraries that this model does not include. The bar chart is modelled by its rows and its title.
- Title strings: the map title (:337-339) is not modelled. The chart title (:376) is modelled by the values it formats: count, country and metric.
- The text of the report card's lines: the card is modelled by the values it formats (:405-409).
- Reading `resorts.xlsx` and `app.run_server()`: I/O. The table is a parameter.
- NaN and floating-point dtypes: values are exact `real`s, so no row has a missing value or a rounding error.
- Columns of the dataset that the program does not name: left out of `Resort`.
- Other numeric columns the file may hold, which the metric dropdown would offer: not representable. `TopTen` is generic in its real-valued sort key, so nothing else would differ for them.
- The metric dropdown's options from `select_dtypes("number").columns[1:]` (:215-217): replaced by the `Column` type, which lists the numeric columns the program names.
- The continent dropdown's options (:182): not modelled. `continent_filter` takes any continent, or `None` when the dropdown is cleared.
- Unknown column names in the checklist: cannot occur, because options are `Amenity` values.
- Unknown metric names: cannot occur, because metrics are `Column` values. An empty metric string is represented as `None`.
- Extracting the resort name from the `hoverData` JSON (:393): the hovered name is the parameter.
- The order of tied rows after `sort_values`: only non-increasing order, permutation and the top-ten property are stated. `SortDescending` is one admissible order.
- ResortMap.MapFilterSelectsWanted: requires distinct options. With repeated options the source's branches on `len(options)` differ from "every checked column is Yes", for example with three copies of one amenity.

## Findings

| source | as written | input that shows it | evidently intended | confidence | as-written member | corrected member |
|---|---|---|---|---|---|---|
| ski_resorts_app.py:407 | the "Lift Ticket Price Rank" line formats `elev_rank` | two resorts of one country, one at 3000 m for 50 and one at 2000 m for 60: the first one's price rank is 2, its card says 1.0 | format `price_rank` (read at :396-398 and otherwise unused) | high, not executed | RankingsTab.PriceLineShowsElevationRank | RankingsTab.CorrectedReportCardShowsComputedRanks |
