# Resource-requirement dashboard data layer, modelled in Dafny

This project models the data-preparation layer of the rgi dashboard (`data.py`). The
dashboard shows how much land area and water each energy-transition scenario needs per
region. The model covers:

- **Label normalisation.** Each scenario source names technologies its own way. The two
  renaming tables `tech_dict_area` and `tech_dict_water` map raw labels to display labels;
  `DataFrame.replace` applies them to every string cell (`Taxonomy`, `Tables`).
- **`prepare_data`.** One scenario's rows for a year and a set of technology criteria, kept
  only when they hold at least one full display unit: `oly_field` (football fields) for area,
  `oly_pool` (Olympic pools) for water (`Prepare`).
- **`get_criteria`.** The sorted, distinct technology labels offered as criteria. For area,
  "Nature-protected area" is moved to the second-to-last place (`Criteria`).
- **`get_min_max`.** The colour-scale domain. Every scenario's onshore rows of the selected
  technologies are combined and restricted to region buses (ids longer than three
  characters). They are summed per (bus, year, scenario). Then the column-wise minimum and
  maximum are taken per (scenario, year) (`Ranges`).
- **`state_boundaries`.** GeoJSON Polygon, MultiPolygon and LineString features are flattened
  into one longitude path and one latitude path, with a `(None, None)` break after every ring
  (`Boundaries`, specified by `BoundaryPaths`).
- **`get_pretty_names`, label part.** Display names of bus ids (`PrettyNames`).

Tables are sequences of `Tables.Row`. A row holds its requirement's value columns as a
sequence of `real` in the order `area_km2, oly_field, rel` or `water_miom3, oly_pool`.
Values are exact reals, so no floating-point effects are modelled. A Python exception is an
`Err` value of a `Wrappers.Result`. Files that the code reads are parameters:

- the scenario tables passed to `GetCriteria` and `GetMinMax`;
- the GeoJSON features passed to `StateBoundaries`;
- the rows of `pretty_names.csv` passed to `PrettyNames.LabelMap`.

`get_min_max` and `state_boundaries` build their results in loops. They are methods whose
`ensures` equate the result with the functions `MinMax` and `BoundaryPaths`. `get_criteria`
removes one label from a local list and inserts it again. It is a method whose `ensures`
states the result's properties: the same labels as `Labels`, strictly sorted (water), or
"Nature-protected area" at its place and the other labels strictly sorted. The other operations
are functions.

Three behaviours of the code are worth stating outright, since a reader of the comments or the
dashboard might expect otherwise. The model follows the code in each:

- `get_min_max` sums the percentage column `rel` per group like the other columns
  (data.py:319), although the comment at data.py:318 says it could be averaged.
- `get_criteria` removes "Nature-protected area" and calls `insert(len(criteria) - 1, ...)` on
  the shortened list (data.py:227-228). The label lands second-to-last, not last; with a single
  label it is at place 0.
- Only `get_min_max` raises for a requirement other than "area" or "water" (data.py:340-346).
  - `prepare_data` treats every other value as "water".
  - `get_criteria` relabels every other value with the water table, then reorders it as area.

## Model

| member | source | states |
|---|---|---|
| `Taxonomy.TechDictsStable` | data.py:21-45 | no display label of `tech_dict_area` or `tech_dict_water` is also a raw label |
| `Taxonomy.RelabelIdempotent` | data.py:132-136 | for a table where no value is a key, relabelling twice equals relabelling once |
| `Taxonomy.NormaliseLabelTwice` | data.py:132-136 | for either requirement, normalising a label twice equals normalising it once, because both tables are stable |
| `Tables.NormalizeCount` | data.py:132-136 | a row occurs in the relabelled table exactly as often as input rows relabel to it |
| `Tables.NormalCountPositive` | data.py:132-136 | a row occurs in the relabelled table iff some input row relabels to it |
| `Tables.NormalizeTableTwice` | data.py:132-136 | normalising a table keeps length, years, onshore flags and values, maps each label key to its value and leaves other labels; doing it twice changes nothing |
| `Seqs.Filter` | data.py:138-150 | a boolean mask keeps no more rows than it is given, and every kept row is an input row that satisfies the mask |
| `Seqs.FilterCount` | data.py:138-150 | a boolean mask keeps every occurrence of a satisfying row and no occurrence of any other |
| `Seqs.FilterExact` | data.py:138-150 | a mask keeps exactly the satisfying elements, in input order, at increasing positions |
| `Prepare.PrepareData` | data.py:119-152 | every kept row has the chosen year, a selected technology and at least one full unit; empty criteria give no rows |
| `Prepare.PrepareDataExact` | data.py:138-150 | the result is exactly the relabelled input rows, in input order, that meet the three conditions, and a row is kept iff it meets them |
| `Criteria.StrLessTotal` | data.py:224 | Python's string order is total: of two different labels exactly one is smaller |
| `Criteria.StrLessTransitive` | data.py:224 | Python's string order is transitive |
| `Criteria.InsertSorted` | data.py:224 | inserting a label into a strictly sorted list keeps it strictly sorted, and its labels are the old ones plus that label (nothing is added when it is already there) |
| `Criteria.SortedDistinct` | data.py:224 | `sort_values().unique()` is strictly sorted and holds exactly the labels of the column |
| `Criteria.SortedUnique` | data.py:224 | two strictly sorted lists with the same labels are equal, so the sorted distinct list is unique |
| `Criteria.IndexOf` | data.py:227 | `list.remove` finds the first occurrence of the label |
| `Criteria.RemoveAt` | data.py:227 | removing one label from a strictly sorted list leaves it strictly sorted, without that label and with all others |
| `Criteria.InsertBeforeLast` | data.py:228 | `insert(len - 1, x)` puts x at place n-2 of the n-label result (0 when n = 1) and keeps the other labels in order |
| `Criteria.GetCriteria` | data.py:210-229 | water: sorted distinct relabelled labels; otherwise fails iff "Nature-protected area" is absent, and if not, the same labels with it at place n-2 and the others still sorted |
| `Ranges.CombinedCount` | data.py:304-311 | the concatenated selections hold each selected onshore row as often as source rows, over all scenarios, relabel to it, and no other row |
| `Ranges.ContributingCount` | data.py:304-334 | the rows entering the group-by are those same rows restricted to bus ids longer than 3 characters, with the same multiplicities |
| `Ranges.GasRowsBothCount` | data.py:35-36 | a water "gas" row and a "CCGT" row that agree elsewhere give two occurrences of the same "Gas" row |
| `Ranges.SourceCountPositive` | data.py:304-311 | some source row relabels to a row iff its count is positive |
| `Ranges.ContributingRows` | data.py:304-334 | a row enters the group-by iff it is a relabelled source row with a selected technology, onshore, and a bus id longer than 3 characters |
| `Ranges.CombinedMembers` | data.py:304-311 | a row is in the concatenated per-scenario selections iff it is a relabelled, selected, onshore row of some scenario |
| `Ranges.GroupSums` | data.py:316-339 | the group-by has one group per (bus, year, scenario) key that occurs in the rows, each as wide as the rows |
| `Ranges.GroupSumIsSum` | data.py:316-339 | each group holds the column-wise sum of its key's rows, `rel` included |
| `Ranges.ColumnSumPermutation` | data.py:316-339 | two lists holding the same rows equally often have equal column sums, so a group sum does not depend on row order |
| `Ranges.GroupRowsCount` | data.py:316-339 | the rows of one group are the contributing rows of its key, each as often as source rows relabel to it |
| `Ranges.GroupSumCounts` | data.py:304-339 | a group exists iff some contributing row has its key, and its sum is the column sum of any list holding each such row once per source row that relabels to it |
| `Ranges.KeyListMembers` | data.py:316-339 | the listed group keys are exactly the keys of the rows |
| `Ranges.Extremes` | data.py:348-349 | the per-(scenario, year) extreme has one entry per (scenario, year) of the groups, as wide as the groups |
| `Ranges.ExtremesBound` | data.py:348-349 | the minimum is at most, and the maximum at least, every group sum of its scenario and year, column by column |
| `Ranges.ExtremesAttained` | data.py:348-349 | every column of every minimum or maximum equals some group sum of that scenario and year |
| `Ranges.GetMinMax` | data.py:300-350 | fails for a requirement other than "area"/"water"; otherwise returns the minimum and maximum tables of the contributing rows |
| `Ranges.MinMaxEncloseEveryBus` | data.py:348-349 | for every contributing row, min <= the sum of its (bus, year, scenario) group <= max, column by column |
| `Ranges.MinMaxKeys` | data.py:348-349 | min and max have the same entries, one per (scenario, year) that occurs among the contributing rows |
| `Ranges.MinMaxAttained` | data.py:348-349 | every column of every min or max entry equals some bus's group sum for that scenario and year |
| `Boundaries.StateBoundaries` | data.py:258-281 | the loop over features yields exactly the specified path pair, or the error the code raises |
| `Boundaries.PathPrefixError` | data.py:265-278 | once a feature raises, the whole walk raises that error |
| `Boundaries.PartsPrefixError` | data.py:271-273 | once a MultiPolygon part without rings raises, the whole feature raises |
| `Boundaries.PathIsFlatten` | data.py:265-278 | a walk that raises nothing collects each drawn ring's positions followed by one break, ring after ring in feature order |
| `Boundaries.FlattenCounts` | data.py:265-278 | the path has one entry per drawn position plus one break per drawn ring |
| `Boundaries.FlattenEntries` | data.py:265-278 | the path's points are exactly the drawn rings' positions, and there is a break when a ring is drawn |
| `Boundaries.SinglePolygon` | data.py:266-268 | a single Polygon whose ring has N points gives N+1 longitudes and N+1 latitudes: the ring's points in order, then the break |
| `Boundaries.UnzipCondition` | data.py:280 | `zip(*pts)` unpacks into two iff some entry has exactly two numbers and none has fewer |
| `Boundaries.BoundariesOutcome` | data.py:262-281 | without a raising feature, the result exists iff some ring is drawn and every drawn point has lon and lat; nothing collected means failure |
| `Boundaries.UnzipPairs` | data.py:280-281 | lons and lats are as long as the path; entry i of both is the same point's lon and lat, or None for a break |
| `PrettyNames.PrettyNameShape` | data.py:171-180 | onshore label is "country, Name" when the flag is set, else "country"; the offshore label adds ", Offshore " |
| `PrettyNames.LabelMapKeys` | data.py:181 | the labelled bus ids are exactly the ids of the rows |
| `PrettyNames.LabelMapLastWins` | data.py:181 | each bus id is labelled from the last row that carries it |

## Left out

- File reading is not modelled. This covers `get_area_requirements`, `get_water_requirements`,
  `get_regions`, `get_regions_offshore`, `get_country_shapes`, the CSV read in
  `get_pretty_names` and the table reads inside `prepare_data`, `get_criteria` and
  `get_min_max`. Their results are parameters, and a missing file is not modelled. So is the
  lookup `sce_names[scenario]` that picks the file in `prepare_data` (an unknown scenario
  name raises `KeyError` there).
- `Prepare.PrepareData` does not model the rounding step (`round_dict_area`,
  `round_dict_water`). It takes values as already rounded and tests the threshold on them.
  In the code, `round_dict_water` names a column `water_mio3`, while the water tables have
  `water_miom3`. So the water volume is never rounded there.
- Pandas index handling is not modelled (`reset_index`, the `concat` keys, the sorted row
  order of `groupby`). The group-by result is a map keyed by (bus, year, scenario). The range
  tables are maps keyed by (scenario, year).
- `Ranges.GetMinMax` takes the tables of the requested requirement, one per entry of
  `Scenarios`. It requires every row to carry that requirement's value columns, which the
  code needs to select them (otherwise pandas raises `KeyError`).
- `Prepare.PrepareData` also requires every row to carry the requirement's value columns.
- Missing values (NaN) in labels or value columns are not modelled.
- Only the geometry of a GeoJSON feature is modelled. A feature without a `geometry` or
  `type` key is not modelled.
- The static content is not modelled: `scenario_description`, `get_scenarios`,
  `get_sce_names`, `get_sce_pretty_names`, `get_scenario_text`. Neither is `get_years`, a
  file read plus `unique`.
- graphs.py, layout.py, controls.py, app.py, run_local.py and settings.py are not part of
  this model. They hold figure building, widget layout, CSV reads, server startup and
  environment configuration.
