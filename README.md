# Warehouse placement metrics, modelled in Dafny

`metrics_report.py` turns one run of the placement service into a row of
warehouse KPIs and appends that row to a CSV history. This project models:

- which input files it picks (`_pick_layout`, `load_data`);
- the KPI engine `compute_kpis`:
  - the left join of placements to the layout;
  - the placed subset;
  - per-shelf cube utilization and fragmentation;
  - capacity ratios;
  - the latest-residual-capacity estimate;
  - the demand-weighted distance;
- the append-only history (`append_metrics`).

It proves properties of each of these.

Tables are sequences of records. A missing cell (pandas' NaN) is `None`. The
model keeps pandas' aggregation rules:

- `sum` skips missing values and gives 0.0 on nothing;
- `mean` skips them and is undefined on nothing;
- `groupby(...).first()` takes the first *defined* value;
- `groupby(...).tail(1)` drops rows whose key is missing.

The join is pandas' many-to-many left merge: a placement gets one row per
layout row with its location id, or one row with missing layout columns when
there is none.

The inventory merge at line 126 is described through reference columns,
`Kpis.MatchDemand` and `Kpis.MatchProduct`. They have one cell per placed row
and inventory row: the demand, or distance × demand, where the item ids agree,
and missing otherwise. pandas' merged column instead has one cell per match, or
one missing cell when nothing matches. Both have the same defined cells, so
their skip-NaN count and sum agree, and those are all the weighted distance uses.

Modules:

- `Values`: `Option` and `Result`.
- `NanStats`: pandas' skip-NaN sum, count and mean, and guarded fractions.
- `Tables`: the placement, layout and inventory rows, the join and the placed subset.
- `Shelves`: the per-shelf grouping, utilization and fragmentation.
- `Latest`: the latest remaining size per location.
- `Kpis`: the snapshot and its properties.
- `Loader`: file choice.
- `History`: the metrics history.
- `Scenarios`: worked examples with exact values.

The model follows the code where it behaves differently from what one would expect:

- A layout without `max_size` or `max_weight` makes the column selection at
  line 85 raise `KeyError`.
  - `ComputeKpis` returns `Err(MissingLayoutColumn)` in that case.
  - So the `else np.nan` of line 108 cannot be reached.
- The defaulting loop at lines 81-83 always creates `remaining_size`.
  - So the `else` branch at lines 118-119 cannot be reached.
  - The free-capacity ratio is always computed by the branch at lines 113-117.
- Rows with a demand but no distance still count in the demand-weighted distance.
  - Their product with the demand is missing and is dropped from the numerator (line 129).
  - Their demand stays in the denominator (line 130).
  - So a layout without coordinates gives `weighted_distance` = 0.0 whenever the matched demands sum to a positive value, where one would expect it to be undefined.
  - `Kpis.WeightedDistanceWithoutCoordinates` states this for every input, and `Kpis.ZeroWithoutCoordinates` for one placement with demand 2.0.
- An empty `--layout` string counts as no override, because of `if layout_override:` at line 46.
- `DuplicateIdsInflatePlacedRows` shows that duplicate layout location ids make `placed_rows` exceed `rows`.
  - This happens because the merge at line 85 is many-to-many.
  - With unique ids, `PlacedRowsAtMostRows` shows it cannot happen.

## Model

| member | source | states |
|---|---|---|
| NanStats.CountDefined | metrics_report.py:90 | the number of defined cells is at most the column length, and 0 exactly when every cell is missing |
| NanStats.MeanDefined | metrics_report.py:105 | pandas' mean is undefined exactly when every cell is missing; otherwise mean × count of defined cells = skip-NaN sum |
| NanStats.SumDefined | metrics_report.py:129-130 | pandas' skip-NaN sum is 0.0 on a column with no defined cell |
| NanStats.SumDefinedAppend | metrics_report.py:129-130 | the skip-NaN sum of two stacked columns is the sum of their sums |
| NanStats.CountDefinedAppend | metrics_report.py:127 | the defined cells of two stacked columns are those of the first plus those of the second |
| NanStats.SumDefinedNonNegative | metrics_report.py:108 | a column whose defined values are non-negative has a non-negative skip-NaN sum |
| NanStats.MeanDefinedNonNegative | metrics_report.py:105 | a column whose defined values are non-negative has a non-negative mean whenever the mean is defined |
| NanStats.Quotient | metrics_report.py:132 | num / den multiplied back by a positive den gives num |
| NanStats.Fraction | metrics_report.py:91 | a guarded count/total: undefined iff total is 0; otherwise in [0, 1]; value × total = count; positive iff count > 0; equal to 1 iff count = total |
| Tables.Distance | metrics_report.py:74-78 | without both coordinate columns the distance is missing; with them it is the shelf's radius, and when the row's radius agrees with its coordinates (`RadiusAgrees`) it is defined iff x and y both are, non-negative, and its square is x² + y² |
| Tables.Matches | metrics_report.py:85 | the layout rows a placement matches are exactly those whose location_id equals its recommended location |
| Tables.MatchesUnique | metrics_report.py:85 | with unique location ids, a shelf's id matches exactly that one shelf |
| Tables.JoinOne | metrics_report.py:85 | the left merge gives every placement at least one row, each carrying that placement; no distance without coordinate columns |
| Tables.Join | metrics_report.py:85 | the merge never drops placements: every placement appears in some merged row; at least as many rows as placements, empty iff there are no placements, every row from some placement |
| Tables.JoinedForShelf | metrics_report.py:85 | with unique ids, a placement naming shelf k is joined to shelf k's distance, max_size and max_weight |
| Tables.JoinOneUnique | metrics_report.py:85 | with unique ids, each placement yields exactly one merged row |
| Tables.JoinOnUniqueIds | metrics_report.py:85 | with unique ids, the merge keeps exactly one row per placement, in placement order |
| Tables.JoinCarriesShelf | metrics_report.py:85 | with unique ids, row i carries the columns of the shelf its placement names, or missing layout columns when no shelf has that id |
| Tables.Placed | metrics_report.py:88 | the placed subset is exactly the merged rows whose location is present and is not UNPLACED, each kept as often as it occurs in the merge |
| Shelves.AllocRows | metrics_report.py:94 | the allocation rows are exactly the placed rows with a defined allocated_volume, each kept as often as it occurs among the placed rows |
| Shelves.GroupVolume | metrics_report.py:101 | a location that no row names has a summed volume of 0.0 |
| Shelves.GroupKeys | metrics_report.py:100 | the groups have no duplicates, cover every present location and contain only locations that occur, so missing keys form no group |
| Shelves.GroupMaxSize | metrics_report.py:102 | `first` picks the max_size of the first row of the group that has one, and is missing exactly when every row of the group lacks one |
| Shelves.Utilization | metrics_report.py:104 | a shelf's utilization is defined exactly when its max_size is defined and non-zero, and then utilization × max_size = the group's summed volume |
| Shelves.Utilizations | metrics_report.py:104 | one utilization per group, in group order |
| Shelves.CountFragmented | metrics_report.py:106 | the count of fragmented shelves is at most the number of shelves, and positive iff some utilization lies strictly inside (0, 0.1) |
| Shelves.CountFragmentedShelves | metrics_report.py:106 | over duplicate-free keys the fragmented count equals the number of distinct fragmented shelves |
| Shelves.FragmentedKeysCons | metrics_report.py:106 | splitting off the first of duplicate-free keys splits off one fragmented shelf or none |
| Shelves.NoDupCardinality | metrics_report.py:100 | duplicate-free keys name as many distinct shelves as there are keys |
| Shelves.GroupCount | metrics_report.py:100 | there are as many groups as distinct present locations among the rows |
| Shelves.FragmentedShelves | metrics_report.py:106 | the fragmented-shelf count is positive exactly when some shelf of the grouping is fragmented |
| Shelves.TotalVolumeCons | metrics_report.py:98 | the skip-NaN total of allocated_volume splits into the first row's volume, 0.0 when missing, plus the rest's total |
| Shelves.GroupVolumesPartitionTotal | metrics_report.py:98-103 | summing the per-shelf volumes over duplicate-free keys covering every row gives the total allocated volume |
| Shelves.GroupMaxSizeUniform | metrics_report.py:102 | when every row of a group carries the same max_size, `first` returns it |
| Latest.LatestFrom | metrics_report.py:114-116 | the rows kept by `tail(1)` are exactly those carrying a remaining size and a location with no later such row for the same location, each kept once |
| Latest.SumRemainingCons | metrics_report.py:117 | the summed remaining size splits into the first row's size, 0.0 when missing, plus the rest's sum |
| Latest.SumRemaining | metrics_report.py:117 | non-negative remaining sizes have a non-negative sum |
| Latest.LatestAgreesWithLedger | metrics_report.py:112-117 | the kept rows agree with an overwrite-on-newer ledger: each is its location's final entry, each entry comes from a kept row, and no two kept rows share a location |
| Kpis.AvgDistance | metrics_report.py:90 | avg_distance is undefined exactly when no placed row has a distance, otherwise it is the mean of the defined distances |
| Kpis.CountUnplaced | metrics_report.py:91 | the UNPLACED count is at most the row count, and positive iff some row is exactly UNPLACED |
| Kpis.UnplacedRate | metrics_report.py:91 | unplaced_rate is undefined iff the merged table is empty; otherwise in [0, 1], equal to count/rows, positive iff some row is UNPLACED, 1 iff every row is |
| Kpis.AllUnplaced | metrics_report.py:91 | the UNPLACED count equals the row count iff every row is UNPLACED |
| Kpis.OneBelowTotal | metrics_report.py:91 | the UNPLACED count is below the row count iff some row is not UNPLACED |
| Kpis.CountAllocated | metrics_report.py:121 | the count of rows with an allocated volume is at most the row count, and positive iff some row has one |
| Kpis.CapacityColsRatio | metrics_report.py:121 | the share of placements with an allocated volume is undefined iff there are no placements, otherwise in [0, 1], equal to count/rows and positive iff some row has one |
| Kpis.AvgCubeUtilization | metrics_report.py:99-105 | avg_cube_utilization is defined exactly when some shelf has a defined utilization, and is then the mean of the defined shelf utilizations |
| Kpis.ShelfCount | metrics_report.py:106 | the shelf count is the number of distinct locations among the allocation rows, positive exactly when there is some allocation row |
| Kpis.FragmentedCount | metrics_report.py:106 | the fragmented count is the number of distinct fragmented shelves: at most the shelf count, and positive iff some shelf is fragmented |
| Kpis.FragmentationRate | metrics_report.py:96-106 | fragmentation_rate is undefined iff no placed row has a volume; otherwise in [0, 1], equal to fragmented shelves/shelves, positive iff some shelf is fragmented |
| Kpis.TotalAllocatedVolume | metrics_report.py:98 | total_allocated_volume equals the sum of the per-shelf volumes over the groups |
| Kpis.TotalCapacity | metrics_report.py:108 | total_capacity is 0.0 when no shelf has a max_size |
| Kpis.TotalCapacityNonNegative | metrics_report.py:108 | non-negative max_size values give a non-negative total_capacity |
| Kpis.CapacityRatio | metrics_report.py:109 | capacity_ratio is defined iff the total capacity is positive; then ratio × capacity = allocated volume, non-negative for a non-negative volume |
| Kpis.FreeEffectiveCapacityRatio | metrics_report.py:113-117 | the free ratio is defined iff capacity is positive and some row survives `tail(1)`; then ratio × capacity = the sum of the surviving remaining sizes |
| Kpis.ObservationsFor | metrics_report.py:126-127 | a placed row meets the inventory with a demand iff some inventory row has its item_id and a demand; every match carries the row's distance; there is one observation per defined merged demand cell, and the demand and distance·demand sums are the skip-NaN sums of the merged columns |
| Kpis.DemandSumAppend | metrics_report.py:130 | the demand sum of two batches of observations is the sum of their demand sums |
| Kpis.WeightedSumAppend | metrics_report.py:129 | the distance·demand sum of two batches of observations is the sum of theirs |
| Kpis.MergedSumsStep | metrics_report.py:126-130 | the count and sums of one placed row's matches followed by the rest's are those of the merged columns |
| Kpis.DemandObservations | metrics_report.py:126-127 | the inventory merge restricted to defined demand is non-empty iff some placed row meets such an inventory row; each match carries a placed row's distance; its count, demand sum and distance·demand sum are those of the merged columns over all placed rows |
| Kpis.WeightedDistance | metrics_report.py:124-132 | weighted_distance is defined iff a demand column exists, some merged demand cell is defined and the skip-NaN demand sum is positive; then value × Σ demand = Σ distance·demand, both over the merged columns |
| Kpis.WeightedSumWithoutDistances | metrics_report.py:129 | when no match has a distance, the numerator is 0.0 |
| Kpis.DemandSumNonNegative | metrics_report.py:130 | non-negative demands have a non-negative sum |
| Kpis.WeightedSumUniform | metrics_report.py:129 | when every match has distance d, Σ distance·demand = d × Σ demand |
| Kpis.CommonQuotient | metrics_report.py:129-132 | Σ distance·demand / Σ demand over matches at one distance d is d |
| Kpis.WeightedDistanceOfCommonDistance | metrics_report.py:129-132 | when every placed row has the same distance d, a defined weighted distance equals d |
| Kpis.WeightedDistanceWithoutDistances | metrics_report.py:129-132 | when no placed row has a distance, a defined weighted distance is 0.0 |
| Kpis.ComputeKpis | metrics_report.py:71-147 | the snapshot fails iff the layout lacks a capacity column; otherwise it carries the given timestamp and the placement count; unplaced_rate and placements_with_capacity_cols_ratio are undefined iff there are no placements; unplaced_rate, fragmentation_rate and placements_with_capacity_cols_ratio lie in [0, 1]; capacity_ratio is defined iff the capacity is positive; a defined free_effective_capacity_ratio implies a positive capacity; and no demand column means no weighted distance |
| Kpis.PlacedRowsAtMostRows | metrics_report.py:136-137 | with unique location ids, placed_rows never exceeds rows |
| Kpis.DuplicateIdsInflatePlacedRows | metrics_report.py:85 | one placement on a shelf listed twice gives rows = 1 but placed_rows = 2 |
| Kpis.JoinedRowsCarryShelfCapacity | metrics_report.py:85 | with unique ids, every merged row naming shelf k carries shelf k's max_size |
| Kpis.ShelfUtilizationUsesShelfCapacity | metrics_report.py:100-104 | with unique ids, a shelf that forms a group has as utilization its summed volume over its own max_size, undefined when that is 0 or missing |
| Kpis.NoCoordinates | metrics_report.py:74-78 | without coordinate columns avg_distance is undefined and weighted_distance is undefined or 0.0 |
| Kpis.WeightedDistanceWithoutCoordinates | metrics_report.py:78 | without coordinate columns, any match with a positive demand sum gives weighted_distance = 0.0 |
| Kpis.ZeroWithoutCoordinates | metrics_report.py:124-132 | one placement with demand 2.0 on a layout without coordinates gives weighted_distance = 0.0 |
| Kpis.TotalVolumeNonNegative | metrics_report.py:98 | non-negative allocated volumes have a non-negative sum |
| Kpis.AllocatedVolumeNonNegative | metrics_report.py:98 | non-negative allocated volumes give a non-negative total_allocated_volume |
| Loader.PickLayout | metrics_report.py:45-53 | fails iff the given override is missing or, without one, every candidate is missing, with the matching error; otherwise returns the override or the first existing candidate |
| Loader.LoadData | metrics_report.py:56-68 | without the placements file it fails with that error; otherwise it fails iff no layout can be chosen, returns the chosen layout, and reads the inventory iff the file exists and parses |
| History.Appended | metrics_report.py:150-157 | one append adds exactly the new row at the end, keeping every earlier row, or starts a one-row table |
| History.AppendAll | metrics_report.py:150-157 | after repeated appends the table exists unless there was none and nothing was appended, and it has the old length plus one row per append |
| History.AppendAllExtends | metrics_report.py:150-157 | appending rows one at a time to an existing table gives the table followed by the rows |
| History.AppendAllFromNothing | metrics_report.py:150-157 | after N appends to a missing history it holds exactly those N rows, in call order |
| History.MetricsHistory.constructor | metrics_report.py:152-153 | the history starts as the existing table, or none |
| History.MetricsHistory.Append | metrics_report.py:150-157 | the new table is the old one with the row at the end, or the one-row table when there was none |
| History.AppendAllSnoc | metrics_report.py:150-157 | one more append after a batch is one more single append on the batch's table |
| History.MetricsHistory.AppendEach | metrics_report.py:150-157 | calling append once per row, in order, leaves the table that the repeated appends give: the old table followed by the rows, or exactly the rows when there was none |
| History.AppendTwice | metrics_report.py:150-157 | two appends to a missing history leave exactly the two rows, oldest first |
| Scenarios.OneShelfJoin | metrics_report.py:85-88 | a placed and an UNPLACED item against one shelf join to two rows, one placed |
| Scenarios.OneShelfUtilization | metrics_report.py:94-106 | 5 units on a 10-unit shelf: utilization 0.5, no fragmentation, total 5 |
| Scenarios.OneShelfRatios | metrics_report.py:90-121 | distance 5 at (3, 4), unplaced rate 0.5, capacity-cols ratio 0.5, capacity 10, no free ratio without remaining sizes |
| Scenarios.OneShelfOneUnplaced | metrics_report.py:71-147 | the whole snapshot for that input, value by value |
| Scenarios.SingleShelfJoin | metrics_report.py:85-94 | one placement of volume v on shelf L1 gives one placed allocation row carrying capacity 10 |
| Scenarios.SingleShelfUtilization | metrics_report.py:100-104 | that row forms the single shelf L1, whose utilization is v/10 |
| Scenarios.SingleShelfFragmentation | metrics_report.py:106 | fragmentation_rate is 1.0 when 0 < v/10 < 0.1 and 0.0 otherwise |
| Scenarios.FragmentationBoundary | metrics_report.py:106 | utilization exactly 0.1 is not fragmented; 0.05 is |
| Scenarios.LatestFlagsOfLog | metrics_report.py:114-116 | in a four-row log, the first L1 row and the row without a location are not kept; the UNPLACED row and the last L1 row are |
| Scenarios.LatestOfLogTail | metrics_report.py:116 | scanning that log from its third row keeps only the last L1 row |
| Scenarios.LatestOfLog | metrics_report.py:116 | `tail(1)` of that log keeps the UNPLACED row and the last L1 row, in file order |
| Scenarios.LedgerOfLog | metrics_report.py:112-117 | the overwrite ledger of that log maps L1 to 3.0 and UNPLACED to 2.0 |
| Scenarios.LatestObservationWins | metrics_report.py:112-117 | the later observation of a location wins, rows without a location drop out, UNPLACED is a location, and the free ratio is 0.5 |

## Left out

- File system and CSV parsing: file existence is a set of names. `pd.read_csv`'s success on the inventory file is a boolean. The tables are given as values.
- Reading the chosen layout and placements files, and the exceptions `pd.read_csv` raises on them, are not modelled.
- Floating point: values are mathematical reals. There is no rounding, no infinity and no NaN arithmetic beyond "missing".
- The square root: each layout row carries its radius. `RadiusAgrees` states the relation to x and y.
- The clock: `utcnow()` becomes the `now` parameter.
- The in-place changes to the caller's frames are not modelled: line 78 adds a distance column to the caller's layout, and line 83 adds missing columns to the caller's placements. The model returns values only.
- The pandas column-union behaviour of `concat` when the existing history has other columns is not modelled. The history is a sequence of snapshots with a fixed column set.
- Concurrent writers to the history file are not modelled.
- `main`, argument parsing and console output are not modelled.
- placement_service.py is not part of this model.
- A layout `location_id` that is itself missing, and merge matching on missing keys, are not modelled. Location ids are strings.
- Placements without `item_id`, and an inventory without `item_id`, are not modelled; the model always has the column. In the source either raises `KeyError` only inside the branch at lines 125-126, that is when an inventory with `demand_frequency` is given.
- Key columns are assumed to be string-typed. pandas' merge raises `ValueError` on a numeric key against a string key, for example when every `recommended_location` is blank and `read_csv` types the column float64, or when `location_id` is numeric while `recommended_location` holds text such as `UNPLACED`. The same holds for `item_id` at line 126. `ComputeKpis` does not represent this error.
- A layout without `location_id` and placements without `recommended_location` are not modelled; the model always has both columns. In the source either raises `KeyError` at line 85.
- The order of groups after `groupby` sorts keys is not modelled. Only the set of groups matters to the KPIs.
- The `sort_index()` at line 115 is not modelled. Placements are in file order already.
- NanStats.MeanDefinedNonNegative: states only non-negativity of a mean, not that it lies between the smallest and largest defined value.
- Kpis.ComputeKpis: a positive free-capacity ratio is not tied to the remaining sizes inside the snapshot's own contract. `Kpis.FreeEffectiveCapacityRatio` states that relation.
