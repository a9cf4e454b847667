# District fact-table preparation, modelled in Dafny

This project models the batch table-preparation pipeline in `utils.py`. The pipeline turns five raw tables into one fact table, keyed by district, optionally by population zone, by year and, in monthly mode, by month:

- night-time luminosity (`bm`);
- average temperature and maximum temperature;
- air pollution and average air pollution.

The model follows the code step by step:

- **Normalisers.**
  - `process_lumi` drops the year 2022 and the placeholder districts `VNM.PI` and `VNM.SI`.
  - `process_temp` keeps the years 2014 to 2021, drops the placeholder districts and parses English month names.
  - `process_air` only rewrites the zone label.
  - All three rewrite the zone label `semi-urban` as `urban`.
- **Key selection.** The two flags `yearly` and `pop_zone` pick one of four key column lists.
- **Group-by aggregation.**
  - Groups are sorted by key.
  - The descriptive columns come from the group's first row.
  - `LUMINOSITY_SUM` and `AIR_POLLUTION` are sums; `AVERAGE_TEMPERATURE` and `AIR_POLLUTION_AVG` are means; `MAX_TEMPERATURE` is a maximum.
- **Left-join fold.** The measure aggregates are merged onto the luminosity aggregate. The two air tables are merged only in yearly mode.
- **`process_combined`.**
  - Luminosity smoothing: a missing value becomes 0, then 1 is added.
  - A sort by the group columns.
  - One change column per measure, taken against the previous row of the same group: `100*(cur/prev-1)` in yearly mode, `cur/prev` in monthly mode.
  - `YEAR_MONTH` in monthly mode.
- **Zone encoding.** `POP_ZONE_ENCODE` maps `urban` to 1 and `rural` to 0 and keeps any other label.

Files and modules:

| file | module | contents |
|---|---|---|
| `wrappers.dfy` | `Wrappers` | `Option`, `Result`, and the two errors the pipeline can raise |
| `keys.dfy` | `Keys` | key columns, key values, their lexicographic order |
| `normalise.dfy` | `Normalise` | the three normalisers and the month-name table |
| `fact.dfy` | `Fact` | the fact-table row and access to its measure and change columns |
| `aggregate.dfy` | `Aggregate` | a generic sorted group-by and the reducers |
| `join.dfy` | `Join` | the left merge, its fold, and the join loop as a method |
| `derive.dfy` | `Derive` | `process_combined` (see below) |
| `pipeline.dfy` | `Pipeline` | `process_data` as a function and a method, plus the end-to-end properties of the fact table |

`derive.dfy` holds the in-place smoothing, the stable group sort, the per-group change pass (a method over an array that remembers the last value per group), `YEAR_MONTH`, and `process_combined` itself, as a function and as a method.

Measures are `real`. A missing value is `None` in the model: an unmatched join cell (NaN in pandas), the first change of a group (NaN in pandas), or a change from a zero or missing previous value. pandas gives an infinity (or NaN) for a zero previous value and forward-fills a missing one; see the two `Derive.Change` lines under "Left out". Raised exceptions are `Failure` values:

- an unknown month name is `ParseError`;
- a month outside 1..12 in monthly mode is `DateError`. This is the model's month-range check for `pd.to_datetime`, which is narrower than pandas (see `Derive.WithYearMonth` under "Left out").

## Model

| member | source | states |
|---|---|---|
| Keys.KeyColumns | utils.py:16-25 | The key starts with `GID_2` and contains `YEAR`. `POP_ZONE` is present iff `pop_zone`. `MONTH` is present iff not `yearly`. The columns come in district, zone, year, month order, and the last one is the year (yearly) or the month (monthly). |
| Keys.GroupCols | utils.py:111-133 | The change groups are the key columns without the last one. The finest time column is never a group column. |
| Keys.KeyLtTotal | utils.py:28-34 | Two different key values are ordered one way or the other, so the sorted group-by output has one well-defined order. |
| Keys.KeyLtTransitive | utils.py:28-34 | The key order is transitive. |
| Keys.RestrictMonotone | utils.py:117 | A table sorted by the full key is also sorted by the group columns. |
| Keys.GroupTimeOrder | utils.py:117-119 | Within one group, key order is year order (yearly). In monthly mode the years are equal and key order is month order. |
| Normalise.NormaliseZone | utils.py:83 | The result is never `semi-urban`. `semi-urban` becomes `urban`. Every other label is unchanged. |
| Normalise.ProcessLumi | utils.py:72-85 | No output row is from 2022, from an excluded district, or labelled `semi-urban`. There are at most as many output rows as input rows. |
| Normalise.ProcessLumiAppend | utils.py:75 | The normaliser distributes over concatenation, so input order is kept. |
| Normalise.ProcessLumiMembers | utils.py:75-83 | A row is in the output iff it is the normalised form of an input row that passes the 2022 and district filter. |
| Normalise.MonthNumber | utils.py:90 | It succeeds iff the string is one of the 12 month names. The result is in 1..12 and names that month. Any other string gives `ParseError` with that string. |
| Normalise.MonthRoundTrip | utils.py:90 | Parsing the name of month `n` gives `n`, for every `n` in 1..12. |
| Normalise.ProcessTemp | utils.py:87-95 | It succeeds iff every kept row has a valid month name. On failure the error names the month of the first kept row whose month is invalid. On success, every output row is from 2014..2021, not excluded, has a month in 1..12, and is not `semi-urban`. |
| Normalise.ProcessTempAppend | utils.py:88-90 | On concatenated tables the result is the first table's error, else the second's, else the concatenated outputs. |
| Normalise.ProcessTempMembers | utils.py:88-93 | On success, an observation is in the output iff it comes from a kept input row with its parsed month and normalised zone. |
| Normalise.ProcessAir | utils.py:97-104 | Same length as the input. Values and coordinates are kept except the zone. A `semi-urban` zone becomes `urban`, so no row is `semi-urban`. Other labels are unchanged. |
| Aggregate.GroupBy | utils.py:28-34 | Groups are strictly ascending by key and non-empty. For every key, the group's rows are exactly the input rows with that key, in input order. |
| Aggregate.GroupByExact | utils.py:28-34 | Every group holds exactly its key's rows. The group keys are exactly the keys present in the input. |
| Aggregate.Max | utils.py:40-42 | The maximum is one of the values and no value exceeds it. |
| Aggregate.MeanBetween | utils.py:36-38 | The mean lies between any lower and upper bounds of the values. |
| Aggregate.AggregateLumiSpec | utils.py:28-34 | There is one row per distinct key and none for an absent key, in ascending key order. The names come from the group's first row, and `LUMINOSITY_SUM` is the group's sum. |
| Aggregate.AggregateObsSpec | utils.py:36-53 | There is one row per distinct key and none for an absent key, in ascending key order. Each value is the reducer applied to the group. |
| Join.MergeLeft | utils.py:61 | A left merge never has fewer rows than its left table. |
| Join.MergeLeftUnique | utils.py:61 | Against a right table with unique keys, the merge keeps every row, in order, once. It only sets the new column to the matching value, or to missing. |
| Join.FoldMergeKeepsRows | utils.py:59-61 | The join fold never loses a base row, whatever the right tables hold. |
| Join.FoldMergeUnique | utils.py:59-61 | With unique keys in every right table, the fold fills each base row in place: same rows, same order. |
| Join.FillGet | utils.py:59-61 | After the fill, each table's column holds that table's value for the row's key. |
| Join.LookupUnique | utils.py:61 | In a table with unique keys, the looked-up value is that of the row with the key, or missing when no row has it. |
| Join.JoinAll | utils.py:59-61 | The loop computes the fold of left merges. With unique right keys this is the row-preserving fill. |
| Derive.SmoothRow | utils.py:107-108 | Only the luminosity changes. Missing becomes 1 and a value `v` becomes `v + 1`. The result is at least 1 whenever the raw value is missing or non-negative. |
| Derive.SortByGroup | utils.py:117 | The result is sorted by group and is a permutation of the input. |
| Derive.SortSortedIsIdentity | utils.py:117 | Sorting a table already in group order returns it unchanged. |
| Derive.Prev | utils.py:118-119 | The previous row of the group is the nearest earlier row with the same group value. If there is none, no earlier row is in the group. |
| Derive.Change | utils.py:118-141 | The change is present iff both values are present and the previous one is non-zero. It is `100*(cur/prev-1)` yearly and `cur/prev` monthly. |
| Derive.PctChange | utils.py:118-119 | One change-column assignment, done in place in one pass that remembers the last value per group. It equals the specification computed against each row's previous group row. |
| Derive.PctAllSpec | utils.py:118-141 | Assigning the change columns one after another computes each over the input table. Keys, names, measures and `YEAR_MONTH` are kept. |
| Derive.WithYearMonth | utils.py:143-145 | It succeeds iff every row has a year and a month in 1..12. Each row then gets `YEAR*100 + MONTH` and nothing else changes. On failure the error names the year and month of the first invalid row. |
| Derive.YearMonthRoundTrip | utils.py:144-145 | `YEAR_MONTH` divided by 100 gives the year, and modulo 100 gives the month. |
| Derive.YearMonthOrder | utils.py:144-145 | `YEAR_MONTH` orders dates chronologically. |
| Derive.SmoothInPlace | utils.py:107-108 | The caller's frame is overwritten with every row smoothed (`Smooth` of its old contents), in place. |
| Derive.PctChanges | utils.py:117-141 | The frame ends as the successive change-column assignments of the measures (`PctAll` of its old contents). |
| Derive.ProcessCombined | utils.py:106-150 | The caller's frame ends with the luminosity smoothed. The result is the specified `process_combined` of the input. |
| Derive.CombinedFails | utils.py:143 | `process_combined` fails iff it runs in monthly mode and some row's month is outside 1..12 (the model's date check). |
| Derive.CombinedRows | utils.py:106-150 | On success the row count is kept. Every output row carries the key and the smoothed luminosity of some input row. |
| Derive.CombinedOnSorted | utils.py:117-145 | On a group-sorted frame, each output row `i` is input row `i` with the luminosity smoothed and the change columns computed over the smoothed frame. In monthly mode it also gets `YEAR_MONTH`. |
| Pipeline.EncodeZone | utils.py:66-68 | `urban` gives 1 and `rural` gives 0. Every other label is kept, and decoding restores the label. |
| Pipeline.EncodeZones | utils.py:66-68 | Key, names, measures, changes and `YEAR_MONTH` are unchanged. The zone code is 1 for `urban`, 0 for `rural`, the label itself for any other zone, and missing when the zone is missing. |
| Pipeline.Tables | utils.py:45-57 | The right tables bring average and maximum temperature. In yearly mode they also bring air pollution and its average, in that order. |
| Pipeline.TablesUnique | utils.py:36-57 | Every right table has unique keys and its own column. None brings luminosity, and monthly mode brings no air column. |
| Pipeline.ProcessData | utils.py:5-70 | The method returns what the specification function `FactTable` defines. |
| Pipeline.JoinedSpec | utils.py:59-61 | The joined frame has the aggregate's rows in its order. Each row has the base key, names and luminosity, plus each right table's value for the key. |
| Pipeline.JoinedSorted | utils.py:59-61 | The joined frame is strictly ascending by key, every key has exactly the key columns, and the frame is group-sorted. |
| Pipeline.FactTableFails | utils.py:5-70 | `process_data` succeeds iff both temperature tables parse and, in monthly mode, every kept luminosity month is in 1..12. |
| Pipeline.FactTableOut | utils.py:59-68 | On success, output row `i` is joined row `i`: luminosity smoothed, measures kept, and the change columns, `YEAR_MONTH` and zone code as specified. |
| Pipeline.FactTableBase | utils.py:28-64 | On success, row for row, the fact table is the luminosity aggregate with its luminosity smoothed. |
| Pipeline.FactTableKeys | utils.py:28-34 | The output keys are strictly ascending. They are exactly the keys present in the normalised luminosity table. |
| Pipeline.FactTableGroups | utils.py:28-34 | Each output row stands for a non-empty group of luminosity rows. It carries that group's first names and the group's luminosity sum plus 1 (`GroupRows`). |
| Pipeline.LookupAggregate | utils.py:61 | Looking a key up in an aggregate gives the reducer over the key's group, or missing when no row has the key. |
| Pipeline.FactTableMeasures | utils.py:36-61 | Each measure column holds its reducer over the normalised rows with the row's key: mean and max for the temperatures, sum and mean for air pollution. It is missing when no such row exists. The air columns are missing in monthly mode (`MeasuresOk`). |
| Pipeline.FactTableChanges | utils.py:117-141 | Every change column is the change of its measure from the previous row of the same group in the output itself. Measures without a change column in this mode have it missing. |
| Pipeline.FactTableLuminosity | utils.py:107-119 | With non-negative raw luminosity, every output luminosity is at least 1. The luminosity change is then present exactly on rows that have a previous row in their group, so it never divides by zero. |
| Pipeline.PrevInSorted | utils.py:117-119 | In a strictly key-sorted table, the previous group row is the latest earlier period of the group. A row without one holds the group's earliest period. |
| Pipeline.FactTablePeriods | utils.py:117-141 | In the output, every change compares a row with the latest earlier year (yearly) or earlier month of the same year (monthly) of its group. The change is missing on each group's earliest period (`PrevIsLatestEarlier`). |
| Pipeline.FactTableCodes | utils.py:64-68 | With `pop_zone` the zone code is the encoded zone, otherwise absent. In monthly mode `YEAR_MONTH` is `YEAR*100 + MONTH` with the month in 1..12; in yearly mode it is absent. |
| Pipeline.MonthlyKeysOk | utils.py:143 | Every monthly aggregate key is a valid date iff every luminosity row's month is in 1..12. |
| Pipeline.BaseLumNonNegative | utils.py:33 | With non-negative raw luminosity, every aggregated luminosity is present and non-negative. |

## Left out

- `LOG_LUMINOSITY_SUM` (`np.log`, utils.py:109) is not modelled. It is a transcendental floating-point function of a column that the model does state.
- The `print` progress messages are left out.
- The model has no column-name handling: upper-casing, renaming and the `DATE` string column. Rows are records with canonical fields.
- IEEE floating point is not modelled: measures are exact reals and means are not rounded.
- Derive.Change: a zero previous value gives a missing change. pandas would give an infinity there (or NaN for 0/0), and the model does not distinguish those values.
- Derive.Change: `pct_change`'s default forward-fill of missing values is not modelled. A missing current or previous value gives a missing change.
- Aggregate.AggregateObsSpec: raw measures are never missing in the model. pandas' `sum`, `mean` and `max` skip NaN values; an all-NaN group sums to 0 and has a NaN mean and max. In the model the mean and the maximum range over every row of the group.
- Aggregate.AggregateLumiSpec: the luminosity and the district names are never missing in the model. pandas' `first` skips NaN names and `sum` skips NaN luminosity.
- Rows with a missing key value are not modelled. pandas `groupby` silently drops them; in the model every key part is present, so no row is dropped.
- Derive.SortByGroup: `sort_values` is modelled as a stable insertion sort. A sort on several columns is a stable lexicographic sort in pandas, and the model matches it. That covers the yearly sort on `GID_2` and `POP_ZONE` and the monthly sort on `GID_2`, `POP_ZONE` when present, and `YEAR` (utils.py:130-135). In yearly mode without the zone, the sort is on the single column `GID_2` (utils.py:115-117), and pandas then uses its default quicksort, which is not stable. That sort may reorder the rows of one district, and a change could then be taken against a year that is not the previous one. The model does not capture this. The frame it sorts is already in key order, and the stable sort leaves it unchanged (`SortSortedIsIdentity`).
- Index alignment when the `groupby().apply` results are assigned back is not modelled. The model assigns by position in the sorted frame.
- Normalise.MonthNumber: accepts only the 12 English month names exactly as capitalised in the table. `pd.to_datetime(format='%B')` also accepts other capitalisations and depends on the locale.
- Derive.WithYearMonth: only the month range is checked. The model does not check the year range of pandas timestamps, and it does not check that the year has four digits, which the string slicing of the `DATE` column needs. pandas assembles the date from the number `YEAR*10000 + MONTH*100 + 1`, so a month that carries into a valid date (such as 101 or 112: 2014 with month 112 reads as 2015-12-01) is accepted by pandas and rejected by the model with `DateError`. The same narrowing applies to `Derive.CombinedFails`, `Pipeline.FactTableFails` and `Pipeline.MonthlyKeysOk`.
- Derive.CombinedFails: fails on a month outside 1..12; pandas accepts the months that carry into a valid date, as described for `Derive.WithYearMonth`.
- Pipeline.FactTableFails: the monthly date failure is the model's month-range check; pandas accepts the months that carry into a valid date, as described for `Derive.WithYearMonth`.
- Normalise.ProcessAir: drops no district and no year. The placeholder districts `VNM.PI` and `VNM.SI` are filtered in `process_lumi` and `process_temp` only, as in the code.
- `process_temp` overwrites its frame's `month` column in place. It is modelled as a function returning the new table, because the caller never sees the input frame again.
