# Japan COVID-19 choropleth: the infection aggregation pipeline

The dashboard shows a choropleth of COVID-19 infections by Japanese prefecture
over a date range the user picks. Its only real logic is the map column of
`main.py`, and that is what this project models. It takes the daily case table
(Date, Prefecture_name, Prefecture_code, Infections) and does the following:

1. keeps the records whose date lies in the inclusive range;
2. shows a "no data" message if no record is left;
3. groups the rest by (Prefecture_name, Prefecture_code) and sums Infections per group;
4. sorts the groups by Infections, largest first;
5. adds the `np.log` column and overwrites every row whose log is minus infinity with 0;
6. adds each row's percentage of the total;
7. inner-joins the boundary features to the rows on `id == Prefecture_code`.

Modules, one file each:

- `Tables` (`tables.dfy`): the case record, the group key and the summary-frame row. The row's cells can take the values the code puts in them: a name or the integer 0, a log value or the 0 written over minus infinity, a percentage or NaN.
- `DateFilter` (`datefilter.dfy`): the inclusive filter and the session-state guard around it.
- `Grouping` (`grouping.dfy`): group-by-and-sum as a fold over the records, checked against `SumFor`, a sum-per-key reference definition.
- `Sorting` (`sorting.dfy`): the descending sort.
- `SummaryFrame` (`summaryframe.dfy`): the class `GroupFrame`, i.e. `df_group`. Its methods are the in-place steps of lines 80-83. Each is tied to a function of the old rows, and lemmas state the properties of those functions.
- `GeoJoin` (`geojoin.dfy`): the inner join.
- `Dashboard` (`dashboard.dfy`): the map column. `MapColumn` runs the steps on a `GroupFrame` and is proved equal to `MapColumnOutcome`. Lemmas state what the outcome contains.

Modelling choices:

- Dates are integer day ordinals.
- Infections is a `nat`.
- Percentages are exact `real`s.
- The start and end dates are inputs of type `Option<Date>`. `None` stands for an unset session-state value; in that case line 68 skips the filter.
- The masked assignment `df_group[mask] = 0` on line 82 sets every column of a zero-count row to 0, including Prefecture_name and Prefecture_code. A reading in which `= 0` resets only the log column would keep Osaka's name and code 27 on its zero row; the code resets the whole row, and the model follows the code. In `TokyoOsakaScenario` that row becomes `Row(NameZero, 0, 0, ...)`, so the Osaka feature does not appear in the join.
- When every filtered count is 0, the percentage column is `0 / 0`, which the model represents as `NaN`.

## Model

| member | source | states |
|---|---|---|
| DateFilter.FilterDates | main.py:71 | a record is kept exactly when it occurs in the table and start <= Date <= end, both bounds included |
| DateFilter.FilterDatesAppend | main.py:71 | the filter keeps relative order: filtering a concatenation gives the concatenation of the filtered parts |
| DateFilter.FilterDatesCount | main.py:71 | a record in range is kept as many times as it occurs; a record out of range is never kept |
| DateFilter.SelectDates | main.py:68-71 | with both session dates set, the result is the inclusive filter; with either unset, the whole table is kept |
| Dashboard.NoDataExactlyWhenEmpty | main.py:73-74 | the no-data outcome happens exactly when no record lies in the range (or, with a date unset, when the table is empty); otherwise a summary and a join are produced |
| Grouping.AddRecordSpec | main.py:76-79 | folding one record into the aggregation adds its key, keeps keys distinct, adds its count to that key's group only, and grows the total by its count |
| Grouping.GroupSumSpec | main.py:76-79 | the aggregation has distinct keys, exactly the keys of the table, the per-key sum for each key, and the table's total |
| Grouping.GroupSumRows | main.py:76-79 | one row per distinct (name, code) pair: as many rows as distinct keys, no two rows share a key, every key has a row, and each row's Infections is the sum over the records with its key |
| SummaryFrame.GroupFrame.constructor | main.py:76-79 | the frame starts as the aggregated groups, with name, code and summed Infections |
| Sorting.SortDescendingSpec | main.py:80 | the sorted rows are a permutation of the input, Infections is non-increasing, and the total is unchanged |
| Sorting.SortedColumnUnique | main.py:80 | any two non-increasing permutations of the same rows have the same Infections column, so the unspecified tie order cannot show in it |
| SummaryFrame.GroupFrame.SortValuesDescending | main.py:80 | sorts the frame in place: a permutation of the old rows, non-increasing in Infections |
| SummaryFrame.LogarithmSentinel | main.py:81 | after np.log, a row is minus infinity exactly when its count is 0; positive counts get Ln(count); no other column changes |
| SummaryFrame.GroupFrame.AssignLogarithm | main.py:81 | adds the log column in place; the mask marks exactly the zero-count rows |
| SummaryFrame.OverwriteZeroRows | main.py:82 | a zero-count row gets name 0, code 0, Infections 0 and log 0; positive rows are unchanged; the Infections column, its total and its order are kept; no minus infinity is left |
| SummaryFrame.GroupFrame.OverwriteMinusInfinityRows | main.py:82 | applies the masked overwrite in place and leaves no minus-infinity cell |
| SummaryFrame.PercentageKeepsColumns | main.py:83 | adding the percentage column changes no other column and keeps the total |
| SummaryFrame.PercentagesSumTo100 | main.py:83 | with a positive total, the percentage column sums to exactly 100 |
| SummaryFrame.PercentageCells | main.py:83 | each cell is 100 * Infections / total and lies in [0, 100]; with total 0, each cell is NaN |
| SummaryFrame.GroupFrame.AssignPercentage | main.py:83 | adds the percentage column in place; with a positive total it sums to 100 |
| Dashboard.SummaryShape | main.py:76-83 | the summary has one row per distinct key of the filtered table, is non-increasing in Infections, and its total equals the filtered total, zero overwrite included |
| Dashboard.SummaryRows | main.py:76-82 | a positive row carries a filtered key's name and code, that key's sum and its log; a zero row has name 0, code 0 and log 0 |
| Dashboard.SummaryPositiveRowsDistinct | main.py:76-82 | two summary rows with positive Infections never share a (Prefecture_name, Prefecture_code) pair, so each such key has exactly one row |
| Dashboard.PositiveKeysShown | main.py:76-82 | every filtered key with a positive sum has a summary row with its name, code and sum |
| Dashboard.SummaryPercentages | main.py:83 | with a positive filtered total, the percentages are each key's share times 100, lie in [0, 100] and sum to 100; with total 0, all are NaN |
| GeoJoin.InnerJoinCount | main.py:97-101 | a (feature, row) pair occurs in the join as often as the feature times as often as the row when id == code, and otherwise never |
| GeoJoin.InnerJoinMembership | main.py:97-101 | a pair is in the join exactly when the feature is in the features, the row is in the summary, and id == code |
| GeoJoin.UnmatchedFeatureDropped | main.py:97-101 | a feature whose id is no summary row's code is absent from the join |
| Dashboard.MapColumnJoin | main.py:81-101 | join membership over the pipeline's summary; a feature with a nonzero id drops out when no filtered key with that code has a positive sum (absent from the range, or zeroed to code 0); a feature matching a key with a positive sum is kept next to that key's row |
| Dashboard.MapColumn | main.py:67-101 | the map column, step by step on the frame, equals `MapColumnOutcome` of its inputs |
| Dashboard.TokyoOsakaScenario | main.py:71-101 | the example Tokyo 10 + 20 and Osaka 0 over two days: Tokyo 30 at 100 percent comes first, Osaka's row is zeroed entirely, and only Tokyo's feature joins |

## Left out

- Loading the GeoJSON and CSV files, `pd.to_datetime` parsing and `@st.cache_data` memoisation (lines 21-30): file I/O and framework caching. The tables are inputs.
- Page configuration, layout, the two date-input widgets and their clamping to the table's min and max dates (lines 32-66): UI. The session-state dates are inputs.
- The folium map, the choropleth colour scale bound to the log column, the style and highlight functions, tooltips and `st_folium` rendering (lines 11-18, 38-42, 85-95, 103-119): third-party rendering.
- The floating-point value of `np.log`: only its role as the zero sentinel is kept (`Ln(n)` is symbolic).
- IEEE rounding of the percentage: exact rationals are used, so the sum is exactly 100 rather than 100 up to rounding.
- The polygon geometry of the features: it passes through the join unchanged and is not a field of `Feature`.
- The order of the group keys after `groupby`: pandas sorts them; the model keeps first appearance. The descending sort that follows fixes the row order only up to ties, and among rows of equal Infections its output still depends on this input order, so the model's order of tied rows (in the summary and in the join) may differ from the program's. No lemma depends on the order of tied rows.
- Sorting.SortDescendingSpec: pandas' default quicksort is not stable. The model sorts with a stable insertion sort, whose order of tied rows may differ from the one pandas produces from its key-sorted input; the contract promises only a permutation and a non-increasing order. `SortedColumnUnique` shows that tie order cannot affect the Infections column.
- GeoJoin.InnerJoinMembership: the row order of the merged table is not stated. The model lists rows feature by feature, which is pandas' inner-join order, but no lemma relies on it.
- Dashboard.SummaryRows: does not itself count the zeroed rows. `SummaryShape` (one row per key), `SummaryPositiveRowsDistinct` and `PositiveKeysShown` together imply one zeroed row per filtered key whose sum is 0, but no single lemma states that count.
- Negative counts, missing values dropped by `groupby`, and 64-bit overflow of the sums: counts are unbounded naturals.
