# Spaceship Titanic CSV pipeline — Dafny model

This project models `basic/course4/sol1/subject.py`, a small Python script
that works on the Spaceship Titanic passenger data without libraries. It has
five steps:

- `merge_csv_files` concatenates the train and test CSV files. It tags every
  record with a `dataset` column (`train` / `test`) and gives test records an
  empty `Transported` field.
- `read_merged_csv` reads the merged file back into a column store. The store
  is a dictionary from column name to the list of that column's values.
- `separate_train_test_data` splits the store by the `dataset` tag into a
  train store and a test store.
- `analyze_transported_correlation` scores columns against `Transported`:
  - each of four categorical columns gets the largest distance of a
    category's transport ratio from the overall ratio;
  - each of six numeric columns gets the difference of the group means
    divided by the standard deviation.
- `analyze_age_groups_transported` counts passengers per decade (teens to
  seventies). It computes each decade's transport ratio and draws a
  20-character bar and an eleven-level point chart.

Every Python function builds local lists and dictionaries in loops. Each one
is modelled in two parts:

- a Dafny `method` with the same loops, proved equal to a specification
  function;
- lemmas that state what the specification function means.

Files are sequences of already-split rows (`seq<seq<string>>`). The column
store is a `map<string, seq<string>>`. Each exception the Python code lets
escape becomes an error value of a `Result`:

- `StopIteration` on a missing header becomes `EmptyFile`;
- `IndexError` on `header[i]` becomes `RowTooLong`;
- `KeyError` becomes `MissingColumn(name)`;
- `IndexError` on a column shorter than the `dataset` column becomes
  `ShortColumn`.

Modules:

- `Table` (`table.dfy`): the shared vocabulary, i.e. rows, the column store,
  the fixed names, the errors and the transpose `ColumnsOf`.
- `Merger` (`merge.dfy`), `Loader` (`load.dfy`) and `Splitter` (`split.dfy`):
  the three data steps.
- `RoundTrip` (`roundtrip.dfy`): merge, then load, then split gives back both
  tables.
- `Categorical` (`categorical.dfy`), `Numeric` (`numeric.dfy`) and
  `Correlation` (`correlation.dfy`): the correlation analysis.
- `AgeGroups` (`age_groups.dfy`): the age-group analysis.

## Model

| member | source | states |
|---|---|---|
| Table.ColumnsOf | basic/course4/sol1/subject.py:61-76 | The store a well-formed table denotes. Its keys are exactly the header names, `header[i]` maps to field i of every row, and all columns have the same length. |
| Merger.MergedRows | basic/course4/sol1/subject.py:17-41 | The merged file has 1 + train + test rows. Row 0 is the header plus `dataset`. Train row k is record k plus `train`. Test row k is record k plus `""` and `test`. |
| Merger.MergeCsvFiles | basic/course4/sol1/subject.py:3-54 | The merge fails with `EmptyFile` exactly when either file has no header row. Otherwise it yields `MergedRows` of the train header and both files' records. The counters are the record counts, and the reported total is their sum. |
| Loader.EmptyColumns | basic/course4/sol1/subject.py:67-69 | Every header name is bound to an empty list, and nothing else is bound. |
| Loader.InitColumns | basic/course4/sol1/subject.py:67-69 | The initialising loop yields exactly `EmptyColumns(header)`. |
| Loader.AppendRecord | basic/course4/sol1/subject.py:73-74 | The field loop fails exactly when the record has more fields than the header. Otherwise it appends field i to the list of `header[i]` for every field. |
| Loader.ReadMergedCsv | basic/course4/sol1/subject.py:57-76 | The reader equals `Load`: `EmptyFile` for a file without a header row, `RowTooLong` when some record is longer than the header, else the appended columns. |
| Loader.AppendRowAt | basic/course4/sol1/subject.py:73-74 | With distinct names, appending a record's first n fields extends the list of `header[i]` by `row[i]` exactly when i < n and leaves the list unchanged otherwise. |
| Loader.LoadRowsAt | basic/course4/sol1/subject.py:72-74 | With distinct names and full-width records, the loaded list of `header[i]` is field i of every record, in order. |
| Loader.LoadRowsTransposes | basic/course4/sol1/subject.py:57-76 | With distinct names and full-width records, the loaded store is exactly the transpose `ColumnsOf(header, rows)`. |
| Loader.LoadWellFormed | basic/course4/sol1/subject.py:57-76 | A file with a distinct header and full-width records loads without error into its transpose. |
| Splitter.InitParts | basic/course4/sol1/subject.py:90-94 | Both stores bind every input column except `dataset` to an empty list. |
| Splitter.AppendAt | basic/course4/sol1/subject.py:99-105 | The column loop for row i fails exactly when some column other than `dataset` has no index i. Otherwise it appends `m[c][i]` to every column's list, with the same keys. |
| Splitter.DealRow | basic/course4/sol1/subject.py:97-105 | One row is dealt out: a `train` row extends the train store, a `test` row the test store, any other tag neither. A failure implies some column is too short for a tagged row. |
| Splitter.SeparateTrainTestData | basic/course4/sol1/subject.py:79-107 | The splitter equals `SplitTable`: `MissingColumn("dataset")`, else `ShortColumn` when a column is too short for a tagged row, else the two stores. Each store has the input's columns minus `dataset`, all of one length. |
| Splitter.SplitShape | basic/course4/sol1/subject.py:83-107 | In a successful split both stores have the input's keys minus `dataset`. Each column of a store is as long as the number of rows with that store's tag, so both stores are rectangular. |
| Splitter.ShortColumnFails | basic/course4/sol1/subject.py:101-105 | A column with no value at a `train` or `test` row makes the whole split fail. |
| Splitter.PickSnoc | basic/course4/sol1/subject.py:97-105 | Dealing out row i appends the row's value to a side exactly when the row carries that side's tag. |
| Splitter.PartUpToStep | basic/course4/sol1/subject.py:97-105 | A loop step keeps each side equal to the split of the rows dealt so far. |
| Splitter.TagIndices | basic/course4/sol1/subject.py:97-98 | The indices listed for a tag number the rows with that tag, and every listed index points at a row with that tag. |
| Splitter.TagIndicesComplete | basic/course4/sol1/subject.py:97-105 | Every row with the tag is listed, and the listed indices increase, so row order is kept. |
| Splitter.PickAtTagIndices | basic/course4/sol1/subject.py:97-105 | The k-th value of a side is the column's value at the k-th row with that tag. |
| Splitter.PickAppend | basic/course4/sol1/subject.py:97-105 | Splitting two consecutive blocks of rows is splitting each block and concatenating the results. |
| Splitter.PickPrefixValues | basic/course4/sol1/subject.py:101-105 | Only the values at tagged rows matter. A longer column with the same prefix splits the same. |
| Splitter.PickAllTagged | basic/course4/sol1/subject.py:98-101 | Rows that all carry the tag are dealt out whole. |
| Splitter.PickNoneTagged | basic/course4/sol1/subject.py:98-105 | Rows none of which carries the tag contribute nothing. |
| RoundTrip.LoadMerged | basic/course4/sol1/subject.py:17-76 | Loading the merged file succeeds. The `dataset` column is `train` on every train row then `test` on every test row. Column `header[i]` is the train records' field i followed by the padded test records' field i. |
| RoundTrip.SplitColumn | basic/course4/sol1/subject.py:97-105 | A column made of a train block and a test block, tagged accordingly, splits back into exactly the two blocks. |
| RoundTrip.SplitMerged | basic/course4/sol1/subject.py:79-107 | Splitting a store laid out like the loaded merge gives the train table's columns and the padded test table's columns. |
| RoundTrip.MergeLoadSplit | basic/course4/sol1/subject.py:3-107 | Merge, then load, then split is lossless. The train store is the train table's transpose. The test store is the transpose of the test records, each extended by an empty outcome field. |
| RoundTrip.TestSideColumns | basic/course4/sol1/subject.py:36-41 | The test store's column named by the last train header (the train file's outcome column) is all `""`, and each other column is the test table's column. |
| Categorical.TallyUpTo | basic/course4/sol1/subject.py:127-137 | The category dictionary lists each key once. Its key list and map agree. Every record counts at least one row and no more transported rows than rows. |
| Categorical.CategoryStats | basic/course4/sol1/subject.py:127-137 | The counting loop yields `TallyUpTo` over the whole column. `total_count` is the number of rows whose value and outcome are both non-empty. |
| Categorical.TallyFirstSeen | basic/course4/sol1/subject.py:130-133 | Every key of the category dictionary is the value of some counted row, and the keys are listed in the order of their first counted row. |
| Categorical.FirstUseIsFirst | basic/course4/sol1/subject.py:130-131 | No counted row before a value's first counted row has that value. |
| Categorical.TallyCounts | basic/course4/sol1/subject.py:130-136 | A value is a category exactly when some counted row has it. Its record is the number of such rows and the number of those transported. |
| Categorical.TallySum | basic/course4/sol1/subject.py:130-137 | The categories' totals add up to `total_count`. |
| Categorical.MaxDiff | basic/course4/sol1/subject.py:140-148 | The max loop yields `MaxDev` over the categories in dictionary order. |
| Categorical.MaxDevIsMax | basic/course4/sol1/subject.py:140-150 | `max_diff` is at least every category's distance from the overall ratio. It is 0 or equal to one of those distances, and it lies in [0, 1]. |
| Table.RatioBounds | basic/course4/sol1/subject.py:142 | A category's ratio lies in [0, 1]. |
| Categorical.OverallRatioBounds | basic/course4/sol1/subject.py:146 | The overall ratio lies in [0, 1]. |
| Categorical.CategoricalScore | basic/course4/sol1/subject.py:122-150 | The score of a categorical column equals `CategoricalDeviation` and lies in [0, 1]. |
| Categorical.CategoricalDeviationBounds | basic/course4/sol1/subject.py:140-150 | Every categorical score lies in [0, 1]. |
| Numeric.NumericScore | basic/course4/sol1/subject.py:159-185 | The grouping loop yields a score exactly when both groups are non-empty. The score equals `NumericScoreOf` and is never negative. |
| Numeric.GroupsPartition | basic/course4/sol1/subject.py:162-171 | Each non-empty, parseable value lands in exactly one group. Together the groups are, as a multiset, the parseable values. |
| Numeric.GroupsByOutcome | basic/course4/sol1/subject.py:166-169 | The transported group is the parseable values of rows whose outcome is `"True"`. The other group is those of all other rows. Both keep row order. |
| Numeric.VarianceNonNegative | basic/course4/sol1/subject.py:183 | The population variance passed to the square root is never negative. |
| Numeric.NormalizedDiffNonNegative | basic/course4/sol1/subject.py:183-184 | The normalized difference is never negative, and it is 0 whenever the standard deviation is not positive. |
| Numeric.ConstantColumnScoresZero | basic/course4/sol1/subject.py:174-184 | A column whose parsed values are all equal scores 0, whatever the square root returns. |
| Correlation.AnalyzeTransportedCorrelation | basic/course4/sol1/subject.py:110-194 | The analysis fails with `MissingColumn("Transported")` exactly when there is no outcome column. Otherwise it returns `Correlations`, the categorical and numeric scores. |
| Correlation.CategoricalScoresStep | basic/course4/sol1/subject.py:122-150 | Visiting a categorical column adds its score when the column is present and otherwise changes nothing. |
| Correlation.ScoresStep | basic/course4/sol1/subject.py:155-185 | Visiting a numeric column adds its score when the column is present and both groups are non-empty, and otherwise changes nothing. |
| Correlation.CorrelationsKeys | basic/course4/sol1/subject.py:122-185 | A column is scored exactly when it is present and is either one of the four categorical columns or one of the six numeric columns with both groups non-empty. |
| Correlation.CorrelationsBounds | basic/course4/sol1/subject.py:140-185 | Every score is non-negative, and every categorical score is at most 1. |
| AgeGroups.BucketOfDecade | basic/course4/sol1/subject.py:222-238 | The if-chain puts an age in a decade exactly when it is in [10, 80). That decade is `floor(age / 10) - 1`, whose range holds the age. |
| AgeGroups.CountAgeGroups | basic/course4/sol1/subject.py:204-245 | The counting loop yields `AgeTally` over the whole age column. |
| AgeGroups.AgeTallyCounts | basic/course4/sol1/subject.py:217-243 | Each decade's record is the number of rows whose parsed age falls in that decade, and the number of those transported. |
| AgeGroups.AgeTallyValid | basic/course4/sol1/subject.py:240-242 | There are seven records, and none has more transported rows than rows. |
| AgeGroups.AgeTallyTotal | basic/course4/sol1/subject.py:217-245 | The decade totals add up to the number of rows whose age parses and is in [10, 80). Younger, older, empty and unparseable ages are counted nowhere. |
| AgeGroups.BarLengthOfCounts | basic/course4/sol1/subject.py:255-259 | `int(ratio * 20)` is `20 * transported / total` rounded down, and it lies in [0, 20]. |
| AgeGroups.BarLayout | basic/course4/sol1/subject.py:260 | A bar is 20 characters: full blocks up to the bar length, light shade after. |
| AgeGroups.BarLengthMonotone | basic/course4/sol1/subject.py:259 | A higher ratio never gets a shorter bar. |
| AgeGroups.BarChart | basic/course4/sol1/subject.py:252-262 | The ratio loop yields the table lines `BarRows` and the ratio list `Ratios`. |
| AgeGroups.BarRowsFaithful | basic/course4/sol1/subject.py:252-262 | Each table line shows a decade with data: its record, its ratio and the bar of that ratio. The lines are in decade order, and the ratio list holds the same ratios in the same order. |
| AgeGroups.BarRowsComplete | basic/course4/sol1/subject.py:253-256 | Every decade with data gets a table line. |
| AgeGroups.RowShape | basic/course4/sol1/subject.py:255-260 | A line's ratio lies in [0, 1]. Its bar is 20 characters whose first `20 * transported / total` (rounded down) are full blocks. |
| AgeGroups.LargestOfIsMax | basic/course4/sol1/subject.py:269 | `max(ratios)` is one of the ratios, and no ratio exceeds it. |
| AgeGroups.RatiosMembers | basic/course4/sol1/subject.py:252-256 | The ratio list holds exactly the ratios of the decades with data. |
| AgeGroups.LevelLine | basic/course4/sol1/subject.py:273-285 | The inner chart loop yields the level's prefix followed by one three-character cell per decade. |
| AgeGroups.PointChart | basic/course4/sol1/subject.py:267-294 | The chart loops yield the lines for levels 1.0 down to 0.0, then the axis and the labels. The maximum is `max(ratios)`, or 1 when the list is empty. |
| AgeGroups.ChartShape | basic/course4/sol1/subject.py:267-294 | The chart has eleven level lines, the axis and the labels, and each level line is five prefix characters plus three per decade. |
| AgeGroups.CellsLength | basic/course4/sol1/subject.py:275-285 | Every decade adds three characters to a line. |
| AgeGroups.CellsPrefix | basic/course4/sol1/subject.py:275-285 | Decade g's cell follows the cells of the decades before it. |
| AgeGroups.CellsFillFromBottom | basic/course4/sol1/subject.py:276-285 | A point at one level implies a point at every lower level. A decade without data has no point at any level. A decade with data always has the 0.0 point. When the largest ratio is 0, no point appears above 0.0. |
| AgeGroups.MaxDecadeMarked | basic/course4/sol1/subject.py:269-283 | When the largest ratio is positive, the 1.0 line marks exactly the decades with the largest ratio, and each such decade is marked at every level. |
| AgeGroups.AnalyzeAgeGroupsTransported | basic/course4/sol1/subject.py:197-295 | The analysis fails with `MissingColumn("Age")` first, then with `MissingColumn("Transported")`. Otherwise it returns the records, table lines, chart and maximum of `AgeReportOf`. |

## Left out

- File I/O and CSV syntax are not modelled: opening files, encodings, quoting and writing the merged file. Files are given as sequences of already-split rows, and the merged file is returned as rows.
- Console output is not modelled: progress messages, the per-category and per-mean lines, the sorted ranking, the column padding of the age table and the legend. Only the values behind them are modelled: table lines as `BarRow` records, chart lines as strings.
- The `__main__` block is not modelled. It only calls the five functions in sequence; `RoundTrip` states the data path it exercises.
- `float(value)` is the parameter `parse`. `None` stands for its `ValueError`. Parsing rules, NaN and infinities are not modelled.
- `** 0.5` is the parameter `sqrt`. Means, variance and ratios are exact rational arithmetic.
- Floating-point rounding is not modelled. This affects `int(ratio * 20)` and `normalized_ratio >= level / 10`: near a boundary, floats may differ from the exact result.
- Python dictionary key order is not modelled for the column store and the correlation dictionary, which are unordered maps here. Because of this, when several columns are too short for the splitter, which column raises first is not observable. The category dictionary keeps its insertion order, because `max_diff` walks it.
- Correlation.AnalyzeTransportedCorrelation: requires every column to have the same length. It therefore does not model the `IndexError` of `transported[i]` when the outcome column is shorter than a scored column. The only producer of its input, the splitter, always returns such stores (`Splitter.SplitShape`).
- AgeGroups.AnalyzeAgeGroupsTransported: requires every column to have the same length, for the same reason.
