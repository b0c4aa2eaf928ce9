# Serverless cost analysis: the data pipeline of the dashboard

The dashboard reads a CSV of serverless-function telemetry. Every line of the file is
wrapped in quotes. Each function has a name, an environment, invocations per month,
average duration, memory, cold-start rate, provisioned concurrency, GB-seconds, data
transfer and monthly cost. From this the dashboard computes:

- a cost ranking with cumulative cost and cumulative percentage, and the number of
  functions within 80% of the cost;
- the per-row columns `DurationPerMB`, `InvocationPercentage` and `CalculatedGBSeconds`;
- four threshold views: right-sizing candidates, functions with provisioned concurrency,
  low-value workloads and container candidates;
- a predicted cost from a two-feature linear model.

This project models that pipeline in Dafny and proves what it promises.

Modules, one per stage of `script.py`:

- `Table` (`table.dfy`): the `Record` datatype; `Option` cells for text that did not parse as a
  number; the `Float` values a division can produce (finite, `+inf`, `-inf`, NaN); the
  comparisons; and the column sum that skips absent cells, with its
  permutation-invariance lemma.
- `Loader` (`loader.dfy`): Python's `strip`, `[1:-1]` and `split(",")`, the loop that collects the
  data rows, and the construction of the records from the header and the rows.
- `Ranking` (`ranking.dfy`): the cost sort, the running cumulative sum as a loop, the
  cumulative percentages and the 80% count.
- `Derived` (`derived.dfy`): the per-row formulas, the `fillna(0)` imputation and the model's
  prediction.
- `Views` (`views.dfy`): boolean-mask selection and the four views.
- `Dashboard` (`dashboard.dfy`): a `Frame` class whose methods add derived columns in place,
  as the script does to its shared data frame, and a `Run` method that performs the
  script's steps in its order.

Semantics fixed by the model:

- Missing values. An absent cell, or a NaN quotient, fails every comparison (NaN never
  compares true in pandas).
- Division by zero. As in float64 division, a positive value divided by zero gives
  `+inf`, a negative value gives `-inf`, and 0/0 gives NaN. So `-inf` passes `<= 80` and
  `< 1`, and the model keeps that.
- Sums. Sums skip absent cells and an empty sum is 0, as `Series.sum()` does.
- Cost sort. It places absent costs last. The script's sort (pandas' default) is not
  stable, so ties are not ordered in any promised way: the model sorts with one
  particular insertion sort, and every ranking property is stated for any cost-descending
  permutation of the rows.
- Views and columns. The views read the derived columns. The `Frame` methods'
  postconditions make each column equal to the per-row function at every row, so the
  views are stated with those per-row functions.
- Imputation. `Table.ValueOrZero` and `Derived.Features` are the definitions of
  `fillna(0)` and carry no contract of their own. What they mean is stated by
  `Table.SumAppend` and `Table.SumNonNegative` for sums, and by
  `Derived.PredictedCostOfCompleteRow` and `Derived.PredictionOfMissingFeatures` for the
  model's features.
- Stopping early. The provisioned-concurrency chart sizes its bubbles by cost, and
  plotly refuses an absent or negative size. So when a row with positive provisioned
  concurrency has an absent or negative cost, the script stops after Exercise 3.
  scikit-learn refuses to fit a table without rows, so on an empty table the script stops
  at the fit. `Dashboard.Run` reports a section only when the script reaches it. On finite
  input the fit has no other error: it fits collinear or very small tables without
  complaint.

## Model

Most rows name a lemma or a method rather than the function it is about. Such a row
stands for the function it states a property of: `Loader.Split` and
`Loader.SplitRecordLine` for the loader rows, `Table.Sum` for the sum rows,
`Ranking.CumulativeCosts` and `Ranking.CumulativePercentages` for the ranking rows,
`Derived.DurationPerMB`, `Derived.InvocationPercentage` and `Derived.PredictedCost` for
the derived rows, and `Views.RightsizingCandidates`,
`Views.ProvisionedConcurrencyFunctions`, `Views.LowValueWorkloads` and
`Views.ContainerCandidates` for the view rows.

| member | source | states |
|---|---|---|
| `Loader.Strip` | script.py:19-21 | `str.strip()`: the result neither starts nor ends with white space, and it is the input with only a leading run and a trailing run of white space removed |
| `Loader.StripUnique` | script.py:19-21 | however a stripped text is padded with white space on both sides, stripping returns exactly that text, so Strip is fully determined |
| `Loader.StripIdempotent` | script.py:26-28 | stripping twice is stripping once |
| `Loader.HeaderNamesAlreadyStripped` | script.py:14-15 | stripping the column names again (`columns.str.strip()`, lines 26-28) changes nothing, because every header field is already stripped |
| `Loader.DropOuter` | script.py:20 | `s[1:-1]`: a text of two or more characters is its first character, the result and its last character; a shorter text gives the empty string |
| `Loader.SplitShape` | script.py:21 | `split(",")` gives one more field than there are commas; no field holds a comma; joining the fields with commas gives back the text |
| `Loader.SplitJoin` | script.py:21 | a non-empty list of comma-free fields, joined with commas and split again, gives back the same fields |
| `Loader.RecordLineFields` | script.py:20-21 | a line's fields number one more than the commas between its outer characters; each is the trimmed text between two commas; none holds a comma or surrounding white space |
| `Loader.DataRowsAppend` | script.py:17-22 | the rows from two runs of lines are the rows of the first run followed by those of the second, so row order follows line order |
| `Loader.DataRowsCount` | script.py:18-19 | each non-blank line gives exactly one row and a blank line gives none |
| `Loader.CollectDataRows` | script.py:17-22 | the loop appends exactly the fields of the non-blank data lines, in order |
| `Loader.MaxWidth` | script.py:25 | the frame's width: no row is wider, and some row is that wide |
| `Loader.FirstMissing` | script.py:45-48 | the first column the analysis reads that the header lacks, in lookup order: every column before it is present; none exactly when all are present |
| `Loader.IndexOf` | script.py:46 | a column name is looked up at its first position in the header |
| `Loader.BuildTable` | script.py:25-48 | the frame fails with a width error exactly when there are rows and the widest is not as wide as the header, and with a missing-column error naming a column the analysis reads that the header lacks; it succeeds exactly when the widths agree and every such column is present; on success record i is built from row i, so there is one record per row in row order |
| `Loader.MakeRecordCells` | script.py:25-48 | each field of a record is the cell under the first column of that name, coerced by the number parse for the numeric columns, and absent when the row is too short to reach that column |
| `Loader.Load` | script.py:10-28 | no lines means no header; otherwise the first line is the header and the records are built from the rows of the remaining lines |
| `Loader.LoadedRecordCount` | script.py:17-25 | after a successful load there is one record per non-blank data line |
| `Table.Divide` | script.py:98-101 | float division: finite exactly when both cells are present and the divisor is non-zero, and then quotient times divisor is the dividend; a zero divisor gives an infinity with the dividend's sign, or NaN for 0/0; an absent cell gives NaN |
| `Table.ScaleThreshold` | script.py:62-68 | for a positive factor, a scaled float is at most (or under) a threshold exactly when the unscaled float is at most (or under) the threshold divided by the factor; infinities and NaN included |
| `Table.SumPermutation` | script.py:60 | a column sum does not depend on the order of the rows |
| `Table.SumAppend` | script.py:60-61 | the sum over two runs of rows is the sum of the two sums |
| `Table.SumNonNegative` | script.py:60-61 | a column with non-negative present cells has a non-negative sum |
| `Ranking.Insert` | script.py:57-59 | inserting into a cost-descending sequence keeps it cost-descending and adds exactly that row |
| `Ranking.SortByCost` | script.py:57-59 | the cost ranking is cost-descending with absent costs last, and it is a permutation of the rows |
| `Ranking.AbsentCostsLast` | script.py:57-59 | in the ranking, every row after a row with an absent cost also has an absent cost |
| `Ranking.RunningCostSum` | script.py:61 | the running accumulator gives, at each present cost, the sum of the present costs up to and including that row, and absent at an absent cost |
| `Ranking.LastCumulativeIsTotal` | script.py:60-61 | at the last present-cost row of any cost-descending permutation, the cumulative cost equals the table's total cost |
| `Ranking.CumulativeCostMonotone` | script.py:61 | with non-negative costs, the cumulative cost never decreases along the ranking |
| `Ranking.PercentageMonotone` | script.py:62-64 | with non-negative costs and a positive total, the cumulative percentage is finite and never decreases along the present-cost rows |
| `Ranking.PercentageReachesHundred` | script.py:62-64 | with a positive total, the cumulative percentage is exactly 100 at the last present-cost row |
| `Ranking.EightyPercentCount` | script.py:66-68 | the count of entries at most 80 is at most the number of rows |
| `Ranking.CountOfDownwardClosed` | script.py:66-68 | when "at most 80" holds at every entry before one where it holds, the count is the length of the longest prefix where it holds |
| `Ranking.EightyPercentCountIsPrefix` | script.py:57-68 | with non-negative costs and a positive total, the 80% count is at most the row count; every ranked row before it is within 80%, and no row from it on is |
| `Derived.DurationPerMBDefined` | script.py:98-101 | the duration per megabyte is finite exactly when duration and memory are present and the memory is non-zero; then times the memory it gives back the duration; zero memory never gives a finite value |
| `Derived.InvocationPercentageAt` | script.py:146-149 | with a positive total, a present count's share is its count divided by the total, times 100, and an absent count's share is NaN |
| `Derived.InvocationPercentagesSumToHundred` | script.py:146-149 | when the total invocation count is positive, the shares of the rows with a present count add up to 100 |
| `Derived.PercentagesOfPrefix` | script.py:146-149 | the shares of the first n rows add up to 100 times those rows' invocations over the total |
| `Derived.CalculatedGBSeconds` | script.py:166-170 | present exactly when invocations, duration and memory all are; then times 1024000 it equals invocations times duration times memory |
| `Derived.PredictedCostOfCompleteRow` | script.py:166-185 | a row with every cell the model reads present is predicted from its raw cells: intercept plus data-transfer term plus the compute coefficient times invocations times duration in seconds times memory in gibibytes |
| `Derived.PredictionOfMissingFeatures` | script.py:166-185 | a row missing invocations, duration or memory is predicted from its data transfer alone (GB-seconds imputed as 0), and as the intercept when the data transfer is absent too |
| `Views.Filter` | script.py:103-106 | a boolean-mask selection is never longer than the table |
| `Views.FilterCounts` | script.py:119-121 | a row occurs in a selection as often as in the table if it passes the condition, and not at all otherwise |
| `Views.FilterMembers` | script.py:151-154 | a row is in a selection exactly when it is in the table and passes the condition |
| `Views.FilterAppend` | script.py:195-199 | selection keeps table order: selecting from two runs of rows is selecting from each in turn |
| `Views.FilterIdempotent` | script.py:119-121 | applying the same condition to a selection again changes nothing |
| `Views.FilterAllPass` | script.py:103-107 | a selection from rows that all pass is those rows |
| `Views.RightsizingCondition` | script.py:98-106 | a row is a right-sizing candidate exactly when duration and memory are present, memory exceeds 1024, duration over memory is under 0.3 and the environment is "production"; zero or absent memory always excludes it |
| `Views.RightsizingCandidatesSpec` | script.py:103-107 | the right-sizing view is cost-descending and holds each candidate as often as the table does, and nothing else |
| `Views.RightsizingClosed` | script.py:103-107 | selecting the candidates from the right-sizing view again gives back the whole view |
| `Views.ProvisionedConcurrencyCondition` | script.py:119-121 | the view holds exactly the rows whose provisioned concurrency is present and positive, each as often as the table does, and is idempotent |
| `Views.LowValueCondition` | script.py:146-154 | the view holds exactly the rows with present invocations and a cost over 10 whose share of the total is under 1%; with a zero total, only rows with a negative count (share `-inf`) pass |
| `Views.LowValueIdempotent` | script.py:151-154 | applying the low-value condition with the same total to the view again changes nothing |
| `Views.ContainerCondition` | script.py:195-199 | the view holds exactly the rows with present duration over 3000, memory over 2048 and invocations under 1000, each as often as the table does, and is idempotent |
| `Dashboard.Frame.constructor` | script.py:25 | a new frame holds the records and no derived columns |
| `Dashboard.Frame.AddDurationPerMB` | script.py:98-101 | adds the duration-per-megabyte column, one entry per record, and changes nothing else |
| `Dashboard.Frame.AddInvocationPercentage` | script.py:147-149 | adds the invocation-share column for the given total and changes nothing else |
| `Dashboard.Frame.AddCalculatedGBSeconds` | script.py:166-170 | adds the computed GB-seconds column and changes nothing else |
| `Dashboard.Frame.AddPredictedCost` | script.py:185 | adds the predicted-cost column for the given coefficients and changes nothing else |
| `Dashboard.Frame.AddCumulativeCost` | script.py:61 | adds the cumulative-cost column, computed by the running accumulator |
| `Dashboard.Frame.AddCumulativePercentage` | script.py:62-64 | adds the cumulative-percentage column from the cumulative cost and the total |
| `Dashboard.ConcurrencyChartFailsOn` | script.py:119-141 | the provisioned-concurrency chart stops the script exactly when the table has a row with present, positive provisioned concurrency whose cost is absent or negative |
| `Dashboard.Run` | script.py:57-199 | performs the script's steps in order; reports the total cost, a cost ranking that is a cost-descending permutation, its cumulative columns and 80% count, the duration-per-megabyte column and the first two views; the later columns and views are present exactly when the script gets past the provisioned-concurrency chart (line 131-141), and the predictions and the container view also need a non-empty table (the fit at line 177) |
| `Dashboard.ThreeRowExample` | script.py:57-68 | costs 100, 50 and 10 give cumulative costs 100, 150 and 160, percentages 62.5, 93.75 and 100, and an 80% count of 1 |

## Left out

- Reading the file (`open`/`readlines`): the model takes the file's lines as a sequence of strings.
- All Streamlit output (titles, headers, written text and tables) and the plotly
  charts: these are rendering, done by foreign libraries.
- Parsing number text inside `pd.to_numeric`: the model takes it as a parameter from
  text to an optional number. Text such as "inf" that parses to an infinity is therefore
  not modelled.
- Fitting the linear regression (scikit-learn's least squares): the model takes the fitted
  intercept and coefficients as given.
- Dashboard.Run: the other charts (lines 74-92) are assumed to render. A cell that parses
  to an infinity, or a float overflow in the computed GB-seconds, would make the fit
  refuse its input. Infinities in cells are not modelled, so that stop is not modelled
  either.
- Dashboard.Run: the fitted coefficients are a parameter, so the model does not check that
  they are the least-squares fit; it only models that the fit fails on an empty table.
- Float rounding: every number is an exact real.
- Loader.BuildTable: with a duplicated column name, pandas returns a frame instead of a
  column and the script fails; the model uses the first column of that name.
- Loader.BuildTable: a missing `Environment` or `FunctionName` column makes the script
  fail part-way, after earlier exercises are shown; the model reports it when the table
  is built.
- Loader.IsSpace covers the white space of `str.isspace()` as a fixed list of code points.
