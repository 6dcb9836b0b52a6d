# Employee hours report: the pivot, its date columns, counts, export, session and dashboard

The application reads a CSV of time-tracking rows and shows them as a pivot. The pivot nests job
description → employee → check date → hours. A row's hours are its `ESSickHours` plus its
`EWALIWALIHours`. The columns are every check date present, in calendar order. Under each job
group, a count row says how many employees reach an hours threshold on each date. The same
structure can be exported as flat spreadsheet rows. A dashboard, reachable only in code, sums
the first numeric column per group.

This project models that core in Dafny and proves what it promises:

- `Common`: first-seen order (what a JavaScript `Set` or an object's key list keeps), order-keeping filters and subsequences.
- `Objects`: plain JavaScript objects. Each is a list of own keys in insertion order plus a map from key to value. `obj[k] = v` appends a new key and keeps an existing key in place.
- `JsValues`: the cell values the CSV parser produces (text, number, nothing). Also JavaScript truthiness, `String(v)` and `Number(v)` on exact decimals (with NaN for text that is not a number), `n || 0`, ASCII `toLowerCase` and `includes`.
- `Pivot`: the `pivotedData` fold. `BuildPivot` loops over the rows like the component's `forEach`. It is proved to produce a pivot whose leaves are exactly the key paths some row is filed under, each holding the sum of exactly those rows' hours. Keys are in first-seen order, and the grand total is kept. Further lemmas cover the "Unknown" bucket, that no row is dropped, key order, and independence from row order.
- `InheritedKeys`: the fold exactly as written on a plain `{}`, where the existence tests see names inherited from `Object.prototype` (see Findings).
- `DateAxis`: `allCheckDates`. The dates of the rows with a truthy `CheckDate`, once each, sorted with the component's comparator as a stable sort. Calendar order is proved for dates written yyyy-mm-dd.
- `TableView`: the table's cells (`dates[date] || 0`), the highlight rule, `getThresholdCount` and the search filter.
- `Export`: `exportToExcel` up to the spreadsheet writer. Per group come the employee rows, then the count row, then an empty row. Every cell's content is proved.
- `Session`: the `App` component's state (rows, view, threshold, highlight flag) as a class with one method per handler.
- `Dashboard`: the dashboard's choice of metric, its valid rows, its per-group sums and its first-five cut.

## Model

| member | source | states |
|---|---|---|
| Pivot.BuildPivot | src/components/DataTable.tsx:23-50 | The loop over the rows yields the pivot of the rows. Job keys are in first-seen order, and employee keys in first-seen order under their job. There is a leaf exactly for each key path some row is filed under, holding the sum of exactly those rows' hours. The sum of all leaves is the sum of all rows' hours. |
| Pivot.FileRow | src/components/DataTable.tsx:29-34 | One row is filed under `String(v \|\| 'Unknown')` of its job, name and date, with `(Number(sick) \|\| 0) + (Number(wali) \|\| 0)` hours. |
| Pivot.FileHours | src/components/DataTable.tsx:36-46 | Creating the missing job, employee and date entries and then adding the hours equals one accumulation step. The leaf grows by the hours and no other leaf changes. |
| Pivot.PivotOfRepresents | src/components/DataTable.tsx:28-47 | The fold over any rows represents them: key order, leaves and sums as in BuildPivot. |
| Pivot.AccumulatedCell | src/components/DataTable.tsx:42-46 | After one row the leaf at its path exists and holds the old value (0 if missing) plus the row's hours. Every other leaf keeps its existence and hours. |
| Pivot.AccumulatedTotal | src/components/DataTable.tsx:46 | One row adds exactly its hours to the pivot's total. |
| Pivot.EveryRowFiled | src/components/DataTable.tsx:28-34 | No row is dropped: every row has a leaf at its key path, whatever its cells. |
| Pivot.MissingKeyIsUnknown | src/components/DataTable.tsx:29-31 | A falsy or absent job, name or date is filed under "Unknown". |
| Pivot.JobOrder | src/components/DataTable.tsx:36-38 | Job groups are listed in the order their job first occurs in the rows. |
| Pivot.OrderIndependent | src/components/DataTable.tsx:28-47 | Reordering the rows changes no leaf and no leaf's hours. |
| Pivot.SamePathMerges | src/components/DataTable.tsx:36-46 | Two rows on one key path give one group, one employee and one leaf holding both rows' hours. |
| InheritedKeys.AccumulatedAsWritten | src/components/DataTable.tsx:36-46 | As written, one row whose job is an inherited name changes nothing. Otherwise its job becomes a key (appended if new), and every other job keeps its entry. |
| InheritedKeys.PivotAsWritten | src/components/DataTable.tsx:28-47 | As written, the pivot's jobs are exactly the rows' jobs that are not inherited names: a job named like an inherited method ("toString", ...) never becomes a key. |
| InheritedKeys.ToStringRowLostAsWritten | src/components/DataTable.tsx:36-46 | As written, a row of 8 hours whose job is "toString" leaves a pivot with no keys and total 0. |
| InheritedKeys.ToStringRowKept | src/components/DataTable.tsx:36-46 | With own-key tests, the same row is filed under "toString" / "Alice" / "2024-01-05" with 8 hours. |
| InheritedKeys.AsWrittenAgrees | src/components/DataTable.tsx:36-46 | For rows whose job and name are not inherited names, the code as written and the model give the same pivot. |
| DateAxis.CollectDates | src/components/DataTable.tsx:52-60 | The columns are the texts of the truthy `CheckDate`s, each exactly once. A text is a column exactly when some row carries it as its date. When all are yyyy-mm-dd dates they are in calendar order. |
| DateAxis.Earlier | src/components/DataTable.tsx:59 | The comparator orders only two valid dates, with distinct texts, and never both ways. |
| DateAxis.SortByDate | src/components/DataTable.tsx:59 | Sorting permutes the dates (same multiset). |
| DateAxis.SortByDateSorted | src/components/DataTable.tsx:59 | Dates written yyyy-mm-dd come out ascending by calendar day. |
| DateAxis.SortByDateDistinct | src/components/DataTable.tsx:53-59 | Sorting the set's elements keeps them distinct and keeps the same members. |
| DateAxis.PresentDatesMember | src/components/DataTable.tsx:54-57 | A text is among the collected dates exactly when some row has a truthy `CheckDate` with that text. |
| DateAxis.UndatedHoursHidden | src/components/DataTable.tsx:31-56 | Rows without a date are filed under "Unknown" in the pivot. Unless some row literally carries "Unknown" as its date, there is no "Unknown" column, so their hours are in no column. |
| DateAxis.SortExample | src/components/DataTable.tsx:59 | 2024-02-01, 2024-01-15 and 2024-03-10 are sorted to 2024-01-15, 2024-02-01, 2024-03-10. |
| TableView.HoursOnIsCell | src/components/DataTable.tsx:156 | A table cell shows the pivot's leaf, or 0 where there is none. |
| TableView.IsHighlighted | src/components/DataTable.tsx:157 | With highlighting off no cell is green. With it on, a cell is green exactly when its hours reach the threshold. |
| TableView.ThresholdCount | src/components/DataTable.tsx:66-71 | The count never exceeds the number of the job's employees. |
| TableView.ThresholdCountIsSize | src/components/DataTable.tsx:66-71 | The count is exactly the number of the job's employees whose cell on the date (0 when missing) is at least the threshold. |
| TableView.ThresholdInclusive | src/components/DataTable.tsx:69 | Hours equal to the threshold count. |
| TableView.ThresholdCountAntitone | src/components/DataTable.tsx:66-71 | Raising the threshold never raises the count. |
| TableView.CountReachingAll | src/components/DataTable.tsx:67-70 | When every employee reaches the threshold, all are counted. |
| TableView.CountMatchesHighlight | src/components/DataTable.tsx:155-177 | With highlighting on, the count row equals the number of green cells in its column. With it off, no cell is green. |
| TableView.FilterJobs | src/components/DataTable.tsx:62-64 | The shown groups keep the pivot's order. A job is shown exactly when its lower-cased name contains the lower-cased search term. |
| TableView.EmptySearchKeepsAll | src/components/DataTable.tsx:62-64 | An empty search shows every group. |
| Export.Flatten | src/components/DataTable.tsx:73-94 | The loop over the groups produces exactly the specified rows of every group, in pivot order. |
| Export.FlattenGroup | src/components/DataTable.tsx:76-93 | One group produces its employee rows, its count row and an empty row. |
| Export.FillEmployeeRow | src/components/DataTable.tsx:77-82 | An employee row has the job and name, then `dates[date] \|\| 0` under every date column. |
| Export.FillCountRow | src/components/DataTable.tsx:86-90 | The count row is labelled `COUNT ≥ threshold HRS` with an empty name, then the threshold count under every date column. |
| Export.GroupShape | src/components/DataTable.tsx:76-93 | A group has one row per employee plus two. Row i shows employee i's leaf under each date. The count row shows the threshold count. The last row is empty. |
| Export.Headings | src/components/DataTable.tsx:78-86 | Employee rows carry the job and the name, and the count row its label and "". |
| Export.FillDatesKeys | src/components/DataTable.tsx:78-81 | A row's columns are the two headings followed by the dates, in order. |
| Export.ExportLength | src/components/DataTable.tsx:74-94 | The export has, per group, its employees plus two rows. |
| Export.GroupPlacement | src/components/DataTable.tsx:76-94 | Group g's rows come right after the rows of the groups before it. |
| Export.CountLabel | src/components/DataTable.tsx:86 | The count row's label is "COUNT ≥ ", then the threshold's text, then " HRS", and the threshold's text can be read back from it. |
| Export.DefaultLabel | src/components/DataTable.tsx:86 | At the default threshold the count row is labelled "COUNT ≥ 40 HRS". |
| Export.NursePivot | src/components/DataTable.tsx:28-47 | Shifts of 20 + 25 and 0 + 0 hours for the nurse Alice on 2024-01-01 give one group with a single cell of 45 hours. |
| Export.NurseCount | src/components/DataTable.tsx:66-71 | For that pivot at threshold 40 the count is 1. |
| Export.NurseExport | src/components/DataTable.tsx:74-94 | That pivot exports as Alice's row (45), the count row (1) and an empty row. |
| Session.Clamp | src/App.tsx:42 | The threshold is within [0, 80]. An input in range is kept, one below becomes 0 and one above becomes 80. |
| Session.ClampIdempotent | src/App.tsx:42 | Clamping twice is clamping once. |
| Session.ClampMonotone | src/App.tsx:42 | Clamping keeps the order of inputs. |
| Session.App.constructor | src/App.tsx:10-13 | The app starts with no rows, the table view, threshold 40 and highlighting off. |
| Session.App.Upload | src/App.tsx:35-36 | The parsed rows replace the data and highlighting goes off. The threshold and view stay. |
| Session.App.ChangeThreshold | src/App.tsx:41-45 | The clamped input becomes the threshold and highlighting goes off. The rows and view stay. |
| Session.App.Process | src/App.tsx:95-96 | Highlighting goes on and nothing else changes. |
| Session.App.ShowTable | src/App.tsx:66 | The view becomes the table and nothing else changes. |
| Session.App.AlwaysTable | src/App.tsx:106-114 | With rows loaded the page shows the table with the current threshold and highlighting: the dashboard button is commented out. |
| Dashboard.NumericColumns | src/components/Dashboard.tsx:26-28 | The numeric columns are exactly the first row's columns holding a number, in column order. |
| Dashboard.MetricIsFirstNumeric | src/components/Dashboard.tsx:26-33 | The metric is the first column of the first row that holds a number. |
| Dashboard.NothingWithoutMetric | src/components/Dashboard.tsx:23-30 | Without rows, or without a numeric column in the first row, nothing is drawn. |
| Dashboard.ValidRows | src/components/Dashboard.tsx:36-38 | The valid rows are exactly the rows, in order, whose first field and metric are not null. |
| Dashboard.ValidRowsCounts | src/components/Dashboard.tsx:36-38 | Each valid row is kept as often as it occurs in the data, and an invalid one not at all. |
| Common.FilterCounts | src/components/Dashboard.tsx:36-38 | Filtering keeps every kept element exactly as often as it occurs and drops every other element. |
| Dashboard.ValidSum | src/components/Dashboard.tsx:36-47 | Summing a group over the valid rows is summing, over all rows, the metrics of the valid rows with that name. |
| Dashboard.GroupSums | src/components/Dashboard.tsx:41-47 | The accumulator has a key exactly for each name of the valid rows. |
| Dashboard.GroupSumsKeys | src/components/Dashboard.tsx:41-47 | The groups are the distinct texts of the valid rows' first fields, in first-seen order. |
| Dashboard.GroupValue | src/components/Dashboard.tsx:41-47 | When every metric reads as a number, a group exists exactly for a name some row has, and its value is the sum of that group's metrics. |
| Dashboard.NaNMakesGroupNaN | src/components/Dashboard.tsx:44 | A metric that does not read as a number makes its group NaN. |
| Dashboard.NaNIsForgotten | src/components/Dashboard.tsx:44 | After a NaN, the next numeric row of the group restarts the sum from 0 (`NaN \|\| 0`), forgetting the rows before. |
| Dashboard.NaNAbsorbs | src/components/Dashboard.tsx:44 | A non-numeric metric after a numeric one leaves the group NaN. |
| Dashboard.Entries | src/components/Dashboard.tsx:41-48 | One entry per group, named by the group, in group order, holding the group's value. |
| Dashboard.TakeFive | src/components/Dashboard.tsx:49 | At most five entries, the first ones. |
| Dashboard.ChartsArePrefix | src/components/Dashboard.tsx:41-49 | The charts show the first (at most) five groups in first-seen order. |
| Dashboard.ChartValues | src/components/Dashboard.tsx:36-49 | Each charted entry names a group of valid rows. When every valid row's metric is a number, its value is the sum of the metric over the valid rows with that name, duplicates counted. |
| Dashboard.Render | src/components/Dashboard.tsx:23-59 | Without rows nothing is drawn. Charts show between one and five entries. |
| Dashboard.NoValidDataWhenNoValidRow | src/components/Dashboard.tsx:51-58 | The "no valid numeric data" message appears exactly when no row is valid. |

## Left out

- Parsing the CSV file (Papa.parse and its callback) is not modelled: `Session.App.Upload` receives the parsed rows.
- Cells reading `true`/`false` are kept as text: the parser's type inference would turn them into booleans, which `Value` does not have.
- `Number()` on hexadecimal, binary, octal or exponent numerals and on "Infinity" gives NaN in `JsValues.ToNumber`. JavaScript reads these as numbers.
- `toLowerCase` is modelled on ASCII letters only.
- `JsValues.NumberText`: numbers are exact decimals, not doubles. `String(x)` on a double uses exponent notation below 1e-6 and from 1e21 on, and rounds to about 17 significant digits. So a threshold of 0.0000005 reads "0.0000005" here but "5e-7" in the program.
- `Session.Clamp`: compares exact decimals. The program first reads the input as a double, so an input such as 40.000000000000001 becomes 40 there but stays just above 40 here.
- `Export.CountLabel`: shows the threshold with `JsValues.NumberText`, so the label differs from the program's wherever that text does (exponent notation, rounding to a double).
- Hours are exact reals: floating-point rounding of the sums and the one-decimal display (`toFixed(1)`) are not modelled.
- Integer-like keys are not ordered specially. JavaScript lists them first, in ascending order (a job named "12", or a `CheckDate` read as a number), while `Objects.Obj` keeps every key in insertion order.
- `DateAxis.CollectDates`: calendar order is promised only when every date is written yyyy-mm-dd, because any other text is treated as an invalid date. `new Date` also accepts other formats and days beyond the month's length, and the engine's sort with the resulting inconsistent comparator is not modelled.
- Names inherited from `Object.prototype` are modelled only for the pivot's job and employee levels (module `InheritedKeys`). Date keys, "__proto__" and the dashboard's accumulator treat every name as an own key.
- `Session.App.ChangeThreshold` takes the input as a number: a non-numeric input (NaN) is not modelled.
- `Session.App.ChangeThreshold`, `Process` and `ShowTable` require rows to be loaded, because their controls are rendered only then (src/App.tsx:57).
- `Dashboard.GroupValue`: the sum is stated only when every metric reads as a number. With NaN metrics, see `Dashboard.NaNIsForgotten`.
- The dates sorted in the upload callback (src/App.tsx:23-25, 32) are only logged: console output is not modelled.
- React rendering, memoisation, the icons, the charts and the spreadsheet writer (XLSX) are not modelled. Only the data they receive is.

## Findings

| source | as written | input that shows it | evidently intended | confidence | as-written member | corrected member |
|---|---|---|---|---|---|---|
| src/components/DataTable.tsx:36-46 | `!pivot[jobDescription]` and `!pivot[jobDescription][empName]` look names up through the prototype chain of a plain `{}`. A job or employee named like an inherited method ("toString", "constructor", ...) is never created, and its hours are added to the inherited function. | one row with JobDescription "toString", EmpName "Alice", CheckDate "2024-01-05", ESSickHours 8: the pivot has no job, so the table and the export lose the 8 hours | every row is filed under its own key path (own-key lookups, or an object without a prototype) | not executed; follows from the JavaScript object model | InheritedKeys.ToStringRowLostAsWritten | InheritedKeys.ToStringRowKept |
