# Monthly dog outcomes at the Austin animal shelter — a Dafny model

The script fetches the shelter's outcome records and builds a monthly table of dog
outcomes from them. It then derives an adjusted euthanasia rate and writes a spreadsheet.
This project models the part between fetching and writing:

1. Records whose `datetime` does not parse are dropped.
2. Only records whose `animal_type` lower-cased is `dog` are kept.
3. Each record is labelled `MM-YY`.
4. Records are counted per (label, `outcome_type`).
5. The counts are pivoted into the four columns Adoption, Transfer, Euthanasia and Return to Owner.
6. Rows are ordered by the date read back from the label.
7. `Total`, `EuthRate`, the pre-March-2020 baseline and `AdjEuthRate` are added.
8. The rows of the "Adj Euthanasia Rate" sheet are produced.

Modules, one file each:

- `Wrappers` (`wrappers.dfy`): `Option` and `Result`.
- `Records` (`records.dfy`): a fetched record with its three fields. The timestamp is
  already reduced to its UTC month, or marked absent or unparseable. The file also holds
  lower-casing.
- `MonthLabels` (`labels.dfy`): the `MM-YY` label. Reading it back follows strptime's
  two-digit-year rule: 69–99 become 19xx and 00–68 become 20xx. The file also holds the
  chronological sort key.
- `Aggregation` (`aggregation.dfy`): filtering, labelling, the group/count/pivot step and
  the missing-column failures. The pivot is a fold that counts records one at a time into
  rows, which it keeps in date order. Its correctness is proved against an independent
  count: the multiplicity of (label, outcome) in the multiset of surviving records.
- `Metrics` (`metrics.dfy`): `Total`, the rates, and the baseline. The class `Monthly`
  models the table whose columns the script adds in place. Rates are exact reals. A
  float division's NaN is the explicit case `Undefined`. Its +inf is `Infinite`, which
  happens only for an adjusted rate when the baseline is 0.
- `Report` (`report.dfy`): the worksheet, the loop that appends its rows, and `Run`, the
  whole pipeline without I/O.

Where the code does something other than a reader of the script might expect, the model follows the code:

- An empty fetch does not produce an empty report. The table has no `datetime` column, so
  line 32 raises a KeyError. This is `Report.EmptyFetchFails`.
- A data set in which some kept outcome type never occurs among the surviving dog records
  fails at line 43. Examples are a set with only adoptions and euthanasias, or an empty set
  after filtering. No table is produced. This is the `MissingOutcomes` failure of
  `Aggregation.Aggregate`.
- A label is formed only from the records that have an `outcome_type`, because grouping
  drops missing keys. A month whose dogs all have other outcome types still gets a row, with
  four zeros and a `Total` of 0.
- Months a century apart share a label (`01-20` is both 1920 and 2020). The code groups them
  together, and so does the model. `MonthLabels.SortDateOfLabel` shows that reading a label
  back gives the month only for years 1969–2068.

## Model

| member | source | states |
|---|---|---|
| `Records.Lower` | aac_script.py:36 | lower-casing keeps the length and lower-cases every character in place |
| `Records.LowerIsDog` | aac_script.py:36 | `lower(s) == "dog"` holds exactly for the three-letter spellings of dog in any mix of cases |
| `MonthLabels.TwoDigits` | aac_script.py:39 | a number below 100 is written as two digits whose value is that number (zero padding) |
| `MonthLabels.Label` | aac_script.py:39 | the label is `MM-YY`: two digits with the month 01–12, a dash, two digits with the year mod 100 |
| `MonthLabels.SortDate` | aac_script.py:47 | a label is read back as the month it names, in a year in 1969..2068 with the label's two year digits |
| `MonthLabels.MonthIndexInjective` | aac_script.py:47-48 | distinct months have distinct sort indices |
| `MonthLabels.CenturyYear` | aac_script.py:47 | a two-digit year is read as a year in 1969..2068 with the same last two digits |
| `MonthLabels.LabelOfSortDate` | aac_script.py:47 | reading a label back as a date and formatting that date again gives the same label |
| `MonthLabels.SortDateOfLabel` | aac_script.py:47 | reading a month's label back recovers that month if and only if its year is in 1969..2068 |
| `MonthLabels.SortKeyInjective` | aac_script.py:46-48 | distinct labels have distinct sort dates, so the date sort has no ties |
| `MonthLabels.DateOrderIsNotTextOrder` | aac_script.py:46-48 | `12-19` sorts before `01-20` by date, although `01-20` is smaller as text |
| `Aggregation.Survives` | aac_script.py:32-36 | a record survives exactly when its timestamp parses and its `animal_type` is `dog` in any mix of cases |
| `Aggregation.Survivors` | aac_script.py:32-39 | every surviving record appears with its `MM-YY` label and outcome type; there are no more entries than fetched records, and every label is well formed |
| `Aggregation.SurvivorOrigin` | aac_script.py:32-39 | every entry comes from a fetched record that survives, labelled with its month and carrying its outcome type |
| `Aggregation.InsertSurvivor` | aac_script.py:32-39 | inserting a surviving record anywhere inserts its label and outcome at the same place, adding exactly one entry |
| `Aggregation.Row.Bump` | aac_script.py:42-43 | counting one record of outcome type `o` adds one to the kept column named `o`; other types change no column |
| `Aggregation.Tally` | aac_script.py:42 | adding one record to a table of well-formed labels keeps the labels well formed |
| `Aggregation.TallyLabels` | aac_script.py:42 | counting one record adds its label to the table's labels and no other label |
| `Aggregation.TallyAscending` | aac_script.py:46-48 | counting one record keeps the rows in strictly ascending date order |
| `Aggregation.TallyCounts` | aac_script.py:42 | counting one record adds one to the cell of its label and outcome and leaves every other cell unchanged |
| `Aggregation.Pivot` | aac_script.py:42-48 | rows are strictly date-ordered, and their labels are exactly those of surviving records with an outcome type. Each cell is the number of surviving records with that label and outcome, 0 when there are none |
| `Aggregation.CountInOwnRow` | aac_script.py:42 | in a date-ordered table, the count looked up by a row's label is that row's own count |
| `Aggregation.OneRowPerLabel` | aac_script.py:42 | a date-ordered table has exactly as many distinct labels as rows |
| `Aggregation.MissingNames` | aac_script.py:43 | lists exactly the kept columns that do not occur among the outcome types, and is empty exactly when all occur |
| `Aggregation.Aggregate` | aac_script.py:32-48 | an empty fetch fails on `datetime`. The table exists if and only if the three columns exist and all four kept outcome types occur among surviving records; the failure is the first missing column in the order `datetime`, `animal_type`, `outcome_type`, and once all three exist it names exactly the missing outcome types. The table has one date-ordered row per label, and each cell equals the count of matching surviving records |
| `Aggregation.SurvivorsAppend` | aac_script.py:33-36 | filtering a concatenation is concatenating the filtered parts |
| `Aggregation.SurvivorWitness` | aac_script.py:32-42 | a surviving record with an outcome type shows that the `datetime`, `animal_type` and `outcome_type` columns exist |
| `Aggregation.SameSurvivorsSameTable` | aac_script.py:42-48 | once the columns exist, the table depends only on the surviving records |
| `Aggregation.InsertKeepsColumns` | aac_script.py:29 | adding a record to the fetch removes no column |
| `Aggregation.InsertNonSurvivor` | aac_script.py:33-36 | inserting an unparseable or non-dog record anywhere leaves the surviving records unchanged |
| `Aggregation.NonSurvivorIgnored` | aac_script.py:32-36 | an unparseable or non-dog record contributes to no count: with or without it, a table that exists is the same table |
| `Aggregation.KeptWitness` | aac_script.py:43 | a table that exists has a surviving record with an outcome type |
| `Aggregation.KeptCountsAreKeptInMonth` | aac_script.py:42-43 | the four kept counts of a month add up to exactly the number of surviving records with that label and a kept outcome type |
| `Aggregation.KeptCountsWithinMonth` | aac_script.py:42-43 | the four kept counts of a month add up to at most the number of surviving records with that label |
| `Metrics.Percentage` | aac_script.py:52 | `num / den * 100` is NaN exactly for 0/0 and +inf exactly for a positive number over 0; otherwise its value times `den` is `num * 100` |
| `Metrics.RowTotal` | aac_script.py:51 | Total is at least each of the four outcome counts it sums |
| `Metrics.RowTotalIsKept` | aac_script.py:51 | a row whose cells are its month's counts has as Total the month's surviving records with a kept outcome type |
| `Metrics.TotalIsKeptInMonth` | aac_script.py:42-51 | in an aggregated table, a month's Total is exactly the number of its surviving records whose outcome type is Adoption, Transfer, Euthanasia or Return to Owner |
| `Metrics.Totals` | aac_script.py:51 | the Total column has one entry per row, at least each of that row's outcome counts |
| `Metrics.EuthRate` | aac_script.py:52 | a row's rate times its Total is its Euthanasia count times 100; it is NaN exactly when Total is 0 |
| `Metrics.EuthRates` | aac_script.py:52 | the EuthRate column, computed from the stored Total column, equals each row's own Euthanasia-over-Total rate |
| `Metrics.EuthRateRange` | aac_script.py:52 | EuthRate is in [0, 100] when Total > 0, is NaN exactly when Total = 0, and is never infinite |
| `Metrics.PreCutoff` | aac_script.py:55 | the pre-cutoff totals are no more than the rows |
| `Metrics.PreCutoffAppend` | aac_script.py:55 | a row added at the end contributes its Total to the averaged values exactly when it is dated before 2020-03-01 |
| `Metrics.Mean` | aac_script.py:55 | the mean is NaN exactly for no values, is never negative, and times the number of values gives their sum |
| `Metrics.Baseline` | aac_script.py:55 | the baseline is NaN exactly when no Total is averaged, and is never negative |
| `Metrics.BaselineIsMean` | aac_script.py:55 | a defined baseline times the number of pre-cutoff months is the sum of their Totals |
| `Metrics.MeanBetween` | aac_script.py:55 | a mean lies between any lower and upper bounds of the averaged values |
| `Metrics.BaselineUndefined` | aac_script.py:55 | the baseline is NaN exactly when no row is dated before 2020-03-01 |
| `Metrics.PreCutoffBetween` | aac_script.py:55 | every Total averaged into the baseline comes from a row before the cutoff |
| `Metrics.BaselineBetween` | aac_script.py:55 | the baseline lies between any bounds of the Totals of the rows before 2020-03-01 |
| `Metrics.PreCutoffIgnoresLaterRows` | aac_script.py:55 | rows dated on or after the cutoff do not affect the baseline |
| `Metrics.AdjEuthRate` | aac_script.py:58 | with a positive baseline the rate times the baseline is Euthanasia times 100; with no baseline it is NaN; with a zero baseline it is NaN for no euthanasias and +inf otherwise |
| `Metrics.AdjEuthRates` | aac_script.py:58 | each entry is its row's AdjEuthRate: with a positive baseline, Euthanasia over the baseline times 100. Rows with the same Euthanasia count get the same AdjEuthRate, whatever their Totals. With no baseline, every entry is NaN |
| `Metrics.AdjustedIgnoresOwnTotal` | aac_script.py:55-58 | changing a post-cutoff row's other counts, and therefore its Total, does not change its AdjEuthRate |
| `Metrics.NoBaselineNoAdjustedRate` | aac_script.py:55-58 | with no row before the cutoff, every AdjEuthRate is NaN |
| `Metrics.TotalWithinMonth` | aac_script.py:42-51 | a month's Total never exceeds that month's surviving records, because other outcome types are excluded |
| `Metrics.Monthly.constructor` | aac_script.py:43 | the table starts with its rows and no derived columns |
| `Metrics.Monthly.AddTotal` | aac_script.py:51 | adds the Total column and leaves everything else unchanged |
| `Metrics.Monthly.AddEuthRate` | aac_script.py:52 | adds EuthRate from the Euthanasia and Total columns and leaves everything else unchanged |
| `Metrics.Monthly.AddAdjEuthRate` | aac_script.py:58 | adds AdjEuthRate from Euthanasia and the baseline and leaves everything else unchanged |
| `Report.Shown` | aac_script.py:74-75 | a NaN rate is written as 0; any other rate is written as it is |
| `Report.SheetLines` | aac_script.py:70-76 | one line per table row, in order, with the row's label, its Total and its two rates as written |
| `Report.AdjustedSheet` | aac_script.py:69-76 | the header, then for each month its label, Total, written EuthRate and written AdjEuthRate against the pre-cutoff baseline |
| `Report.Worksheet.constructor` | aac_script.py:67 | a new sheet has its title and no rows |
| `Report.Worksheet.Append` | aac_script.py:69-76 | appending adds exactly one row at the end |
| `Report.WriteAdjustedRates` | aac_script.py:69-76 | the sheet gains the header, then one line per table row in table order |
| `Report.BuildSheet` | aac_script.py:51-76 | adding Total, EuthRate, the baseline and AdjEuthRate to the table in place, then appending the sheet rows, yields exactly the header and one line per month built from the pure column definitions |
| `Report.Run` | aac_script.py:29-76 | the pipeline fails exactly when the aggregation fails, with the same failure. Otherwise it yields the header and one line per month, from the derived columns |
| `Report.SheetCells` | aac_script.py:73-74 | each line carries its month's label, Total and written EuthRate. The actual rate is in [0, 100] and is written as 0 when Total is 0 |
| `Report.ShownEuthRate` | aac_script.py:74 | the written actual rate is in [0, 100], is 0 when Total is 0, and otherwise times Total equals Euthanasia times 100 |
| `Report.SheetAdjustedCells` | aac_script.py:75 | each line carries its month's written AdjEuthRate: never NaN, 0 without a baseline, a percentage with a positive baseline |
| `Report.ShownAdjEuthRate` | aac_script.py:75 | the written adjusted rate is never NaN, is 0 without a baseline, and with a positive baseline times the baseline equals Euthanasia times 100 |
| `Report.SheetWithoutBaseline` | aac_script.py:75 | with no month before 2020-03-01, every adjusted-rate cell is written as 0 |
| `Report.EmptyFetchFails` | aac_script.py:32 | an empty fetch fails for the missing `datetime` column rather than producing an empty sheet |

## Left out

- The pagination loop (aac_script.py:14-27) is HTTP I/O. The model takes the concatenated record list as its input.
- Timestamp parsing and dropping the zone (aac_script.py:32) are not modelled. A record carries its UTC month, or `Unparseable`, or `Absent` when the key is missing.
- `Records.Lower`: lower-cases ASCII letters only. Python's `str.lower` also maps other letters, but none of them lower-cases to `d`, `o` or `g`, so the dog filter keeps the same records.
- A field whose value is null is read as a missing key. The two differ only in which failure is reported. If every record has `outcome_type` null, the script has that column and fails at line 43 on the missing outcome types. The model reports the missing `outcome_type` column instead.
- Non-string `animal_type` values and the `.str` accessor's type checks are not modelled.
- Sorting (aac_script.py:48) is modelled by its result: rows in strictly ascending date order. The keys are distinct, so that result is unique. pandas' sorting algorithm itself is not modelled.
- Failures carry the missing column or outcome names, not pandas' KeyError messages.
- Rounding the rates to two decimals (aac_script.py:74-75) and floating-point arithmetic in general are left out. Rates are exact reals.
- Writing the raw sheet, the Excel file and the chart, saving, and the final message (aac_script.py:61-66, 78-110) are file I/O and presentation. They are left out.
- The pandas frame is not modelled. The `Monthly` class stands for it, and its methods assign whole columns, as the script's vectorised column assignments do.
