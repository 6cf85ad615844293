# Demand Planner backend core, modelled in Dafny

This project models the backend of the Demand Planner website. The backend
ingests budget-tracker spreadsheets into an `hours` table and answers
analytics queries over that table. The model covers four parts:

- **The spreadsheet extraction** (`BudgetTrackerParser.parse`): `sheet.dfy`.
  It walks the fixed-layout "Detail" sheet and produces hour records, errors
  and warnings. Its helpers live in `text.dfy` (JavaScript `trim`, upper-casing,
  comma removal, SQLite `LIKE`), `numbers.dfy` (`parseFloat`, `parseInt`,
  `parseNumber`, SQLite `ROUND`, `Math.round`) and `calendar.dfy` (day numbers,
  the Sunday week start, `yyyy-MM-dd` formatting). The parser is a class whose
  `Parse` method resets its error and warning lists and scans the grid with
  nested loops (`ScanDetail`, `ScanWeeks`). It is proved equal to the function
  `ParseSpec`, and every property is proved about that function.
- **The analytics queries** (`AnalyticsService`): `demand.dfy`, `utilization.dfy`,
  `allocation.dfy` and `heatmap.dfy`. Every SQL aggregate is a function over the
  stored rows (`seq<HourRecord>`). It is built from a window filter, group-by and
  sum (`query.dfy`), and the orderings of `ordering.dfy`. SQL `NULL` is `None`.
- **The upload endpoints** (`upload.ts`): `upload.dfy`. The two tables are the
  `seq` fields of the class `Store`. `Upload` runs the per-file loop:
  - a fresh parser for each file;
  - one insert transaction for each file;
  - the history row;
  - the per-file result.

  `ClearAll` empties both tables, and `History` returns the newest 50 history
  rows.
- **The analytics routes** (`analytics.ts`): `routes.dfy`. This file covers the
  date window default, the numeric parameter defaults, the realism score and the
  composite responses.

## Boundaries

The environment enters as parameters:

- the decoded workbook (`Decoded`);
- date-fns format matching (`DateMatcher`, a function from a text and a format
  to an optional day);
- the default date window;
- the per-file database failure (`StoreFault`);
- the per-file `CURRENT_TIMESTAMP` text.

## Findings

The heatmap query groups its cells by employee, name and week, and it ranks
(employee, name) pairs. Its join to the ranking, however, compares the employee
ID only (line 339). `Heatmap.AsWrittenHours` models the join as written. The
corrected `Heatmap.HeatmapData` joins on the whole pair, and the rest of the
model uses it.

| source | as written | input that shows it | evidently intended | confidence | as-written member | corrected member |
|---|---|---|---|---|---|---|
| backend/src/services/analyticsService.ts:339 | the join compares `employee_id` only, so a row joins every selected pair with its ID, and `SUM(h.hours)` counts it once per such pair | two rows with one employee ID, two names and one week, both pairs selected: the first row's cell reports twice its hours | join on employee ID and resource name, so each cell reports its own hours | high, not executed | Heatmap.SharedIdDoublesHours | Heatmap.HeatmapData |

## Model

| member | source | states |
|---|---|---|
| Sheet.CellValue | backend/src/services/excelParser.ts:151-156 | a cell's text is trimmed: it neither starts nor ends with white space, and it is "" outside the grid or past the end of the row |
| Sheet.CellBlankIffEmpty | backend/src/services/excelParser.ts:151-156 | a cell's text is blank exactly when it is empty |
| Sheet.CellValueKeepsText | backend/src/services/excelParser.ts:151-156 | inside the grid, a cell's text contains exactly the non-space characters of the raw cell |
| Text.TrimmedEdges | backend/src/services/excelParser.ts:155 | trimmed text neither starts nor ends with JavaScript white space |
| Text.TrimKeepsNonSpace | backend/src/services/excelParser.ts:155 | trimming keeps every character that is not white space |
| Text.BlankIffAllSpace | backend/src/services/excelParser.ts:162 | text is blank exactly when all of its characters are white space |
| Text.TrimmedBlankIffEmpty | backend/src/services/excelParser.ts:74 | trimmed text is blank exactly when it is empty |
| Text.ToUpper | backend/src/services/excelParser.ts:214 | upper-casing keeps the length, leaves no lower-case ASCII letter, turns each of `a` to `z` into its capital and keeps every other character |
| Numbers.ParseNumber | backend/src/services/excelParser.ts:161-165 | non-blank text that `parseFloat` reads once its commas are removed gives exactly that number; blank text, and text `parseFloat` cannot read, give 0 |
| Text.RemoveCommasKeeps | backend/src/services/excelParser.ts:163 | no comma is left, every other character is kept as often as it occurs, and text without a comma is unchanged |
| Text.RemoveCommasAppend | backend/src/services/excelParser.ts:163 | commas are removed piece by piece, so the kept characters stay in their order |
| Numbers.ParseFloatOfNatToString | backend/src/services/excelParser.ts:163 | `parseFloat` reads a plain decimal count back as the same number |
| Sheet.ParseApIndicator | backend/src/services/excelParser.ts:212-217 | the flag is Actual exactly when the cell contains an upper- or lower-case `a`, so "PLAN" reads as Actual; everything else is Proposed |
| Sheet.SerialDate | backend/src/services/excelParser.ts:197-204 | there is a serial reading exactly when `parseFloat` reads a number above 0 and within the JavaScript date range; the day is 1899-12-30 plus the floor of that number |
| Sheet.SerialDateZero | backend/src/services/excelParser.ts:199 | serial 0 is not a date |
| Sheet.FirstFormatMatch | backend/src/services/excelParser.ts:188-195 | the format search fails exactly when no format matches; otherwise its result is the match of the earliest matching format |
| Sheet.ParseDateSearch | backend/src/services/excelParser.ts:170-207 | the search loop returns the date `ParseDate` defines (ISO first, then each listed format in order, then a positive serial) |
| Sheet.ParseDate | backend/src/services/excelParser.ts:170-207 | blank text is no date; an ISO match wins; otherwise the earliest matching listed format wins; when nothing matches, the serial reading is used |
| Sheet.ScanDetail | backend/src/services/excelParser.ts:63-133 | the row loop yields the records of rows 5 and below, row after row, as `Extract` defines them |
| Sheet.ScanWeeks | backend/src/services/excelParser.ts:79-132 | the column loop yields the records of the week cells from column 7 to the end of that row, left to right |
| Sheet.BudgetTrackerParser.constructor | backend/src/services/excelParser.ts:28-30 | a new parser has empty error and warning lists |
| Sheet.BudgetTrackerParser.Parse | backend/src/services/excelParser.ts:35-146 | `parse` returns `ParseSpec` of its input, and its error and warning fields hold the returned lists |
| Sheet.ParseSpec | backend/src/services/excelParser.ts:35-146 | there is exactly one message; there is no error exactly when the workbook decodes and its "Detail" sheet has at least 6 rows; an error means no records; the warning says "no valid records" exactly when there are none, and otherwise it carries the record count |
| Sheet.Summary | backend/src/services/excelParser.ts:135-139 | the "no valid records" warning is chosen exactly when the count is 0 |
| Sheet.NoDetailSheet | backend/src/services/excelParser.ts:44-48 | without a "Detail" sheet: no records, the one error, no warnings |
| Sheet.TooFewRows | backend/src/services/excelParser.ts:53-56 | with fewer than 6 rows: no records, the one "insufficient rows" error, no warnings |
| Sheet.CellRecordWellFormed | backend/src/services/excelParser.ts:85-102 | a record from a row with a non-blank ID has hours in (0, 500], a non-blank ID, the batch's demand type, and the Sunday week start of a date in 2020 to 2035 |
| Sheet.RecordOrigin | backend/src/services/excelParser.ts:63-79 | every extracted record comes from one cell: row 5 or below, ID not blank, week column 7 or beyond, inside that row |
| Sheet.ParsedRecordsWellFormed | backend/src/services/excelParser.ts:63-131 | every record `parse` returns is well formed in the sense above |
| Sheet.RowOrder | backend/src/services/excelParser.ts:63 | the records are the employee rows' records in row order: the rows above a row, then that row's, then the rows below |
| Sheet.ColumnOrder | backend/src/services/excelParser.ts:79 | within a row, the records are in column order: the columns left of a column, then its own, then those to its right |
| Sheet.BlankIdRowYieldsNothing | backend/src/services/excelParser.ts:73-76 | a row with a blank employee ID contributes nothing, whatever its other cells hold |
| Sheet.BlankCellYieldsNothing | backend/src/services/excelParser.ts:96-102 | a blank hours cell never yields a record |
| Sheet.CellRecordFields | backend/src/services/excelParser.ts:81-131 | a record's fields come from the expected places: the row-2 date's year is in range and its week start is the stored date; project and project ID come from row 0, the flag, phase and milestone from rows 0, 3 and 4 of its column; the employee fields come from its row; the demand type is the batch's |
| Sheet.WeekStartMayPrecedeRange | backend/src/services/excelParser.ts:89-124 | 2020-01-01 passes the year check, yet its stored week start is 2019-12-29 |
| Calendar.WeekStart | backend/src/services/excelParser.ts:115 | the week start is a Sunday, and the date lies in the seven days from it |
| Calendar.WeekStartUnique | backend/src/services/excelParser.ts:115 | only one Sunday lies within the six days before a date |
| Calendar.WeekStartIdempotent | backend/src/services/excelParser.ts:115 | normalising a week start again changes nothing |
| Calendar.SameWeek | backend/src/services/excelParser.ts:115 | two dates share a week start exactly when they fall in the same Sunday-to-Saturday week |
| Calendar.CivilRoundTrip | backend/src/services/excelParser.ts:90 | converting a day number to its civil date and back gives the same day |
| Calendar.FormatIsoRoundTrip | backend/src/services/excelParser.ts:124 | for years 1 to 9999 the stored text is ten characters with dashes at positions 4 and 7, and it reads back as the same day |
| Demand.Window | backend/src/services/analyticsService.ts:76 | a row is in the window exactly when its week start lies between the bounds, compared as text |
| Demand.CountDistinct | backend/src/services/analyticsService.ts:73-74 | the count is the number of distinct keys; it is at most the number of rows, and 0 exactly when there are none |
| Demand.WeeklyDemandTrend | backend/src/services/analyticsService.ts:68-90 | one row per week with matching rows, weeks strictly ascending; each row is the week's `TrendRow` over the window and the demand-type filter |
| Demand.TrendRowMeaning | backend/src/services/analyticsService.ts:70-74 | a week's group is exactly the matching rows of that week; its employee and project counts are the numbers of distinct IDs and projects in it, between 1 and the group's size |
| Demand.TrendTotal | backend/src/services/analyticsService.ts:72 | the weekly totals add up to the total of all matching rows |
| Demand.WeeklyDemandByType | backend/src/services/analyticsService.ts:95-109 | rows are in week order; a row exists exactly for a (week, demand type) with rows in the window, it sums that group, and no pair has two rows |
| Demand.ByTypeUnique | backend/src/services/analyticsService.ts:103 | no two rows share a (week, demand type) pair |
| Demand.Fte | backend/src/services/analyticsService.ts:119 | the FTE is the weekly total over 40, within the two-decimal rounding error |
| Demand.FteMonotone | backend/src/services/analyticsService.ts:119 | a larger weekly total never has a smaller FTE |
| Demand.ImpliedFte | backend/src/services/analyticsService.ts:114-128 | one row per weekly total, each carrying that total and its FTE |
| Demand.ImpliedFteMatchesTrend | backend/src/services/analyticsService.ts:114-128 | the FTE series has the same weeks and weekly totals as the unfiltered demand trend |
| Demand.SummaryOf | backend/src/services/analyticsService.ts:134-145 | average, peak and minimum are each NULL exactly when there are no weeks |
| Demand.GetFteSummary | backend/src/services/analyticsService.ts:133-149 | the summary is NULL exactly when the window is empty |
| Demand.SummaryBounds | backend/src/services/analyticsService.ts:136-138 | minimum <= average <= peak, and every week's FTE lies between minimum and peak |
| Demand.FteSummaryBounds | backend/src/services/analyticsService.ts:133-149 | for a non-empty window the summary is ordered and brackets every row of the FTE series |
| Demand.GetRealismMetrics | backend/src/services/analyticsService.ts:352-365 | the sums are NULL exactly when the window is empty, and otherwise the total is the window's hours; the distinct counts are the numbers of distinct employees and projects, 0 exactly when the window is empty |
| Demand.AvgWeeklyFteFixedHorizon | backend/src/services/analyticsService.ts:356 | the average weekly FTE is the window total over 1040 hours, whatever the window's length |
| Demand.PctOfTotal | backend/src/services/analyticsService.ts:382 | the percentage is NULL exactly when the total is 0, and otherwise within 0.05 of the exact share |
| Demand.Breakdown | backend/src/services/analyticsService.ts:381-385 | one share per key with rows, keys strictly ascending, each share with its group's total and percentage |
| Demand.BreakdownTotal | backend/src/services/analyticsService.ts:381 | the shares' hours add up to the window total |
| Demand.BreakdownPercentages | backend/src/services/analyticsService.ts:382 | with a non-zero total every share has a percentage, and they add up to 100 within 0.05 per share |
| Demand.PoolVsNamed | backend/src/services/analyticsService.ts:370-390 | at most two rows, one per class that has rows in the window, each with its class's share of the window |
| Demand.NamedShareIsNonPool | backend/src/services/analyticsService.ts:373-380 | the named class is exactly the window's rows that match none of the four pool patterns |
| Demand.DemandTypeBreakdown | backend/src/services/analyticsService.ts:395-408 | types listed in ascending order, an order the query does not fix; one share exactly for each demand type with rows in the window, with its group's hours and percentage |
| Demand.Projects | backend/src/services/analyticsService.ts:413-418 | every stored project once, strictly ascending |
| Demand.Phases | backend/src/services/analyticsService.ts:423-428 | every non-empty stored phase once, strictly ascending |
| Demand.DataDateRange | backend/src/services/analyticsService.ts:433-444 | earliest and latest are NULL exactly when there are no rows, otherwise the least and greatest stored week; the count is the number of distinct weeks |
| Utilization.GroupPcts | backend/src/services/analyticsService.ts:156-166 | one percentage per (employee, name, week) group of the window |
| Utilization.BucketIndex | backend/src/services/analyticsService.ts:168-175 | the bucket is one of six, and it is above the k-th cut-off exactly when the percentage reaches that cut-off |
| Utilization.BucketsPartition | backend/src/services/analyticsService.ts:176-178 | the six bucket counts add up to the number of groups |
| Utilization.BucketCounts | backend/src/services/analyticsService.ts:167-187 | the rows follow the fixed bucket order; a row exists exactly for a non-empty bucket, with its label and count |
| Utilization.TotalOfPresent | backend/src/services/analyticsService.ts:194 | the listed counts add up to the counts of all buckets |
| Utilization.PercentageNear | backend/src/services/analyticsService.ts:197 | a share rounded to a tenth of a percent is within 0.05 of the exact share, and it is 0 when the total is 0 |
| Utilization.UtilizationDistribution | backend/src/services/analyticsService.ts:154-199 | rows in the fixed bucket order; a row exactly for each non-empty bucket, with its label, its count and its percentage; the counts add up to the number of groups; each percentage is within 0.05 of its exact share, and together they add up to 100 within 0.05 per row |
| Utilization.DistributionRows | backend/src/services/analyticsService.ts:167-198 | the rows keep the bucket order, each is the row of a non-empty bucket, and every non-empty bucket has its row |
| Utilization.DistributionCount | backend/src/services/analyticsService.ts:193-194 | the rows' counts add up to the number of groups |
| Utilization.DistributionShares | backend/src/services/analyticsService.ts:195-198 | each row's percentage is within 0.05 of its count's share of all groups |
| Utilization.DistributionSum | backend/src/services/analyticsService.ts:194-198 | the rows' percentages add up to 100 within 0.05 per row |
| Allocation.ProjectSet | backend/src/services/analyticsService.ts:211 | the project list is exactly the projects of the group |
| Allocation.PoolRecords | backend/src/services/analyticsService.ts:213-221 | the pool query's rows are the window's rows matching one of the six pool patterns |
| Allocation.OverAllocatedPools | backend/src/services/analyticsService.ts:204-229 | totals descending; a row exists exactly for a (name, week) group of pool rows whose total exceeds the threshold (none for a NULL threshold), and no group is listed twice |
| Allocation.PoolRowMeaning | backend/src/services/analyticsService.ts:206-222 | a pool row groups by name and week, not by employee, and lists exactly that group's projects |
| Allocation.Risk | backend/src/services/analyticsService.ts:242-246 | Critical above 55, Warning above 45 up to 55, Normal otherwise, whatever the threshold |
| Allocation.IndividualRecords | backend/src/services/analyticsService.ts:249-253 | the individuals query keeps the window's rows matching none of its four excluded patterns |
| Allocation.OverAllocatedIndividuals | backend/src/services/analyticsService.ts:234-261 | totals descending; a row exists exactly for an (employee, name, week) group whose total exceeds the threshold, and no group is listed twice |
| Allocation.IndividualsOverThreshold | backend/src/services/analyticsService.ts:241 | a listed individual's hours over are its total minus the threshold, and positive |
| Allocation.PoolsAndIndividualsOverlap | backend/src/services/analyticsService.ts:213-252 | a name containing "Placeholder" or "Offshore" but none of "General", "Pool" and "TBD", under an ID that does not start with 9999999, counts both as a pool and as an individual |
| Allocation.OffshoreRowOverlaps | backend/src/services/analyticsService.ts:213-252 | a row named "Offshore" with ID "1" is both a pool row and an individual row |
| Allocation.UnderAllocated | backend/src/services/analyticsService.ts:266-306 | average utilization ascending; a row exists exactly for an (employee, name) pair with enough weeks and an average below the threshold (none for a NULL parameter), and no pair is listed twice |
| Allocation.AverageOverActiveWeeks | backend/src/services/analyticsService.ts:277-289 | a pair's average divides its total only by the number of weeks in which it has rows |
| Heatmap.Ranked | backend/src/services/analyticsService.ts:313-329 | the pairs with rows in the window, each once, highest peak first |
| Heatmap.TopPairs | backend/src/services/analyticsService.ts:313-331 | a prefix of the ranking: for a non-negative `topN`, the smaller of `topN` and the number of pairs; for a negative one, every pair; each pair once, highest peak first |
| Heatmap.TopPairsAreTop | backend/src/services/analyticsService.ts:329-330 | a pair left out peaks no higher than any selected pair |
| Heatmap.HeatmapCells | backend/src/services/analyticsService.ts:332-341 | a cell exists exactly for each week in which a selected pair has rows, with that week's hours |
| Heatmap.SortCells | backend/src/services/analyticsService.ts:342 | higher peak first, then earlier week first among equal peaks, and no cell added or lost |
| Heatmap.HeatmapData | backend/src/services/analyticsService.ts:311-347 | the heatmap with the join on the whole pair: ordered by peak and then week, with exactly the cells of the selected pairs |
| Heatmap.CellHours | backend/src/services/analyticsService.ts:336-337 | a cell holds exactly the hours of its employee, name and week |
| Heatmap.JoinCount | backend/src/services/analyticsService.ts:339 | a row joins at most as many selected pairs as there are, none exactly when no selected pair has its ID, and otherwise the number of selected pairs with that ID |
| Heatmap.AsWrittenHours | backend/src/services/analyticsService.ts:336-339 | the as-written sum is the cell's own hours times the number of selected pairs that share its employee ID |
| Heatmap.AsWrittenCells | backend/src/services/analyticsService.ts:332-341 | every as-written cell's ID is selected and its hours are the as-written sum |
| Heatmap.SharedCellHours | backend/src/services/analyticsService.ts:336-337 | when `b` carries another name than `a`, the rows of `a`'s cell hold `a`'s hours only |
| Heatmap.SharedIdDoublesHours | backend/src/services/analyticsService.ts:339 | two rows with one ID and two names in one week, both pairs selected: the as-written cell of `a` reports twice `a`'s hours, while the corrected heatmap's cell reports `a`'s hours |
| Upload.BatchDemandType | backend/src/routes/upload.ts:37 | a non-empty tag is used as sent; an absent or empty tag gives 'Hard Demand'; the demand type is never empty |
| Upload.Outcomes | backend/src/routes/upload.ts:45-111 | one outcome per file in upload order, each file handled on its own |
| Upload.Outcome | backend/src/routes/upload.ts:46-110 | per file:<br>• the result names the file;<br>• success means no errors, which means no database failure and no parse errors;<br>• records are stored unless the transaction failed;<br>• a history row is written exactly when nothing failed;<br>• the count is the number stored, or 0 when the history insert threw |
| Upload.BatchOutcomes | backend/src/routes/upload.ts:45-49 | each file is parsed on its own with the batch's demand type |
| Upload.ParsedFileAt | backend/src/routes/upload.ts:48-49 | the i-th file's parse result is `parse` of its own content |
| Upload.Store.constructor | backend/src/routes/upload.ts:34 | both tables start empty |
| Upload.Store.InsertAll | backend/src/routes/upload.ts:61-81 | the transaction appends every record in order, and its count is their number |
| Upload.Store.StoreFile | backend/src/routes/upload.ts:46-110 | one file: the tables grow by its outcome's rows, and the result is its outcome's result |
| Upload.Store.StoreFiles | backend/src/routes/upload.ts:43-111 | the file loop: the results are the outcomes' results, and the tables grow by the outcomes' rows in file order |
| Upload.Store.Upload | backend/src/routes/upload.ts:34-118 | no files: 400 with nothing stored; otherwise overall success is the AND of the results, and the total is their sum |
| Upload.Store.ClearAll | backend/src/routes/upload.ts:131-139 | both tables become empty |
| Upload.Store.History | backend/src/routes/upload.ts:152-165 | the newest 50 stored rows: exactly 50 when there are more, all of them otherwise, each taken from the stored rows no more often than it is stored, newest first; no row left out is newer than one listed |
| Upload.NewerFirstTotal | backend/src/routes/upload.ts:163 | newest-first is a total preorder on the timestamp text |
| Upload.UploadSucceedsIff | backend/src/routes/upload.ts:113-114 | overall success holds exactly when every file met no database failure and parsed without errors |
| Upload.AllOrNothing | backend/src/routes/upload.ts:61-81 | every stored row is a parsed record of a file whose transaction did not fail |
| Upload.StoredRecordsWellFormed | backend/src/routes/upload.ts:37-49 | every stored row is well formed and carries the batch's demand type |
| Upload.TotalAccounting | backend/src/routes/upload.ts:116 | the reported total never exceeds the rows stored, and equals it when no history insert threw |
| Upload.HistoryRowOrigin | backend/src/routes/upload.ts:84-92 | every history row written belongs to one file that met no failure, with its name, count, errors and warnings |
| Upload.HistoryRowWritten | backend/src/routes/upload.ts:84-92 | every file that met no failure has its history row |
| Ordering.SortBy | backend/src/routes/upload.ts:163 | `ORDER BY`: the result is sorted by the given order, and it is a permutation of the input |
| Ordering.SortDescending | backend/src/services/analyticsService.ts:224 | `ORDER BY ... DESC`: keys do not increase, and the result is a permutation of the input |
| Ordering.Limit | backend/src/routes/upload.ts:164 | the first rows: the first `n`, or all of them for a limit that is negative or too large |
| Ordering.LimitOfSorted | backend/src/routes/upload.ts:162-164 | the first rows of a sorted list stay sorted, and none of the rows left out comes before them |
| Routes.ResolveWindow | backend/src/routes/analytics.ts:13-15 | the caller's window is used when both bounds are given, and the default otherwise |
| Routes.RealParam | backend/src/routes/analytics.ts:96 | an absent or empty parameter takes the default, and a given one is `parseFloat` of it |
| Routes.IntParam | backend/src/routes/analytics.ts:139 | an absent or empty parameter takes the default, and a given one is `parseInt` of it |
| Numbers.ParseIntOfNatToString | backend/src/routes/analytics.ts:160 | `parseInt` reads a plain decimal count back as the same number |
| Routes.Defaults | backend/src/routes/analytics.ts:96-160 | the defaults are 40, 45 and 60 for the thresholds, 4 weeks and top 20 |
| Routes.ImpliedFteRoute | backend/src/routes/analytics.ts:51-65 | the series and the summary are computed over the same resolved window |
| Routes.ImpliedFteConsistent | backend/src/routes/analytics.ts:57-60 | the summary exists exactly when the series has weeks, and then it brackets every week |
| Routes.HeatmapRoute | backend/src/routes/analytics.ts:160-162 | the heatmap is produced exactly when `topN` is absent or readable as an integer; it is the heatmap of the resolved window with that limit, 20 when absent, and lists no cell twice |
| Routes.FindShare | backend/src/routes/analytics.ts:186-187 | `find` returns the first row of the group, no row before it having the group; it returns nothing exactly when no row has the group |
| Routes.RealismScore | backend/src/routes/analytics.ts:194 | a named share between 0 and 100 gives a score between 40 and 100; 0 gives 40 |
| Routes.DemandRealismRoute | backend/src/routes/analytics.ts:181-201 | the metrics and both breakdowns are over one resolved window, and the score uses only the named share |
| Routes.EmptyWindowScore | backend/src/routes/analytics.ts:189-194 | with no rows in the window the score is 40 |
| Routes.RealismScoreRange | backend/src/routes/analytics.ts:186-194 | for positive stored hours the score lies between 40 and 100 |
| Routes.NamedPctRange | backend/src/routes/analytics.ts:190 | for positive stored hours the named percentage lies between 0 and 100 |
| Routes.SharePctWithin | backend/src/services/analyticsService.ts:382 | a class's percentage of a window of positive rows lies between 0 and 100 |
| Text.ContainsSubIffOccurs | backend/src/services/analyticsService.ts:214 | the containment search agrees with "some window of the text equals the pattern" |
| Numbers.SqlRoundError | backend/src/services/analyticsService.ts:119 | `ROUND(x, p)` moves x by at most half a unit in the last place |
| Numbers.SqlRoundMonotone | backend/src/services/analyticsService.ts:136-138 | `ROUND` never reverses the order of two values |
| Numbers.MathRoundMonotone | backend/src/services/analyticsService.ts:197 | `Math.round` never reverses the order of two values |
| Numbers.MathRoundBounds | backend/src/services/analyticsService.ts:197 | `Math.round` moves its argument by at most one half |

## Left out

- XLSX decoding (`XLSX.read`, `sheet_to_json`) is not part of this model. The model starts from the decoded workbook: a map from sheet names to grids of cell texts. The decoding's exception is `DecodeFailed`. Decoding is the only step of `parse` that can throw, so the exception path always returns no records.
- date-fns `parse` and `isValid` are not part of this model. A format match is the parameter `DateMatcher`, and only the search order is modelled: ISO first, then the listed formats in order, then the serial number.
- JavaScript `Date`, time zones and daylight saving time are left out. A serial number n is day 1899-12-30 plus the floor of n, valid within the JavaScript date range.
- Floating point is left out. Hours, rates and percentages are reals. SQLite `ROUND` rounds halves away from zero, and `Math.round` is floor(x + 0.5). `parseFloat` reads decimal literals with an optional fraction and exponent, but not "Infinity".
- The SQL engine is left out: every query is a function over the stored rows. Rows that tie under an `ORDER BY` come out in an order SQLite does not fix, so the contracts state the ordering and not the tie order.
- `GROUP_CONCAT(DISTINCT project)` order is left out: projects are a set.
- Demand.DemandTypeBreakdown: the query has `GROUP BY demand_type` and no `ORDER BY`, so SQLite fixes no row order. The model lists the types in ascending order, the order SQLite's grouping usually yields, and its contract states that order.
- Demand.Phases: the query writes the empty string as `""`. The model reads it as the empty-string literal, which assumes SQLite accepts double-quoted strings. A SQLite built without them would read `""` as a column name, fail to prepare the statement, and answer 500.
- Express and multer plumbing is left out: the MIME and extension filter, the 50 MB and 10-file limits, and HTTP status codes other than the 400 for no files. So are the outer `catch` blocks that answer 500 (upload.ts lines 119-124, 140-145 and 168-173, and every analytics route's).
- Database failures are a per-file parameter (`StoreFault`), and their messages are given. The modelled failures are the insert transaction throwing, which is rolled back, and the history insert throwing after the records are committed. `DELETE` and the history `SELECT` are assumed to succeed.
- `getDefaultDateRange` reads the clock, so the default window is a parameter. The history row's `CURRENT_TIMESTAMP` is a parameter per file.
- History rows leave out the `id` column. Their errors and warnings are kept as lists rather than as `JSON.stringify` text.
- Heatmap.AsWrittenCells: states which cells the as-written join yields and their hours, but not their order, because SQLite reports the peak of whichever joined pair it picks.
- Routes.HeatmapRoute: a `topN` that `parseInt` cannot read reaches `LIMIT` as NULL. The model answers with no heatmap instead of modelling SQLite's error and the 500 response.
- Routes.RealismScoreRange: assumes every stored hour value is positive, as `parse` guarantees. Rows stored some other way could push the named share outside 0 to 100.
- Text.ToUpper: upper-casing, like the case folding of `LIKE`, covers ASCII letters only, as SQLite's `LIKE` does.
- The route handlers for the filter lists (`/filters/projects`, `/filters/phases`, `/date-range`) only pass through `Demand.Projects`, `Demand.Phases` and `Demand.DataDateRange`, so they have no members of their own. The same holds for the pass-through routes `DemandTrendRoute`, `DemandByTypeRoute`, `UtilizationRoute`, `OverAllocatedPoolsRoute`, `OverAllocatedIndividualsRoute` and `UnderAllocatedRoute`, which apply `ResolveWindow` and the parameter defaults.
- A history row is written only after the file's records are inserted and nothing failed. When `parse` catches an exception, it returns the records gathered so far, which are none.
