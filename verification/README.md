# cubeTable — a Dafny model of the statistics core

cubeTable is a browser dashboard for speed-cubing solve logs. It reads a CSV
export into solve records, groups them into sessions, sorts the solve table,
computes rolling trimmed averages (Ao5, Ao12, Ao100) with their running
personal bests, lists the attempts that set a new best, and summarises a date
range: solve count, mean, total time, OLL/PLL skip rates and the mean time of
each step.

This project models that core as pure Dafny functions and a few methods, and
proves what the code promises about it.

| file | module | models |
|---|---|---|
| `common.dfy` | `Common` | option values, filtering, sums, the numeric sort, ASCII lower-casing, whitespace trimming, string order |
| `solves.dfy` | `Solves` | the solve and step records the loader produces |
| `averages.dfy` | `Averages` | `calculateAverage`, `calculateAo100`, `calculateRollingAverages` |
| `csvparser.dfy` | `CsvParser` | `getHeaderIndices`, `parseStepData`, `parseSolveRow`, `processSolves`, base-10 `parseInt` |
| `stats.dfy` | `Stats` | date-range filter, skip rates, average step times, `calculateStatistics`, total-time breakdown, step display order |
| `table.dfy` | `Table` | the `sortData` comparator, direction and stable sort |
| `records.dfy` | `Records` | the personal-best scan of `displayRecordHistory` |
| `modal.dfy` | `Modal` | execution-time buckets, the average window, the average-table sort, modal back navigation |
| `sessions.dfy` | `Sessions` | `extractSessions`, `setSession` |

Conventions:

- Durations are integer milliseconds. Dates are integers, the epoch milliseconds that `new Date` would hold.
- A mean is a `real`: an integer sum divided by a count.
- A DNF (did-not-finish) time is the constructor `Time.DNF`. The program writes it as `Infinity` for the AoX mean and as `null` for the Ao100 mean; both functions treat those values alike.
- `null` results are `None`. A `NaN` average is `None` as well.
- State the program keeps in globals (current sort, session map, modal history) is passed in and returned explicitly.

## Model

| member | source | states |
|---|---|---|
| Averages.CalculateAverage | averages.js:8-121 | there is no average exactly when the list is shorter than the window, the window holds more than one DNF, or a window of at most three attempts holds a DNF |
| Averages.AverageUsesLastCount | averages.js:9-13 | only the last `count` attempts matter: any earlier history leaves the average unchanged |
| Averages.SmallWindowIsPlainMean | averages.js:45-54 | a window of at most three attempts averages all of them, or has no average when one is a DNF |
| Averages.ScanExtremesCorrect | averages.js:15-39 | the scan finds the first smallest finite time; as maximum it finds the first DNF when there is one, else the first largest time |
| Averages.KeptFacts | averages.js:60-113 | skipping the two trimmed positions removes exactly their finite times from the sum and the count |
| Averages.FallbackReachedIffAllEqual | averages.js:101-119 | the sorted fallback runs exactly when every time in a DNF-free window is equal |
| Averages.OneDnfPath | averages.js:57-90 | with one DNF the result is the mean of the finite times without the first fastest one, over `count - 2` values |
| Averages.NoDnfPath | averages.js:92-120 | with no DNF the result is the mean without the first fastest and first slowest, or the sorted middle when those are the same attempt |
| Averages.TrimmedAverageIsSortedMiddle | averages.js:56-121 | for windows above three, the trimmed mean equals the mean of the sorted times without the fastest and slowest (a DNF counts as slowest); more than one DNF gives no average |
| Averages.OneDnfKeptIsSortedMiddle | averages.js:57-90 | with one DNF the kept times sum to the sorted finite times without the smallest |
| Averages.NoDnfKeptIsSortedMiddle | averages.js:92-120 | with no DNF and distinct extremes the kept times sum to the sorted times without both ends |
| Averages.SortedEndsAreScanExtremes | averages.js:20-39 | the first element of the sorted finite times is the scanned minimum and, with no DNF, the last is the scanned maximum |
| Averages.CalculateAo100 | averages.js:130-179 | there is no Ao100 exactly when fewer than 100 attempts exist or the last 100 hold more than five DNFs |
| Averages.Ao100OfWindow | averages.js:138-178 | on a window of 100, the result is missing exactly when there are more than five DNFs |
| Averages.Ao100WindowIsSortedMiddle90 | averages.js:139-178 | with at most five DNFs the Ao100 is the mean of sorted finite times 5 to 94: each DNF uses up one slow-side trim |
| Averages.CalculateRollingAverages | averages.js:188-287 | every series is as long as the input; `ao5`/`ao12`/`ao100` at `i` are the window average ending at `i` (none before the window fills); each best series is the running minimum of its source, ignoring gaps |
| Averages.WindowSeriesExtend | averages.js:229-252 | appending the average of the window ending at the next attempt keeps a series of window averages |
| Averages.RunningMinExtend | averages.js:254-280 | the update `if (x !== null && x < best) best = x` keeps the best equal to the least defined value so far |
| Averages.RunningMinNonIncreasing | averages.js:254-280 | once defined, a running best never increases |
| Averages.RunningMinBounds | averages.js:254-259 | a best is defined exactly when some value so far is defined, and is at most the current value |
| Averages.ExampleNoDnf | averages.js:92-120 | [12.0, 9.5, 15.2, 9.5, 11.0] s averages 10.833 s: the first 9.5 and the 15.2 are dropped |
| Averages.ExampleOneDnf | averages.js:57-90 | [12.0, DNF, 15.2, 9.5, 11.0] s averages 12.733 s: the DNF and the 9.5 are dropped |
| Common.SortAsc | averages.js:162 | the numeric sort returns an ascending permutation of its input |
| Common.SortedPermutationUnique | averages.js:115-116 | two ascending permutations of the same values are equal, so the result does not depend on the sort algorithm |
| CsvParser.Cell | csvParser.js:84-85 | reading a cell yields the cell inside the row and `undefined` outside it |
| CsvParser.OrDefault | csvParser.js:104-106 | `cell \|\| fallback` keeps a non-empty cell and otherwise gives the fallback |
| CsvParser.ParseInt | csvParser.js:87-93 | parsing fails exactly when no digit follows the leading whitespace and an optional sign |
| CsvParser.ParseIntRoundTrip | csvParser.js:87 | parsing the decimal text of a natural number gives that number back |
| CsvParser.ParseIntDigits | csvParser.js:87 | a digit string parses to its decimal value |
| CsvParser.ParseIntNegated | csvParser.js:87 | a minus sign before digits negates the value |
| CsvParser.ParseIntRejects | csvParser.js:91-93 | text without any digit is rejected |
| CsvParser.NormalizeHeaders | csvParser.js:160 | each header is trimmed and lower-cased in place |
| CsvParser.IndexOf | csvParser.js:8-17 | `indexOf` gives the first position of the header, or -1 when absent |
| CsvParser.PreferredIndex | csvParser.js:18-24 | the first header name wins when present, else the second is looked up |
| CsvParser.GetHeaderIndices | csvParser.js:6-33 | every column is located by its exact header; `time` beats `timer_time` and `session_name` beats `session`; nine step groups are located |
| CsvParser.StepOf | csvParser.js:51-67 | a step is kept exactly when its time parses; it keeps the name and the parsed times; a missing execution time is exactly `max(0, time - recognition)` when recognition is known, and stays missing otherwise |
| CsvParser.ScanSteps | csvParser.js:35-79 | at most one step per group, all with names, and the recognition total is the sum of the steps' recognition times |
| CsvParser.GapEndsScan | csvParser.js:74-76 | a group with none of its four columns (after the first) stops the scan |
| CsvParser.ParseSolveRowSpec | csvParser.js:81-147 | a row is dropped exactly when it is blank, its time does not parse or its date is invalid; otherwise it has the parsed time and date, the DNF flag read case-insensitively, the id cell or `gen_<index>`, the session cell or "Default", the scramble cell or "N/A", the recognition total from its cell or else the sum over the steps, and the execution total from its cell or else, for a finished solve, `max(0, time - recognition total)` |
| CsvParser.GeneratedIdsDistinct | csvParser.js:105 | generated ids `gen_<index>` of different rows differ |
| CsvParser.ParsedIdsDistinct | csvParser.js:105 | two parsed rows at different positions without an id cell get different ids |
| CsvParser.RowResults | csvParser.js:192-193 | each data row is parsed with its own index |
| CsvParser.ProcessSolves | csvParser.js:151-208 | fewer than two rows, or a missing time or date column, give no solves; otherwise the result is the parsed rows in order with the dropped ones removed |
| CsvParser.ParseRows | csvParser.js:181-201 | the batched loop keeps exactly the parsed rows, in order |
| CsvParser.BatchCount | csvParser.js:178-183 | `ceil(n / 500)` batches start exactly at the offsets below `n` |
| CsvParser.KeepPresent | csvParser.js:192-197 | one batch appends the parsed rows of its range to those kept so far |
| Stats.DateRangeMembers | statsManager.js:42-47 | a solve is kept exactly when its date lies in the closed range |
| Stats.DateRangeConcat | statsManager.js:42-47 | the filter keeps order and distributes over concatenation |
| Stats.DateRangeIdempotent | statsManager.js:42-47 | filtering twice by the same range changes nothing |
| Stats.DateRangeInverted | statsManager.js:42-47 | an empty range (end before start) keeps nothing |
| Stats.FindStep | statsManager.js:58-60 | the step found is the first whose non-empty name lower-cases to the key; none is found exactly when no step matches |
| Stats.SkipTallyCounts | statsManager.js:54-69 | the loop counts the solves whose step was skipped and the solves that have the step at all |
| Stats.SkipsHaveStep | statsManager.js:62-68 | skips never outnumber the solves that have the step |
| Stats.Percent | statsManager.js:71 | the rate is 0 with no such solves, otherwise `count * 100 / total`, and lies between 0 and 100 |
| Stats.CalculateSkipRate | statsManager.js:50-99 | the count is the number of solves whose first OLL (or PLL) step has time 0 or execution time 0; the rate is its percentage of the solves with that step |
| Stats.AddStepEntry | statsManager.js:109-119 | one step adds its positive time to its own name's total and count and touches no other name |
| Stats.AddStepsCorrect | statsManager.js:109-119 | after a solve's steps, each name's total and count grow by the sum and number of its positive times |
| Stats.StepTotalsCorrect | statsManager.js:106-120 | the totals have a key for every step name of a finished solve with steps, holding the sum and number of its positive times |
| Stats.AverageStepTimesCorrect | statsManager.js:102-128 | every step name seen gets an entry; the entry is the mean of its positive times, or none (`NaN`) when it has none; a mean is at least 1 ms |
| Stats.MeanTime | statsManager.js:139-143 | the mean is 0 without solves, otherwise the value that times the count gives the total |
| Stats.CalculateStatistics | statsManager.js:131-165 | the count and total time are those of the finished solves, and the mean is their quotient (0 with no solves) |
| Stats.StepTotalsIgnoreDnf | statsManager.js:107 | step totals are the same whether or not DNF solves are filtered out first |
| Stats.StatisticsStepTimes | statsManager.js:153 | the summary's step means are those of all solves |
| Stats.DnfDoesNotCount | statsManager.js:133-153 | inserting a DNF solve anywhere leaves every statistic unchanged |
| Stats.FormatTotalTime | statsManager.js:176-189 | no total for a non-positive time; otherwise the parts add up to the whole seconds, minutes and seconds stay below 60, and the leading unit is non-zero |
| Stats.TotalTimeUnique | statsManager.js:176-189 | any hours/minutes/seconds split of the whole seconds with the same leading unit is the one displayed |
| Stats.StepRank | statsManager.js:216-221 | the rank is the first step-order phase contained in the lower-cased name, or -1 when none is |
| Stats.CompareStepNamesAntisymmetric | statsManager.js:217-227 | the step-order comparator is antisymmetric whenever `localeCompare` is |
| Stats.KnownStepsFirst | statsManager.js:223-225 | known phases come before unknown names, and known phases follow the phase order |
| Table.SolveColumnKinds | uiUpdater.js:197-199 | a column holds values of one kind for every solve |
| Table.Compare | uiUpdater.js:195-253 | the comparator (with two missing cells tied) answers -1, 0 or 1 and agrees with the program's comparator everywhere else |
| Table.AsWrittenNotAntisymmetric | uiUpdater.js:227-229 | as written, two missing cells each claim to sort first |
| Table.FaceTurnsCounterexample | uiUpdater.js:227-229 | two solves without a turn count each sort before the other |
| Table.CompareAntisymmetric | uiUpdater.js:195-253 | swapping the arguments negates the comparison |
| Table.CompareIsNotAfter | uiUpdater.js:223-251 | ascending, `a` is not after `b` exactly when its cell is missing or not greater; descending reverses that |
| Table.CompareTransitive | uiUpdater.js:195-253 | within one column the order is transitive |
| Table.DescendingIsReversed | uiUpdater.js:223-251 | descending order is ascending order with the arguments swapped |
| Table.DnfLast | uiUpdater.js:203-213 | by time, a DNF comes after every finished solve in both directions |
| Table.InsertBy | uiUpdater.js:195 | inserting into a sorted list keeps it sorted and adds exactly one element |
| Table.SortBy | uiUpdater.js:195 | the sort returns a sorted permutation of its input, and it is stable: when every cell the key reads is of one kind, the rows that tie with any given row keep their input order |
| Table.TieTransitive | uiUpdater.js:195-259 | on cells of one kind, two rows that tie with a third tie with each other, so "ties" groups the rows into classes |
| Table.InsertByStable | uiUpdater.js:195 | inserting a row into a sorted list puts it before the rows it ties with, so the tied rows keep their order |
| Table.SolveKeyUniform | uiUpdater.js:195-259 | every column of a solve holds cells of one kind, so the stability of the sort applies to the solve table |
| Table.SortedEverywhere | uiUpdater.js:195 | in a list sorted by one column, every earlier row compares not after every later row |
| Table.NextDirection | uiUpdater.js:177-189 | the same column flips the direction; a new column starts ascending, except the date, which starts newest first |
| Table.SortData | uiUpdater.js:155-269 | an empty column changes nothing; otherwise the rows are a permutation sorted by the column in the new direction, which is remembered, and rows with equal cells keep their previous order |
| Table.SortDataOrdersAllPairs | uiUpdater.js:195-259 | after sorting, every pair of positions is in order |
| Table.ClickTwiceRestores | uiUpdater.js:179-181 | clicking the sorted column twice restores the direction |
| Table.SortByTimeDnfLast | uiUpdater.js:203-213 | after sorting by time, no DNF precedes a finished solve |
| Records.ScanShape | uiUpdater.js:439-607 | the lines are newest first; each names an attempt of the list, its id and the best at that attempt |
| Records.ScanFollowsBest | uiUpdater.js:435-579 | the last record is the best so far, and an attempt is listed exactly when the best first becomes defined or drops there |
| Records.RunningMinStep | averages.js:254-259 | each running best is the previous best updated with that attempt's value |
| Records.BeatsIffImproves | uiUpdater.js:449-451 | the best drops at an attempt exactly when that attempt beats every earlier defined value, and then equals it |
| Records.RecordsAreImprovements | uiUpdater.js:435-607 | an attempt is listed exactly when it beats every earlier attempt, with that attempt's value |
| Records.RecordHistoryShape | uiUpdater.js:427-627 | the displayed lines are newest first with matching ids; missing bests or an unknown filter list nothing |
| Modal.AggregateStepExecutionTimes | modalHandler.js:12-35 | the total is the sum of the five buckets and no bucket is negative |
| Modal.AggregateIsBucketSums | modalHandler.js:20-32 | each bucket is the sum of the positive execution times of the steps whose name first matches it |
| Modal.PieSlices | modalHandler.js:93-103 | a bucket has a slice exactly when its time is positive; each slice carries its bucket's label (Cross, F2L, OLL, PLL, Other) and time; the slices follow chart order |
| Modal.SlicesHasBucket | modalHandler.js:97-103 | walking a list of buckets, a bucket gets a slice exactly when it is listed and its time is positive |
| Modal.SlicesCarryBucket | modalHandler.js:97-103 | every slice is the label and positive time of a listed bucket, and there are no more slices than buckets |
| Modal.SlicesOrdered | modalHandler.js:97-103 | the slices follow the order of the bucket list |
| Modal.ChartIffTime | modalHandler.js:93-112 | a pie chart is drawn exactly when the aggregated execution time is positive |
| Modal.SizeFromType | modalHandler.js:217-219 | `ao5` gives 5, `ao12` gives 12, anything else 100 |
| Modal.AverageWindow | modalHandler.js:221-280 | nothing opens when the window would start before the first attempt, or at or past the end of the list (the empty slice makes the date lookup throw before the modal is shown); otherwise the rows are the non-empty clamped slice, at most N long, with 1-based original positions |
| Modal.WindowIsAveragedWindow | modalHandler.js:224-236 | a window ending at a listed attempt holds exactly the times that average was computed from |
| Modal.OpenAverageTable | modalHandler.js:233-237 | a fresh window keeps the attempt order and has no sort column |
| Modal.SortAverageTable | modalHandler.js:141-169 | an empty table is left alone; otherwise the rows are a permutation sorted by the column, flipping on the same column and starting ascending on a new one; rows with equal cells keep their previous order |
| Modal.RowKeyUniform | modalHandler.js:146-168 | every column of the average table holds one kind of value, so the stability of the sort applies to it |
| Modal.RowColumnKinds | modalHandler.js:147-148 | a column of the average table holds one kind of value |
| Modal.AverageTableOrdersAllPairs | modalHandler.js:146-165 | after sorting, every pair of rows is in order |
| Modal.NewColumnAscending | modalHandler.js:144 | a new column sorts ascending |
| Modal.CloseModal | modalHandler.js:130-138 | closing hides the detail and clears the back stack, leaving the average modal alone |
| Modal.ShowSolveDetails | modalHandler.js:45-65 | an unknown id changes nothing; opened from a visible average modal, its content is pushed and it is hidden |
| Modal.GoBackInModal | modalHandler.js:117-128 | an empty stack changes nothing; an average entry closes the detail, clears the stack and reopens the average with the saved content; another entry is only popped |
| Modal.BackRestoresAverage | modalHandler.js:45-128 | going back after opening a solve from the average modal restores that modal exactly |
| Modal.NavigationKeepsOnlyAverages | modalHandler.js:58-138 | the back stack holds only average entries and is empty after going back |
| Sessions.GroupName | sessionHandler.js:23 | a missing or empty session name is grouped as "Default" |
| Sessions.ExtractSessions | sessionHandler.js:9-39 | no solves give no sessions; a first solve without a session field puts every solve in "All"; otherwise the grouping fails exactly when some group name is a property every object inherits (`constructor`, `toString`, `__proto__`, …), where `push` on the inherited value throws |
| Sessions.InheritedSessionNameFails | sessionHandler.js:24-27 | a session named "constructor" makes the grouping fail |
| Sessions.GroupsAreFilters | sessionHandler.js:20-29 | the grouping loop on an object without inherited keys: a group exists exactly for each name that occurs, and holds the solves with that name in input order |
| Sessions.ExtractSessionsPartition | sessionHandler.js:20-29 | when the grouping succeeds, a group exists exactly for each name that occurs, no group is named after an inherited property, every solve is in the group of its own name and in no other, and each group keeps input order |
| Sessions.SetSession | sessionHandler.js:79-120 | the session map is unchanged; an unknown name empties table and history; a known one shows a permutation of its solves sorted by the current column in the flipped direction; with no current column the sort state is kept; table rows with equal cells keep the session's order; the history is a date-ordered permutation, every rolling series is as long as it, the series are its window averages and running bests, and solves of the same date appear in it in the order of the re-sorted table |
| Sessions.DateTiesAreSameDate | sessionHandler.js:103 | under the history's date order two solves tie exactly when they share a date |
| Sessions.SetSessionFlipsDirection | sessionHandler.js:99-100 | from the initial newest-first date sort, switching to any session leaves the table oldest first |
| Sessions.ResortKeepingDirection | sessionHandler.js:99-100 | re-applying the current sort keeps its column and direction and orders the rows by them |
| Sessions.SetSessionKeepingSort | sessionHandler.js:79-120 | as `setSession` (including the series lengths and both tie orders), but the table keeps the direction it had |

## Left out

- Rendering, event wiring, PapaParse, alerts, logging, timers and `performance.now` are not modelled. They do not affect the data.
- Date parsing (`parseDateRange`, `parseDayCount`, `new Date`) is left out. The loader takes a date reader as a parameter; a date is its epoch-millisecond integer.
- Relative-date formatting, `formatTime`, `toFixed` and percentage text are left out, because they are presentation only.
- TPS is left out. It is a floating-point value, so the solve record has no TPS field, and sorting by the `tps` column reads every cell as missing.
- `localeCompare` is a parameter of the step-order comparator, because its collation is host-defined. String comparison in the sort is lexicographic over code points, where JavaScript compares UTF-16 code units.
- Lower-casing is ASCII-only, and trimming knows the JavaScript whitespace characters. Full Unicode case mapping is not modelled.
- A cell holding `null` is read as the empty string. Both are falsy in every test the loader makes.
- Comparisons between values of different kinds in one column cannot arise, because every column holds one kind. Their JavaScript coercion is not modelled.
- Means are exact rationals (`real`). The program computes them as IEEE doubles: the divisions in `averages.js`, `totalTime / totalSolves` and the step means in `statsManager.js`. The record test in `displayRecordHistory` also compares doubles. Rounding is not modelled. The strict-improvement results (`Records.RecordsAreImprovements`) carry over to the program only because distinct means of realistic times differ by far more than one rounding step.
- Integers are unbounded. `parseInt` and the JavaScript numbers it returns lose precision above 2^53; such values are not modelled.
- Averages.CalculateAverage: requires a window of at least one attempt; the program is only called with 5 and 12, and a window of 0 would average `0/0`.
- Solve times are always parsed integers. A non-numeric, `NaN` or `Infinity` time value in a record is therefore not modelled beyond the DNF flag.
- Object-key quirks of the step-time table are not modelled: it is a map from names to totals, so an inherited key or the key order of `Object.keys` plays no part there. For the session map the inherited names are modelled as a failed grouping; the load handler's recovery (clearing the solves and sessions) is event wiring and is left out.
- `populateCustomSessionDropdown` and the chart update are left out, because they only render.
- The average value in the header of the average modal (`rollingBestsForHistory[...]`) is modelled as a plain lookup, `Modal.AverageValue`, with no contract of its own.

## Findings

| source | as written | input that shows it | evidently intended | confidence | as-written member | corrected member |
|---|---|---|---|---|---|---|
| uiUpdater.js:227-229 | a missing left cell returns `-factor` before the right cell is checked, so two missing cells compare as "left first" both ways | two solves whose `face_turns` is `null`, sorted by turns: each compares below the other | two missing cells compare equal, so the comparator is consistent and the sort order is defined | not executed | Table.FaceTurnsCounterexample | Table.CompareAntisymmetric |
| modalHandler.js:159-160 | the same missing-cell test in the average-table comparator | two rows of the average window with no turn count | two missing cells compare equal | not executed | Table.AsWrittenNotAntisymmetric | Modal.AverageTableOrdersAllPairs |
| sessionHandler.js:100 | `sortData(State.currentSort.column)` counts as a second click on the already-sorted column, so every session switch flips the table's direction | loading a file with the initial sort (date, newest first): the table appears oldest first, and each later switch flips it again | re-apply the current column in its current direction | not executed | Sessions.SetSessionFlipsDirection | Sessions.SetSessionKeepingSort |
