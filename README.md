# Dashboard data-summary and calendar helpers, modelled in Dafny

This project models two groups of logic from a reporting dashboard.

The first group holds the data-summary helpers of `src/services/geminiService.ts`:
- the bullet-line extractor `extractBulletPoints`;
- the mode finder `getMostCommonValue`;
- the date-span label `getDateRange`;
- the per-column statistics `extractTableStatistics`;
- `parseGeminiResponse`, with its fallback that splits the extracted points 8 / 6 / rest;
- the branches of `generateTableSummary` that do not talk to the network: the empty-data reply, the summary fallback with its truncation to 1000 code units, and the mapping from an HTTP status to a message;
- the month buckets of `generateTimeBasedContext`;
- the keyword classifier `getColumnPurpose`.

The second group is the calendar helpers of `src/utils/dateUtils.ts`:
- the previous-month, current-month and N-months-back date ranges;
- the 22-month generator `generateStandardMonthRange` and the N-month generator `generateDynamicMonths`;
- the `DD/MM/YYYY[ time]` branch of `parseDate`;
- `getPreviousMonthPeriod`.

Each module lives in its own file:

| module | file | what it holds |
|---|---|---|
| `Wrappers` | `wrappers.dfy` | `Option` |
| `JsText` | `js_text.dfy` | The JavaScript string and number built-ins the code relies on: `trim`, `split`, `includes`, `slice`, `padStart`, `String(n)`, `parseInt`, `.length` in UTF-16 code units, and ASCII `toLowerCase`. |
| `Calendar` | `calendar.dfy` | `new Date(y, m, d)` as a normalisation of any month and day values, under the Gregorian leap-year rule. Also the `YYYY-MM-DD` formatting. |
| `Collections` | `collections.dfy` | Distinct elements in first-seen order, subsequences and filtering. |
| `DateUtils` | `date_utils.dfy` | Everything from `dateUtils.ts`. |
| `BulletPoints` | `bullet_points.dfy` | `extractBulletPoints` |
| `TableStatistics` | `table_statistics.dfy` | `getMostCommonValue`, `getDateRange` and `extractTableStatistics` |
| `ResponseParser` | `response_parser.dfy` | `parseGeminiResponse` and `generateTableSummary` |
| `TimeContext` | `time_context.dfy` | `generateTimeBasedContext` |
| `ColumnPurpose` | `column_purpose.dfy` | `getColumnPurpose` |

What the source reads from its environment becomes an input of the model:
- The current date is a `Clock` (year and 0-based month).
- Engine-dependent conversions are functions passed in: `parseFloat`, `String` of a number, `new Date(value)` as a timestamp or as a local calendar date, and the native date parser of `parseDate`.
- The regular-expression section finders of `parseGeminiResponse` are one value: the optional text block each finder captures.
- The model call is a `CallOutcome`: either the reply text, or a failure with an optional status and an optional message.

The loops of the source are methods with loop invariants, each proved against a specification function:
- the `while` loop over `iterYear`/`iterMonth`;
- the counted `for` loop of `generateDynamicMonths`;
- the frequency dictionary and the `reduce` of `getMostCommonValue`;
- the `forEach` that fills the three statistics dictionaries;
- the bucket loop and the line loop of `generateTimeBasedContext`;
- the field assignments of `parseGeminiResponse`.

In `getMostCommonValue`, `reduce((a, b) => a[1] > b[1] ? a : b)` keeps the accumulator only when its count is strictly greater. So of the values tied for the highest count, the one enumerated last wins; see `TableStatistics.Winner` and `TableStatistics.MostCommonProperties`.

## Model

| member | source | states |
|---|---|---|
| Calendar.DaysInMonth | src/utils/dateUtils.ts:8 | a month has 28 to 31 days; February has 29 exactly in leap years; the 30-day months are April, June, September and November |
| Calendar.Normalize | src/utils/dateUtils.ts:6-8 | an out-of-range day is carried into later or earlier months: the result is a valid date, and the day offset from the requested month's start is kept |
| Calendar.DateConstructor | src/utils/dateUtils.ts:133 | `new Date(y, m, d)` gives a valid date; years 0 to 99 are read as 1900 to 1999 |
| Calendar.DateConstructorInRange | src/utils/dateUtils.ts:133 | a day within its month is kept as it is, in the constructor's year |
| Calendar.DayZeroIsLastDayOfPreviousMonth | src/utils/dateUtils.ts:8 | day 0 of a month is the last day of the month before it, across a year boundary too |
| Calendar.OverflowIntoNextMonth | src/utils/dateUtils.ts:133 | day 31 of February 2025 is 3 March 2025 |
| Calendar.MonthNumberOrder | src/utils/dateUtils.ts:71 | comparing month numbers is comparing (year, month) lexicographically, as the loop condition does |
| Calendar.MonthKeyInjective | src/utils/dateUtils.ts:73 | different (year, month) pairs give different `YYYY-MM` keys |
| Calendar.FormatDateInjective | src/utils/dateUtils.ts:11-16 | different valid dates print differently as `YYYY-MM-DD` |
| Calendar.FormatDateShape | src/utils/dateUtils.ts:11-16 | for four-digit years the text has length 10, dashes at positions 4 and 7, and zero-padded month and day that read back as the date's month and day |
| Calendar.IsoDateOfFourDigitYear | src/utils/dateUtils.ts:39-40 | for years 1000 to 9999 the date part of `toISOString` is the `YYYY-MM-DD` text of the same day |
| Calendar.IsoYearPadded | src/utils/dateUtils.ts:39-40 | `toISOString` pads year 999 to "0999", where `getFullYear()` prints "999" |
| JsText.Pad2IsPadStart | src/utils/dateUtils.ts:13-14 | the two-digit form is `String(n).padStart(2, '0')` |
| JsText.ParseInt | src/utils/dateUtils.ts:128-130 | text without a decimal digit reads as NaN |
| JsText.ParseIntDefined | src/utils/dateUtils.ts:128-130 | a decimal digit after the leading whitespace and an optional sign (a hex digit after `0x`) always gives a number, and a non-zero result is negative exactly when the sign written is `-` |
| JsText.ParseIntDigits | src/utils/dateUtils.ts:128-130 | `parseInt` of a non-empty run of digits is its decimal value |
| DateUtils.PreviousMonth | src/utils/dateUtils.ts:6 | the previous month is the month whose number is one less than the clock's |
| DateUtils.ClockDayZero | src/utils/dateUtils.ts:8 | `new Date(year, month + delta, 0)` is the last day of the month `delta - 1` months after the clock's |
| DateUtils.PreviousMonthBounds | src/utils/dateUtils.ts:3-21 | the range starts on the 1st of the previous month and ends on that month's last day |
| DateUtils.PreviousMonthDateRange | src/utils/dateUtils.ts:2-30 | the printed range is the previous month's `YYYY-MM` key with day 01, to the same key with that month's last day |
| DateUtils.PreviousMonthOfJanuary | src/utils/dateUtils.ts:6-8 | in January the range is 1 to 31 December of the year before |
| DateUtils.PreviousMonthOfMarch | src/utils/dateUtils.ts:8 | in March the range ends on 28 or 29 February, as the leap-year rule says |
| DateUtils.PreviousMonthExample | src/utils/dateUtils.ts:3-30 | in March 2025 the range prints as 2025-02-01 to 2025-02-28 |
| DateUtils.CurrentMonthBounds | src/utils/dateUtils.ts:33-36 | the current month runs from its 1st to its last day, computed as day 0 of the next month |
| DateUtils.MonthsBackBounds | src/utils/dateUtils.ts:44-47 | the start is the 1st of the month `monthsBack` months before the clock's, normalised across years; the end is the current month's last day |
| DateUtils.ZeroMonthsBackIsCurrentMonth | src/utils/dateUtils.ts:44-47 | zero months back is the current month's range |
| DateUtils.MonthsBackAcrossYear | src/utils/dateUtils.ts:46 | one month back from January starts on 1 December of the year before |
| DateUtils.CurrentMonthDateRange | src/utils/dateUtils.ts:33-42 | the current month printed in local time: its `YYYY-MM` key with day 01, to the same key with its last day |
| DateUtils.DateRangeForMonths | src/utils/dateUtils.ts:44-53 | printed in local time: the key of the month `monthsBack` months back with day 01, to the current month's last day |
| DateUtils.UtcDayWestOfGreenwich | src/utils/dateUtils.ts:39-40 | at UTC or west of it, `toISOString` of local midnight names the local day |
| DateUtils.UtcDayEastOfGreenwich | src/utils/dateUtils.ts:39-40 | east of UTC, `toISOString` of local midnight names the day before |
| DateUtils.UtcPrintedLocally | src/utils/dateUtils.ts:39-40 | a four-digit-year date at UTC or west of it on that day prints as its local `YYYY-MM-DD` text |
| DateUtils.CurrentMonthDateRangeUtc | src/utils/dateUtils.ts:33-42 | as written, with the zone's offset taken on each bound's own day: when both bounds are at UTC or west of it (four-digit years), it is the local range |
| DateUtils.DateRangeForMonthsUtc | src/utils/dateUtils.ts:44-53 | as written, likewise: when both bounds are at UTC or west of it (four-digit years), it is the local range |
| DateUtils.UtcPrintingShiftsEastOfGreenwich | src/utils/dateUtils.ts:33-42 | east of UTC on the 1st, the range as written starts on the last day of the previous month, which differs from the local start; east of UTC on the last day, it ends a day early |
| DateUtils.UtcPrintingExampleText | src/utils/dateUtils.ts:33-42 | in March 2025 at UTC+5:30 on both bounds, the range as written prints 2025-02-28 to 2025-03-30 |
| DateUtils.UtcPrintingDaylightSavingExample | src/utils/dateUtils.ts:33-42 | in March 2025 at UTC+0 on the 1st and UTC+1 on the 31st (London), the range as written prints 2025-03-01 to 2025-03-30 |
| DateUtils.Quarter | src/utils/dateUtils.ts:77 | `Math.ceil(month / 3)` is the quarter 1 to 4 holding the month |
| DateUtils.EntryOf | src/utils/dateUtils.ts:72-79 | an entry's month is 1 to 12, and its year and month give back the month number |
| DateUtils.EntryOfConsistent | src/utils/dateUtils.ts:72-79 | every entry has quarter = ceil(month/3) and sortOrder = year*100 + month |
| DateUtils.LaterMonthSortsLater | src/utils/dateUtils.ts:73-78 | a later month has a larger sortOrder and a different key |
| DateUtils.EntryOfNextMonth | src/utils/dateUtils.ts:81-85 | the step after December is January of the next year; otherwise it is the next month of the same year |
| DateUtils.WalkMonths | src/utils/dateUtils.ts:68-86 | the `while` loop pushes one item per month from the start month to the end month inclusive, and none when the start is later |
| DateUtils.GenerateStandardMonthRange | src/utils/dateUtils.ts:60-89 | the result is the 22 months ending at the clock's month |
| DateUtils.StandardRangeProperties | src/utils/dateUtils.ts:55-89 | there are exactly 22 entries, the last is the current month, sortOrder strictly increases and keys are distinct |
| DateUtils.StandardRangeExample | src/utils/dateUtils.ts:60-89 | in March 2025 the range runs from June 2023 (sortOrder 202306, quarter 2) to March 2025 (key 2025-03, display "Mar 2025") |
| DateUtils.MonthsBack | src/utils/dateUtils.ts:95-106 | the counted loop pushes max(n, 0) items, the first `n - 1` months back and the last for the current month |
| DateUtils.GenerateDynamicMonths | src/utils/dateUtils.ts:91-109 | the result is the `monthCount` months ending at the clock's month |
| DateUtils.DynamicRangeProperties | src/utils/dateUtils.ts:91-109 | there are max(n, 0) entries in strictly ascending month order with distinct keys; the last is the current month |
| DateUtils.ParseDate | src/utils/dateUtils.ts:111-157 | blank text gives null; with a comma, the native parse of the trimmed part before it wins when valid; otherwise a valid day/month/year reading of a slash date wins; otherwise the whole text goes to the native parser |
| DateUtils.SlashFields | src/utils/dateUtils.ts:125-127 | there is a slash reading only for text that holds a slash |
| DateUtils.FieldsOfParts | src/utils/dateUtils.ts:127-131 | a reading exactly when the date part splits into three pieces that each read as a number, and then it is (day, month, year) |
| DateUtils.FieldsDate | src/utils/dateUtils.ts:132-133 | `new Date(year, month - 1, day)` is a valid date; a month 1 to 12 and a day within it are kept, and a year 0 to 99 means 1900 to 1999 |
| DateUtils.SlashDate | src/utils/dateUtils.ts:122-135 | there is a date exactly when there is a slash reading, and it is the constructor's date of that reading |
| DateUtils.ParseDateSlashBranch | src/utils/dateUtils.ts:123-135 | for text with a slash and no comma, a successful slash reading is the result |
| DateUtils.ParseDateSlashDigits | src/utils/dateUtils.ts:122-135 | `D/M/Y` in digits, optionally followed by a space and more, reads as (D, M, Y) and is the result |
| DateUtils.SlashFieldsExample | src/utils/dateUtils.ts:125-130 | "14/09/2025 10:00:00" splits into day 14, month 9, year 2025 |
| DateUtils.ParseDateExample | src/utils/dateUtils.ts:122-135 | "14/09/2025 10:00:00" is 14 September 2025 |
| DateUtils.ParseDateOverflow | src/utils/dateUtils.ts:132-133 | with no range check, "31/02/2025" is 3 March 2025 |
| DateUtils.PreviousMonthPeriod | src/utils/dateUtils.ts:160-167 | the period is the previous month's `YYYY-MM` key |
| DateUtils.PreviousMonthPeriodOfJanuary | src/utils/dateUtils.ts:162-166 | in January the period is `(year-1)-12` |
| BulletPoints.Clean | src/services/geminiService.ts:806-811 | a line stripped of its prefixes is trimmed |
| BulletPoints.RemoveBoldUnchanged | src/services/geminiService.ts:818-823 | removing `**` changes nothing in a line that has none |
| BulletPoints.ProcessSurvivor | src/services/geminiService.ts:803-825 | a surviving line becomes its cleaned form, and that form is acceptable |
| BulletPoints.SurvivorsAcceptable | src/services/geminiService.ts:813-825 | every line that survives the filters is acceptable |
| BulletPoints.ExtractBulletPoints | src/services/geminiService.ts:799-827 | empty text gives no items; there are never more than `maxPoints` items |
| BulletPoints.ExtractIsPrefix | src/services/geminiService.ts:827 | the items are the first ones of the filtered lines |
| BulletPoints.BulletPointsAcceptable | src/services/geminiService.ts:813-825 | every item is longer than 15 and shorter than 500 code units, contains no `**`, is not a `#` heading, and is trimmed |
| BulletPoints.BulletPointsInLineOrder | src/services/geminiService.ts:803-811 | the items are a subsequence of the lines, each trimmed and stripped of one symbol, one number and one letter prefix |
| BulletPoints.ExtractLimit | src/services/geminiService.ts:827 | taking the first k items of a longer extraction equals extracting with the smaller limit |
| Collections.CollectSomeComplete | src/services/geminiService.ts:803-825 | the chain of `map` and `filter` stages loses no surviving element: one result per surviving input, each input's result among them |
| BulletPoints.CandidatesComplete | src/services/geminiService.ts:802-824 | the filtered lines hold exactly one item per surviving line, and every surviving line's cleaned form is among them |
| BulletPoints.BulletPointsComplete | src/services/geminiService.ts:799-827 | there are min(maxPoints, surviving lines) items; when no more lines survive than the limit, every surviving line's cleaned form is returned |
| TableStatistics.ColumnValues | src/services/geminiService.ts:87 | no kept value is null or undefined |
| Collections.FilterSeqMembers | src/services/geminiService.ts:87 | `filter` keeps exactly the elements that pass |
| TableStatistics.ColumnValuesMembers | src/services/geminiService.ts:87 | the kept values are exactly the present cells of the column, in row order |
| TableStatistics.Winner | src/services/geminiService.ts:140 | the reduce's winner has the highest count, and every later entry has a strictly smaller one |
| TableStatistics.PickIsWinner | src/services/geminiService.ts:139-140 | the reduce returns the winner with its frequency |
| TableStatistics.MostCommonProperties | src/services/geminiService.ts:132-141 | empty input gives ('', 0); otherwise the value occurs, its count is its frequency, no value is more frequent, and of the tied values the last in first-seen order wins |
| TableStatistics.FrequencyAppend | src/services/geminiService.ts:136 | one more occurrence adds one to that key's count and leaves every other count alone |
| TableStatistics.CountStep | src/services/geminiService.ts:134-137 | one loop step keeps the dictionary equal to the counts of the keys seen |
| TableStatistics.CountsOfDistinct | src/services/geminiService.ts:139 | every entry, in first-seen order, holds its key's frequency |
| TableStatistics.CountKeys | src/services/geminiService.ts:133-137 | the loop builds the counts, with the keys in first-seen order |
| TableStatistics.ReduceEntries | src/services/geminiService.ts:139-140 | the reduce loop returns the specified pick |
| TableStatistics.MostCommon | src/services/geminiService.ts:133-141 | the result is the most common key with its count |
| TableStatistics.GetMostCommonValue | src/services/geminiService.ts:132-142 | the result is the most common `String(value)` with its count |
| TableStatistics.CeilDiv | src/services/geminiService.ts:152-156 | `Math.ceil(a / b)` is the least q with a <= b*q |
| TableStatistics.MinInt | src/services/geminiService.ts:150 | `Math.min` is a member no larger than any other |
| TableStatistics.MaxInt | src/services/geminiService.ts:151 | `Math.max` is a member no smaller than any other |
| TableStatistics.SpanOfDays | src/services/geminiService.ts:154-156 | under 30 days gives days; under 365 gives ceil(d/30) months; otherwise ceil(d/365) years |
| TableStatistics.DaysSpanned | src/services/geminiService.ts:150-152 | the day count is the ceiling of the spread in milliseconds over a day |
| TableStatistics.SpanOf | src/services/geminiService.ts:147-156 | fewer than 2 dates give "Single date"; otherwise the label is the span of the day count |
| TableStatistics.GetDateRange | src/services/geminiService.ts:147-157 | "Single date" exactly for fewer than two dates; otherwise d days below 30, ceil(d/30) months below 365, else ceil(d/365) years, d being the whole days between the earliest and latest |
| TableStatistics.SpanTextInjective | src/services/geminiService.ts:148-156 | different spans give different labels |
| TableStatistics.DigitsBeforeUnit | src/services/geminiService.ts:154-156 | a label is the number, then a space and the unit |
| TableStatistics.SingleDateText | src/services/geminiService.ts:148 | the label is "Single date" exactly for fewer than two dates |
| TableStatistics.RemoveCurrencySigns | src/services/geminiService.ts:90 | no `$`, `,` or `%` is left, and a character occurs in the result exactly when it occurs in the input and is none of those |
| TableStatistics.RemoveCurrencySignsIsFilter | src/services/geminiService.ts:90 | the removal is a filter: every other character is kept, in order |
| TableStatistics.NumbersOf | src/services/geminiService.ts:90-91 | at most as many numbers as values survive |
| TableStatistics.NumbersOfMembers | src/services/geminiService.ts:90-91 | the numbers are exactly those some value coerces to, so a column has numbers exactly when one of its values coerces |
| TableStatistics.NumbersOfAppend | src/services/geminiService.ts:90-91 | one more value adds its number at the end when it has one, so the numbers keep the values' order and multiplicity |
| TableStatistics.TimesOf | src/services/geminiService.ts:113 | at most as many timestamps as values survive |
| TableStatistics.TimesOfMembers | src/services/geminiService.ts:113 | the timestamps are exactly the valid times of the values |
| TableStatistics.TimesOfAppend | src/services/geminiService.ts:113 | one more value adds its timestamp at the end when it is valid, keeping order and multiplicity |
| TableStatistics.MinReal | src/services/geminiService.ts:99 | `Math.min` of the numbers is a member no larger than any other |
| TableStatistics.MaxReal | src/services/geminiService.ts:100 | `Math.max` of the numbers is a member no smaller than any other |
| TableStatistics.NumericStatOf | src/services/geminiService.ts:94-102 | header and type are the column's; count is the number of survivors; sum is their sum; min and max are members bounding all; average times count is the sum |
| TableStatistics.TextStatOf | src/services/geminiService.ts:105-111 | header is the column's; uniqueCount is the number of distinct values; mostCommon is the mode `MostCommonProperties` describes, of the values' texts; examples are the first at most 5 distinct values in first-seen order |
| TableStatistics.DateStatOf | src/services/geminiService.ts:115-121 | header is the column's; count is the number of survivors; earliest and latest are members bounding all; range is `getDateRange` of the instants |
| TableStatistics.AddColumn | src/services/geminiService.ts:88-123 | a column changes only the dictionary of its own type |
| TableStatistics.ExtractTableStatistics | src/services/geminiService.ts:76-127 | empty data gives the empty result; otherwise totalRows and the three dictionaries are those of the columns in order |
| TableStatistics.AddColumnText | src/services/geminiService.ts:104-111 | a column sets the text entry under its key exactly when it is a text column |
| TableStatistics.AddColumnNumeric | src/services/geminiService.ts:89-103 | a column sets the numeric entry exactly when it is number-like with at least one surviving number |
| TableStatistics.AddColumnDate | src/services/geminiService.ts:112-122 | a column sets the date entry exactly when it is a date column with at least one valid date |
| TableStatistics.TextEntryPresent | src/services/geminiService.ts:104-111 | a key has a text entry exactly when some text column has that key |
| TableStatistics.TextEntryValue | src/services/geminiService.ts:104-111 | the entry is the one for the last text column with that key |
| TableStatistics.NumericEntryPresent | src/services/geminiService.ts:89-103 | a key has a numeric entry exactly when some number-like column with that key has surviving numbers |
| TableStatistics.NumericEntryValue | src/services/geminiService.ts:89-103 | the entry is the one for the last such column |
| TableStatistics.DateEntryPresent | src/services/geminiService.ts:112-122 | a key has a date entry exactly when some date column with that key has valid dates |
| TableStatistics.DateEntryValue | src/services/geminiService.ts:112-122 | the entry is the one for the last such column |
| TableStatistics.EntriesWellFormed | src/services/geminiService.ts:93-122 | every numeric and date entry has count >= 1 and min <= max |
| ResponseParser.ExtractedAcceptable | src/services/geminiService.ts:765-776 | every section's points are acceptable and within the limit |
| ResponseParser.SliceAcceptable | src/services/geminiService.ts:782-785 | any slice of acceptable points is acceptable |
| ResponseParser.FallbackSlices | src/services/geminiService.ts:780-787 | of at most 15 points, keyInsights gets the first 8 and trends the next 6; trends are empty unless keyInsights is full; the three parts concatenate back to the points |
| ResponseParser.MatchSections | src/services/geminiService.ts:757-777 | each found section holds its trimmed text or its extracted points, at most 8 of them, all acceptable |
| ResponseParser.ParseGeminiResponse | src/services/geminiService.ts:747-794 | the result is `ParsedSections` of the reply; keyInsights is always set; without the fallback the matched sections are kept; with it the 8/6/rest split of the 15 extracted points replaces them; every list holds at most 8 acceptable items |
| ResponseParser.FallbackSplitExample | src/services/geminiService.ts:781-786 | 15 points give 8 insights, 6 trends and 1 recommendation |
| ResponseParser.FailureMessage | src/services/geminiService.ts:726-733 | status 404, 429 and 403 each select their own message, and every other status the generic one |
| ResponseParser.FailureResult | src/services/geminiService.ts:735-740 | a failure answers with the message for its status, one fixed insight and one fixed trend, no recommendations, and an error that is never empty text |
| ResponseParser.FailureError | src/services/geminiService.ts:739 | the error is the message when non-empty, else the status when non-zero, else "Unknown error occurred"; each of the three cases is stated |
| ResponseParser.TruncatedSummary | src/services/geminiService.ts:716 | text of up to 1000 code units is kept; longer text is cut to a prefix of at most 1000 code units and "..." is added |
| ResponseParser.GenerateTableSummary | src/services/geminiService.ts:695-742 | missing or empty data gives the fixed no-data result without a call; a failure gives the failure result; a reply gives no error, the parsed key insights and recommendations, the parsed trends or else the first 6 extracted findings, lists of at most 8 acceptable items, and the trimmed summary or else the truncated text |
| TimeContext.RowMonth | src/services/geminiService.ts:620-625 | a row has a month exactly when its date cell is truthy and reads as a valid date, and the month is that date's `YYYY-MM` key |
| TimeContext.RowsInMonthNonEmpty | src/services/geminiService.ts:620-631 | a month has rows exactly when it is the month of some dated row |
| TimeContext.RowsInMonthBelong | src/services/geminiService.ts:620-631 | each row of a month's bucket is a table row whose date falls in that month |
| TimeContext.BucketsAfterDomain | src/services/geminiService.ts:626-629 | there is a bucket exactly for each month of a dated row |
| TimeContext.BucketsAfterValue | src/services/geminiService.ts:626-630 | a month's bucket holds that month's rows in table order |
| TimeContext.GroupByMonth | src/services/geminiService.ts:618-634 | the loop builds the buckets, and the keys come in first-seen order |
| TimeContext.LessEqTotal | src/services/geminiService.ts:634 | any two keys are comparable in the default `sort()` order |
| TimeContext.LessEqTransitive | src/services/geminiService.ts:634 | the default `sort()` order is transitive |
| TimeContext.LessEqAntisymmetric | src/services/geminiService.ts:634 | keys that sort both ways are equal |
| TimeContext.MonthKeyChronological | src/services/geminiService.ts:625-634 | for four-digit years, sorting `YYYY-MM` keys as strings is calendar order |
| TimeContext.Insert | src/services/geminiService.ts:634 | insertion keeps the list sorted and adds exactly the one key |
| TimeContext.SortStrings | src/services/geminiService.ts:634 | `sort()` returns a sorted permutation of the keys |
| TimeContext.InsertNoDuplicates | src/services/geminiService.ts:634 | inserting a new key keeps the keys distinct |
| TimeContext.SortMonths | src/services/geminiService.ts:634 | sorting the distinct month keys gives the same keys, strictly ascending |
| TimeContext.SortedDistinctAscending | src/services/geminiService.ts:634 | the sorted months are the same months, strictly ascending |
| TimeContext.MonthLines | src/services/geminiService.ts:636-655 | one line per sorted month, with its record count; every line but the first carries the previous line's count |
| TimeContext.TimeBasedContext | src/services/geminiService.ts:615-661 | one line per month with dated rows, strictly ascending, each with that month's record count (at least 1) and the previous line's count |
| ColumnPurpose.FirstMatchSound | src/services/geminiService.ts:666-689 | the result is General or the purpose of a rule with a word in the key; with no word present it is General |
| ColumnPurpose.RulesInOrder | src/services/geminiService.ts:669-688 | the keyword table, taken rule by rule, is the priority order of the `if`s |
| ColumnPurpose.Classify | src/services/geminiService.ts:666-689 | the chain of `if`s is the first-match rule over the keyword table in priority order |
| ColumnPurpose.GetColumnPurpose | src/services/geminiService.ts:666-689 | the general sentence is returned exactly when the lower-cased key holds none of the keywords |
| ColumnPurpose.FirstMatchIff | src/services/geminiService.ts:669-686 | a rule's purpose is chosen exactly when one of its words occurs and no earlier rule's word does |
| ColumnPurpose.ClassifyIff | src/services/geminiService.ts:669-686 | a key gets a group's description exactly when it contains one of that group's words and no earlier group's word, so a revenue, amount or price key is financial whatever else it contains |
| ColumnPurpose.FirstMatchGeneral | src/services/geminiService.ts:669-688 | when no rule has the general purpose, the general purpose is chosen exactly when no rule's word occurs |
| ColumnPurpose.ClassifyGeneral | src/services/geminiService.ts:688 | the general description is given exactly when no keyword occurs |
| ColumnPurpose.ClassifyIgnoresCase | src/services/geminiService.ts:667 | the key's letter case makes no difference |
| ColumnPurpose.PriceDateIsFinancial | src/services/geminiService.ts:669-671 | "priceDate" is a financial column, not a temporal one |

## Left out

- I/O is left out. This covers the API-key client setup, `testConnection`, the model calls and async/await. The call is an input, `CallOutcome`.
- The prompt text of `createAnalysisPrompt` is left out. It only assembles strings.
- `generateQuickInsights` and `getPreviousMonthDisplay` are left out, as are the `display` field of `generateDynamicMonths` and the localised month names. These depend on locale data.
- Console logging is left out. The `try`/`catch` wrappers are left out too: every modelled step gives a result, including where the source throws. The lines below name those places.
- ParseGeminiResponse: the regular expressions that find the sections are an input (`SectionMatches`), not modelled. Their lazy matching and lookahead are not captured.
- ParseDate: the comma branch, the dash branch and the direct branch are delegated to an injected native parser. Engine parsing of date strings is implementation-defined.
- Floating-point work is left out. This covers the sums, averages and percent changes, `parseFloat`/`Number` coercion (an input), `toFixed`, `Intl.NumberFormat` and `formatCurrency`. Numbers are `real`, so rounding is not modelled.
- TimeBasedContext: returns the numbers each line is printed from, not the text. The localised month name, the percent change and its `+` sign are not modelled. The sign depends on `toFixed(1)` rounding: a change under 0.05% prints as `0.0` with no `+`.
- GetMostCommonValue: entries are taken in first-seen key order. `Object.entries` lists integer-like keys first, in ascending numeric order, so the tie-break among integer-like strings is not captured. Keys that collide with `Object.prototype` members (such as `constructor`) are not modelled either.
- TruncatedSummary: stops before a character whose UTF-16 pair would straddle the 1000th code unit. `text.slice(0, 1000)` would keep half of that pair.
- ToLower in `JsText` lowers ASCII letters only. Characters whose lower case changes length or leaves ASCII (such as U+0130) are not modelled.
- Time-zone offsets are a parameter of the as-written range members only, as a function of the local day. Local time is otherwise the model's calendar.
- ExtractTableStatistics: `Math.min(...)` and `Math.max(...)` pass a whole column as call arguments, which throws a RangeError once the column has more values than the engine accepts as arguments. The model computes statistics for columns of any length. In the source that error goes through `createAnalysisPrompt` to the `catch` of `generateTableSummary`, the same path as a failed call with a message.
- ExtractTableStatistics: a column keyed `__proto__` is assigned to an object's prototype, not stored as an entry. The model's maps store it like any other key.
- GetDateRange: the same argument-count RangeError of `Math.min(...)` and `Math.max(...)` is not modelled.
- DateConstructor: the `Date` time-value limit is not modelled. A date more than 100,000,000 days from 1 January 1970 UTC is an Invalid Date in JavaScript; the model returns a calendar date for every year, month and day.
- SlashDate: for the same reason, a slash reading whose date lies past that limit is modelled as a date. The source returns an Invalid Date object there, not null.
- ParseDate: inherits that gap from SlashDate.
- ParseDateSlashDigits: the digit runs are read as exact integers, so runs above 2^53 are not rounded as `parseInt` rounds them. Any such year, month or day lies past the `Date` limit anyway.
- ParseInt: returns exact integers. `parseInt` rounds values above 2^53 to the nearest double and returns Infinity past about 1.8e308; neither is modelled.
- ParseIntDigits: likewise exact, with no rounding above 2^53.
- CurrentMonthDateRangeUtc: the offset in force at each bound's local midnight is an input. Skipped or repeated local midnights at a daylight-saving change are not modelled, and a year past the `Date` limit is printed where `toISOString` throws.
- DateRangeForMonthsUtc: the same as CurrentMonthDateRangeUtc.
- FormatDate: prints the year as `String(getFullYear())`, as `formatDate` does, so a year below 1000 is unpadded. The as-written members print through `IsoDate`, which pads as `toISOString` does.

## Findings

| source | as written | input that shows it | evidently intended | confidence | as-written member | corrected member |
|---|---|---|---|---|---|---|
| src/utils/dateUtils.ts:33-53 | `getCurrentMonthDateRange` and `getDateRangeForMonths` print local midnight with `toISOString().split('T')[0]`, which is the UTC day | clock in March 2025 at UTC+5:30: the current-month range prints 2025-02-28 to 2025-03-30 instead of 2025-03-01 to 2025-03-31; in London (UTC+1 from 30 March) it prints 2025-03-01 to 2025-03-30 | the local calendar days, as `getPreviousMonthDateRange` prints them | high (not executed) | DateUtils.CurrentMonthDateRangeUtc, DateUtils.DateRangeForMonthsUtc, DateUtils.UtcPrintingShiftsEastOfGreenwich, DateUtils.UtcPrintingExampleText, DateUtils.UtcPrintingDaylightSavingExample | DateUtils.CurrentMonthDateRange, DateUtils.DateRangeForMonths, DateUtils.CurrentMonthBounds, DateUtils.MonthsBackBounds |
