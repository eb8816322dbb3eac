# EVD case-count conversion, modelled in Dafny

The EVD scripts turn weekly Ebola case-count tables from the 2014 West
African outbreak into the inputs of a spatial disease simulator. Two
scripts form the core modelled here.

- `scripts/parse_case_data.py` reads one country's situation-report CSV.
  - It buckets each dated row into the ISO 8601 week of its date.
  - It adds each district's counts into a 52-slot list per district.
  - It adds a `Cumulative` entry holding each district's total.
  - It collects the result for several countries, keyed by ISO code.
- `scripts/format_for_DTK.py` turns the weekly counts of all countries into the simulator's files.
  - It labels each week with a Gregorian date through `iso_year_start` and `iso_to_gregorian`.
  - It clamps negative counts to zero, sums them per day and accumulates them.
  - It log-transforms and shifts the values.
  - It builds the node table from the geography file with `get_nodes`.
  - It attaches each district's series and grid-cell node id (`get_node_id`) to its node.
  - It writes the binary spatial report and the demographics document.

The project has one module per concern.

| file | module | what it holds |
|---|---|---|
| `common.dfy` | `Common` | `Option`, `Result`, the Python exceptions that end a run (`PyError`), integer and real sums |
| `text.dfy` | `Text` | `str.split`/`join`, `replace("'", "")`, and the decimal forms `float()` accepts; `int()` of a float |
| `calendar.dfy` | `Calendar` | proleptic Gregorian day numbers (`date.toordinal()`), `isoweekday`, `isocalendar`, `iso_year_start`, `iso_to_gregorian`, `strptime(s, '%m/%d/%Y')` |
| `case_parser.dfy` | `CaseParser` | `week_of_date` lives in `Calendar`; `read_case_counts` as a method over a map of 52-slot lists and its specification; `get_ebola_counts_by_country` |
| `grid.dfy` | `Grid` | `get_node_id` |
| `series.dfy` | `Series` | the clamp in `get_all_counts` over a 2-D array, `aggregate`, `log_transform`, the `shift` lambda |
| `nodes.dfy` | `Nodes` | `alt_names`, `additional_nodes`, the node dict as a class (`NodeTable`) whose methods update it in place, `get_nodes` |
| `output.dfy` | `Output` | the `__main__` annotation loop, the spatial report as a sequence of typed fields, the demographics document |

Each step that the scripts perform by mutation is a method with loop
invariants. Those steps are the `+=` loops of `read_case_counts`, the clamp,
the `update` loops of `get_nodes`, the annotation, the report writer and the
`pop` loop of the demographics. Each such method is proved equal to a
function of its inputs, and the properties the scripts rely on are lemmas
about those functions.

Dates are day numbers with 0001-01-01 as day 1, the same numbering Python
uses for `date.toordinal()`. A Python exception that ends the run is an
`Err` carrying the exception's class.

## Model

| member | source | states |
|---|---|---|
| Common.SumUpdate | scripts/parse_case_data.py:28 | adding x to one slot of a list adds x to `sum` of the list |
| Common.SumOfZeros | scripts/parse_case_data.py:17-18 | a list of zeros sums to 0 |
| Text.Split | scripts/format_for_DTK.py:123 | `str.split(sep)`: every separator cuts, empty pieces are kept; there is always at least one piece, and its meaning is stated by Text.SplitJoin and Text.SplitPiecesFree |
| Text.LastSegment | scripts/format_for_DTK.py:123 | `split(':')[-1]`; its meaning is stated by Text.LastSegmentIsSuffix and Text.LastSegmentAfter |
| Text.SplitCons | scripts/format_for_DTK.py:123 | `split` on a non-empty string: the first character either starts a new piece (a separator) or joins the first piece of the split of the rest |
| Text.SplitPiecesFree | scripts/format_for_DTK.py:123 | no piece of `s.split(sep)` contains `sep` |
| Text.SplitJoin | scripts/format_for_DTK.py:123 | `sep.join(s.split(sep)) == s` for every s: Split loses nothing |
| Text.SplitJoinStep | scripts/format_for_DTK.py:123 | the inductive step of that round trip, from the tail of s to s |
| Text.JoinFront | scripts/format_for_DTK.py:123 | joining an extra leading piece puts that piece and one separator in front |
| Text.JoinGlue | scripts/format_for_DTK.py:123 | gluing a character onto the first piece prepends it to the joined text |
| Text.JoinLast | scripts/format_for_DTK.py:123 | a join of two or more pieces is the join of all but the last, a separator, and the last |
| Text.LastSegmentIsSuffix | scripts/format_for_DTK.py:123 | `split(':')[-1]` holds no ':' and is either the whole name or what follows its final ':' |
| Text.SplitNoSeparator | scripts/format_for_DTK.py:123 | a string without the separator splits into itself alone |
| Text.SplitAfterPiece | scripts/format_for_DTK.py:123 | a separator-free piece followed by the separator splits off as the first piece |
| Text.SplitThree | scripts/format_for_DTK.py:123 | `"a:b:c".split(':')` is `[a, b, c]` for separator-free a, b, c |
| Text.SplitHasTwo | scripts/format_for_DTK.py:123 | a string that contains the separator splits into at least two pieces |
| Text.LastSegmentCons | scripts/format_for_DTK.py:123 | dropping the first character does not change the last segment while a separator is still ahead |
| Text.LastSegmentAfter | scripts/format_for_DTK.py:123 | the last segment of `p + ":" + q` is the last segment of q, and is q itself when q has no ':' |
| Text.StripQuotes | scripts/parse_case_data.py:15 | `replace("'", "")` leaves no quote, keeps every other character with its count, and never lengthens the field |
| Text.StripQuotesKeepsQuoteFree | scripts/parse_case_data.py:15 | a field without quotes is unchanged |
| Text.StripQuotesAppend | scripts/parse_case_data.py:15 | `replace` works piece by piece: stripping a + b gives stripped a followed by stripped b, so the kept characters stay in order |
| Text.StripQuotesQuote | scripts/parse_case_data.py:15 | a lone apostrophe is removed |
| Text.StripQuotesOther | scripts/parse_case_data.py:15 | a lone character other than an apostrophe is kept |
| Text.DigitChar | scripts/parse_case_data.py:28 | the character of a digit value is a digit that reads back as that value |
| Text.DigitsValue | scripts/parse_case_data.py:28 | a digit string of length k is worth less than 10^k |
| Text.DigitsOfValue | scripts/parse_case_data.py:28 | the decimal rendering of n is all digits and reads back as n |
| Text.TrimStart | scripts/parse_case_data.py:28 | `float()` skips leading whitespace: the result is no longer and does not start with whitespace; Text.TrimStartExact states that exactly the leading whitespace goes |
| Text.TrimStartExact | scripts/parse_case_data.py:28 | the stripped text is a suffix of the original and everything dropped before it is whitespace |
| Text.TrimEnd | scripts/parse_case_data.py:28 | `float()` skips trailing whitespace: the result is no longer and does not end with whitespace; Text.TrimEndExact states that exactly the trailing whitespace goes |
| Text.TrimEndExact | scripts/parse_case_data.py:28 | the stripped text is a prefix of the original and everything dropped after it is whitespace |
| Text.DotIndex | scripts/parse_case_data.py:28 | the index of the first '.', or the length when there is none |
| Text.DigitsHaveNoDot | scripts/parse_case_data.py:28 | a digit string has no '.' |
| Text.DigitsHaveNoSpace | scripts/parse_case_data.py:28 | a digit string is untouched by the whitespace trim |
| Text.UnsignedDecimalOfDigits | scripts/parse_case_data.py:28 | an unsigned digit string is read as its integer value |
| Text.TrimSigned | scripts/parse_case_data.py:28 | a sign followed by digits is untouched by the whitespace trim |
| Text.ParseFloatOfDigits | scripts/parse_case_data.py:28 | `float("ddd")` is the value of the digits |
| Text.ParseFloatOfNegDigits | scripts/parse_case_data.py:28 | `float("-ddd")` is minus the value of the digits |
| Text.ParseFloatOfRendering | scripts/parse_case_data.py:28 | `float()` of the rendering of m, with or without '-', is m or -m |
| Text.ParseFloatOfIntText | scripts/parse_case_data.py:28 | `float(str(n)) == n` for every integer n, so integer cells are read exactly |
| Text.ParseFloat | scripts/parse_case_data.py:28 | `float(cell)` on the decimal forms, None for the ValueError; its meaning on integer text is stated by Text.ParseFloatOfIntText, Text.ParseFloatOfDigits and Text.ParseFloatOfNegDigits |
| Text.CellValue | scripts/parse_case_data.py:28 | `int(float(cell))`, or ValueError; the conversions are stated by Text.ParseFloatOfIntText and Text.Truncate |
| Text.Truncate | scripts/parse_case_data.py:28 | `int(x)` truncates toward zero: for x ≥ 0 it is the largest integer ≤ x, for x < 0 the smallest integer ≥ x |
| Calendar.DaysInMonth | scripts/parse_case_data.py:7 | every month has 28 to 31 days |
| Calendar.DaysBeforeMonth | scripts/parse_case_data.py:7 | each month ends within its year, and December ends on its last day |
| Calendar.YearLength | scripts/format_for_DTK.py:59 | consecutive 1 January day numbers differ by the length of the year |
| Calendar.OrdinalInYear | scripts/format_for_DTK.py:59 | every valid date falls in its own year's range of day numbers |
| Calendar.MonthsTile | scripts/parse_case_data.py:7 | January starts its year, and each month starts on the day after the previous month ends |
| Calendar.MonthsOrdered | scripts/parse_case_data.py:7 | a later month starts no earlier than an earlier month of the same year ends |
| Calendar.OrdinalInjective | scripts/format_for_DTK.py:59 | distinct valid dates have distinct `toordinal()` day numbers |
| Calendar.IsoWeekday | scripts/format_for_DTK.py:60 | `isoweekday()` is in 1..7 |
| Calendar.WeekdayOfOffset | scripts/format_for_DTK.py:66 | counting d-1 days and whole weeks on from a Monday reaches weekday d |
| Calendar.StepBackToMonday | scripts/format_for_DTK.py:60-61 | stepping back `isoweekday()-1` days lands on a Monday at most six days earlier |
| Calendar.IsoYearStart | scripts/format_for_DTK.py:57-61 | 4 January of y stepped back `isoweekday()-1` days; its meaning is stated by Calendar.IsoYearStartNearNewYear and Calendar.IsoYearStartIsWeek1Monday |
| Calendar.IsoYearStartIsMonday | scripts/format_for_DTK.py:57-61 | `iso_year_start(y)` is a Monday from 29 December of y-1 to 4 January of y, at most three days from 1 January |
| Calendar.IsoYearStartNearNewYear | scripts/format_for_DTK.py:57-61 | `iso_year_start(y)` has isoweekday 1 and lies between 29 December of y-1 and 4 January of y |
| Calendar.IsoToGregorian | scripts/format_for_DTK.py:63-66 | `iso_year_start(y)` plus d-1 days and w-1 weeks; its meaning is stated by Calendar.IsoToGregorianWeekday, Calendar.IsoCalendarOfIsoToGregorian and Calendar.IsoToGregorianOfIsoCalendar |
| Calendar.IsoToGregorianWeekday | scripts/format_for_DTK.py:63-66 | `iso_to_gregorian(y, w, d)` has weekday d for d in 1..7; with `iso_day=0` it is the Sunday just before the Monday of week w |
| Calendar.WeekdaysFromMonday | scripts/format_for_DTK.py:66 | day d of week w after a Monday has weekday d, and day 0 is a Sunday |
| Calendar.IsoYearStartIsWeek1Monday | scripts/format_for_DTK.py:57-61 | `iso_year_start` is the Monday of ISO week 1 that `isocalendar` counts from |
| Calendar.MondayGap | scripts/format_for_DTK.py:57-61 | two ISO year starts one year apart are 52 or 53 weeks apart |
| Calendar.IsoYearLength | scripts/format_for_DTK.py:57-61 | an ISO year has 52 or 53 weeks and the next one starts right after its last week |
| Calendar.YearsOrdered | scripts/format_for_DTK.py:59 | later years start at least 365 days per year later |
| Calendar.Week1MondayNearNewYear | scripts/parse_case_data.py:8 | the Monday of ISO week 1 lies from 29 December to 4 January, at most three days from 1 January |
| Calendar.Week1MondayGap | scripts/parse_case_data.py:8 | consecutive week-1 Mondays are 364 or 371 days apart |
| Calendar.YearFrameOf | scripts/parse_case_data.py:8 | a day of Gregorian year gy lies between the week-1 Mondays of gy-1 and gy+1 |
| Calendar.IsoCalendar | scripts/parse_case_data.py:8 | `date.isocalendar()` as CPython computes it; its meaning is stated by Calendar.IsoToGregorianOfIsoCalendar, Calendar.IsoCalendarOfIsoToGregorian and Calendar.IsoWeekRange |
| Calendar.IsoWeekFrom | scripts/parse_case_data.py:8 | the divmod from the year's first ISO Monday with the corrections for the previous and the next ISO year; its cases are stated by Calendar.IsoWeekFromCases and Calendar.IsoWeekFromArith |
| Calendar.IsoWeekFromArith | scripts/parse_case_data.py:8 | `isocalendar`'s divmod and corrections give year gy+k, week w and weekday d for the day that is day d of week w counted from the right Monday |
| Calendar.IsoYearNearGregorianYear | scripts/parse_case_data.py:8 | a day's ISO year is within one of its Gregorian year |
| Calendar.RoundTripArith | scripts/format_for_DTK.py:63-66 | the arithmetic core of the round trip below |
| Calendar.IsoCalendarOfDayRoundTrip | scripts/format_for_DTK.py:63-66 | for 1 ≤ d ≤ 7 and a week w of ISO year y, `isocalendar` of `iso_to_gregorian(y, w, d)` is (y, w, d) |
| Calendar.IsoCalendarOfIsoToGregorian | scripts/format_for_DTK.py:63-66 | the same round trip, stated on the date with that day number |
| Calendar.IsoWeekFromCases | scripts/parse_case_data.py:8 | `isocalendar` returns a week of the previous, the same or the next ISO year, counted from that year's first Monday and within its length |
| Calendar.InverseArith | scripts/format_for_DTK.py:72-74 | the arithmetic core of the inverse round trip below |
| Calendar.IsoWeekOfDay | scripts/parse_case_data.py:8 | names the (year, week, weekday) `isocalendar` returns, with the case it falls in |
| Calendar.IsoYearFacts | scripts/format_for_DTK.py:57-61 | an ISO year starts on a Monday and lasts 52 or 53 whole weeks |
| Calendar.NeighbourStarts | scripts/format_for_DTK.py:57-61 | the ISO years gy-1, gy and gy+1 start on the week-1 Mondays of those years |
| Calendar.InverseFrameOf | scripts/format_for_DTK.py:72-74 | gathers the facts the inverse round trip needs about one day |
| Calendar.IsoCalendarOfDayInverse | scripts/format_for_DTK.py:72-74 | every day is `iso_to_gregorian` of its own `isocalendar`, whose weekday is its isoweekday and whose week is a week of that ISO year |
| Calendar.IsoToGregorianOfIsoCalendar | scripts/format_for_DTK.py:72-74 | the same inverse round trip, stated on a valid date |
| Calendar.IsoWeekRange | scripts/parse_case_data.py:8 | the ISO week number of a valid date is in 1..53 |
| Calendar.WeekLabel | scripts/format_for_DTK.py:72-75 | `iso_to_gregorian(*date.isocalendar()[:2])`, the label of a day's weekly row; its meaning is stated by Calendar.WeekLabelIsSundayBefore |
| Calendar.WeekLabelIsSundayBefore | scripts/format_for_DTK.py:72-75 | a day's weekly row is labelled with the Sunday just before its ISO week's Monday |
| Calendar.ParseDate | scripts/parse_case_data.py:7 | whatever `strptime(s, '%m/%d/%Y')` accepts is a real calendar date in years 1..9999 |
| Calendar.TwoDigitsValue | scripts/parse_case_data.py:7 | a zero-padded two-digit field reads back as its value |
| Calendar.FourDigitsValue | scripts/parse_case_data.py:7 | a zero-padded four-digit year reads back as its value |
| Calendar.ParseFormatRoundTrip | scripts/parse_case_data.py:7 | `strptime` parses every valid date written as MM/DD/YYYY back to that date |
| Calendar.WeekOfDate | scripts/parse_case_data.py:6-8 | `week_of_date` succeeds exactly when `strptime` accepts the text, fails with ValueError otherwise, and returns the ISO week, in 1..53 |
| CaseParser.Zeros | scripts/parse_case_data.py:18 | a fresh list of 52 zeros |
| CaseParser.Fields | scripts/parse_case_data.py:15 | one field per header cell, with its quotes removed |
| CaseParser.WeeklyCounts | scripts/parse_case_data.py:19-28 | a district's 52 slots, slot k holding the total of the rows dated in week k+1 |
| CaseParser.DistrictCounts | scripts/parse_case_data.py:17-28 | one entry per header district after column 0, holding its weekly counts |
| CaseParser.WeeklyEntries | scripts/parse_case_data.py:11-28 | the district entries of the result are the weekly lists |
| CaseParser.TotalsOf | scripts/parse_case_data.py:32-36 | `Cumulative[d] == sum(counts)` for every district d |
| CaseParser.CellError | scripts/parse_case_data.py:24-28 | the exception one cell raises: IndexError for a missing cell, then nothing for an empty one, then IndexError in week 53, then ValueError from `float()`; its consequences are stated by CaseParser.AddCell, CaseParser.LateRowCells and CaseParser.ShortRowFails |
| CaseParser.RowError | scripts/parse_case_data.py:20-28 | the exception a row raises: its date's, or its first failing cell's; stated by CaseParser.ReadRow, CaseParser.ShortRowFails and CaseParser.LateRow |
| CaseParser.CaseCountsOf | scripts/parse_case_data.py:10-38 | the dict `read_case_counts` returns or the exception it raises; its meaning is stated by CaseParser.CaseCountsMeaning, CaseParser.CaseCountsFailure and CaseParser.WeeksAddUpToColumn |
| CaseParser.FirstCellErrorPersists | scripts/parse_case_data.py:23-28 | once a cell has failed, the row's error does not change |
| CaseParser.FirstRowErrorPersists | scripts/parse_case_data.py:19-28 | once a row has failed, the run's error does not change |
| CaseParser.RowFails | scripts/parse_case_data.py:19-28 | the first failing row decides the error of the whole file |
| CaseParser.FirstCellErrorAt | scripts/parse_case_data.py:23-28 | the first failing cell decides the error of the row so far |
| CaseParser.CellFails | scripts/parse_case_data.py:23-28 | the first failing cell decides the error of the whole row |
| CaseParser.RowAdded | scripts/parse_case_data.py:19-28 | one more row adds its district total to its own week and to no other week |
| CaseParser.RowAmountStep | scripts/parse_case_data.py:23-28 | one more column adds `int(float(cell))` when the cell is non-empty and in the district's column, and nothing otherwise |
| CaseParser.AddCell | scripts/parse_case_data.py:24-28 | the `+=` of one cell fails exactly on a missing cell, week 53, or text `float()` rejects; otherwise it adds `int(float(cell))` to slot week-1 of that field, and only there |
| CaseParser.AddRow | scripts/parse_case_data.py:23-28 | the column loop fails on the first failing cell; otherwise it touches only slot week-1 of each district and adds the row's total to it |
| CaseParser.AddCumulative | scripts/parse_case_data.py:32-36 | the loop adds `Cumulative` with each district's total; a header district named `Cumulative` makes it fail |
| CaseParser.NoRowsNoCases | scripts/parse_case_data.py:17-18 | the zero lists are the counts of an empty file |
| CaseParser.RowStep | scripts/parse_case_data.py:19-28 | the loop invariant: after j rows the map is the counts of those j rows |
| CaseParser.ReadRow | scripts/parse_case_data.py:20-28 | one row: the date fails, or the cells fail, or only slot week-1 changes, by the row's total |
| CaseParser.ZeroCounts | scripts/parse_case_data.py:17-18 | every header district starts with 52 zeros |
| CaseParser.ReadRows | scripts/parse_case_data.py:19-28 | the row loop fails with the first row error, or yields the counts of all rows |
| CaseParser.ReadCaseCounts | scripts/parse_case_data.py:10-38 | `read_case_counts` returns the map `CaseCountsOf` describes: counts, then `Cumulative`, or the first error |
| CaseParser.AddToWeek | scripts/parse_case_data.py:28 | adding to a week keeps the list's length |
| CaseParser.AppendRow | scripts/parse_case_data.py:19-28 | a successful extra row dated in week w adds its total to week w of each district |
| CaseParser.LastRowAdds | scripts/parse_case_data.py:19-28 | the counts of rows are the counts of all but the last, plus the last row's total in its week |
| CaseParser.LateRowAddsNothing | scripts/parse_case_data.py:26-28 | a week-53 row that does not fail adds nothing |
| CaseParser.SumAddToWeek | scripts/parse_case_data.py:28-36 | adding x to a week adds x to the district's total |
| CaseParser.ColumnStep | scripts/parse_case_data.py:19-36 | conservation carries over one more row |
| CaseParser.WeeksAddUpToColumn | scripts/parse_case_data.py:19-36 | conservation: a district's weekly slots add up to the sum of `int(float(cell))` over the non-empty cells of its column |
| CaseParser.CaseCountsMeaning | scripts/parse_case_data.py:10-38 | on success every header district maps to its weekly lists; `Cumulative` exists exactly when there is a district, has no entry for itself and maps each district to its column total |
| CaseParser.CumulativeTotals | scripts/parse_case_data.py:32-36 | the totals `Cumulative` records are the column totals |
| CaseParser.CaseCountsFailure | scripts/parse_case_data.py:19-36 | `read_case_counts` fails exactly when some row fails or a district is named `Cumulative`, with the first row's error or a TypeError |
| CaseParser.HeaderOnly | scripts/parse_case_data.py:14-18 | a file with a header and no rows gives every district 52 zeros |
| CaseParser.ShortRowFails | scripts/parse_case_data.py:20-24 | a row shorter than the header raises an error; an empty row raises IndexError at `row[0]`, and when neither the date nor an earlier cell failed, the first missing cell raises IndexError |
| CaseParser.LateRowCells | scripts/parse_case_data.py:23-28 | in week 53, a row's cells fail exactly when one of them is non-empty, and the failure is an IndexError |
| CaseParser.LateRow | scripts/parse_case_data.py:21-28 | a full-width row dated in ISO week 53 raises IndexError unless all its cells are empty |
| CaseParser.CountsByCountryOf | scripts/parse_case_data.py:44-50 | the `cases` dict after the countries in order, or the first country's exception; its meaning is stated by CaseParser.CountsByCountryMeaning and CaseParser.FirstCountryFails |
| CaseParser.CountsByCountry | scripts/parse_case_data.py:44-50 | the loop returns what `CountsByCountryOf` gives for the hard-coded `iso_by_country` and `read_case_counts` |
| CaseParser.FirstCountryFails | scripts/parse_case_data.py:46-48 | the first country that fails decides the error |
| CaseParser.IsoCodesDistinct | scripts/parse_case_data.py:40-42 | `iso_by_country` names Guinee, Sierra_Leone and Liberia, each with its own code |
| CaseParser.CountsByCountryMeaning | scripts/parse_case_data.py:44-50 | success exactly when every country has a code and reads well; the result then has one entry per requested country, keyed by its code and holding that country's counts |
| Grid.Floor | scripts/format_for_DTK.py:112-113 | `math.floor`: the largest integer ≤ x |
| Grid.CellX | scripts/format_for_DTK.py:112 | `xpix = floor((lon + 180) / resolution)`; its meaning is stated by Grid.PointInCell and Grid.CellRanges |
| Grid.CellY | scripts/format_for_DTK.py:113 | `ypix = floor((lat + 90) / resolution)`; its meaning is stated by Grid.PointInCell and Grid.CellRanges |
| Grid.NodeId | scripts/format_for_DTK.py:111-115 | `(xpix << 16) + ypix + 1`; its meaning is stated by Grid.NodeIdDecodes, Grid.SameIdSameCell and Grid.NodeIdPositive |
| Grid.PointInCell | scripts/format_for_DTK.py:111-115 | the point lies inside the 1/24-degree cell (xpix, ypix) |
| Grid.CellRanges | scripts/format_for_DTK.py:111-115 | on the globe, ypix is in 0..4320 and xpix in 0..8640 |
| Grid.NodeIdDecodes | scripts/format_for_DTK.py:114 | for latitudes in [-90, 90], `(id-1) >> 16` is xpix and `(id-1) & 0xFFFF` is ypix |
| Grid.DivModUnique | scripts/format_for_DTK.py:114 | the split of an id into quotient and remainder by 65536 is unique |
| Grid.SameIdSameCell | scripts/format_for_DTK.py:111-115 | two points on the globe get the same id exactly when they are in the same cell |
| Grid.NodeIdPositive | scripts/format_for_DTK.py:111-115 | ids of points with lat ≥ -90 and lon ≥ -180 are at least 1 |
| Grid.OriginId | scripts/format_for_DTK.py:111-115 | the id of (0, 0) |
| Series.Clamped | scripts/format_for_DTK.py:83 | `all_counts[all_counts<0]=0` makes a cell non-negative, leaves a non-negative cell alone and zeroes a negative one |
| Series.CombineCounts | scripts/format_for_DTK.py:82-83 | every cell of the combined table is its filled and clamped value |
| Series.ClampNegatives | scripts/format_for_DTK.py:83 | the masked assignment, in place: each cell becomes its clamp |
| Series.CombinedCellsNonNegative | scripts/format_for_DTK.py:82-83 | after `fillna(0)` and the clamp, a cell is its non-negative value, or 0 |
| Series.DailyTotals | scripts/format_for_DTK.py:93 | `EbolaCases[i]` is the sum across countries of row i |
| Series.SumRealSplit | scripts/format_for_DTK.py:95 | the sum of a concatenation is the sum of the sums |
| Series.RunningTotalsArePrefixSums | scripts/format_for_DTK.py:95 | the running total at i is the carried value plus the sum of the first i+1 entries |
| Series.SumRealSingle | scripts/format_for_DTK.py:95 | a single-entry sum is its entry |
| Series.CumSumIsPrefixSum | scripts/format_for_DTK.py:95 | `cumsum()[i]` is the sum of entries 0..i |
| Series.CumSumSteps | scripts/format_for_DTK.py:95 | each step of `cumsum()` adds the next entry |
| Series.CumSumNonDecreasing | scripts/format_for_DTK.py:95 | the cumulative sum of non-negative entries never decreases |
| Series.SumRealNonNegative | scripts/format_for_DTK.py:93 | a sum of non-negative values is non-negative |
| Series.Aggregate | scripts/format_for_DTK.py:92-97 | the two channels `EbolaCases` and `CumulativeEbolaCases`, each one value per day; their meaning is stated by Series.AggregateMeaning |
| Series.AggregateMeaning | scripts/format_for_DTK.py:92-97 | `EbolaCases[i]` is the row sum, `CumulativeEbolaCases[i]` the prefix sum of `EbolaCases[0..i]`, non-decreasing when the counts are non-negative |
| Series.LogTransform | scripts/format_for_DTK.py:99-101 | `log10(x)` for a positive count and -5 otherwise; stated by Series.NoCasesShiftToZero and Series.Transformed |
| Series.Shift | scripts/format_for_DTK.py:135 | `x + 1.2` above -1.2 and 0 otherwise; its meaning is stated by Series.ShiftProperties |
| Series.ShiftProperties | scripts/format_for_DTK.py:135 | the shift is non-negative, positive exactly above -1.2, and monotone |
| Series.NoCasesShiftToZero | scripts/format_for_DTK.py:134-136 | a day with no cases is logged as -5 and shifted to 0 |
| Series.Transformed | scripts/format_for_DTK.py:134-136 | every transformed value is non-negative: 0 on days without cases, `log10(x) + 1.2` when `log10(x) > -1.2`, and 0 when `log10(x) <= -1.2` |
| Nodes.PutMeaning | scripts/format_for_DTK.py:126-127 | `d[k] = v` maps k to v, keeps the other entries, keeps the existing key order and appends a new key |
| Nodes.NodeTable.constructor | scripts/format_for_DTK.py:118 | `nodes={}` |
| Nodes.NodeTable.Set | scripts/format_for_DTK.py:126-127 | the dict assignment, in place, as `Put` describes |
| Nodes.NodeKey | scripts/format_for_DTK.py:123-125 | the last ':'-segment of the Name, replaced by its `alt_names` spelling; its meaning is stated by Nodes.NodeKeyOfName |
| Nodes.NodeKeyOfName | scripts/format_for_DTK.py:123-125 | the key of `prefix:district` is that of district: its `alt_names` entry if there is one, else district |
| Nodes.SelectMeaning | scripts/format_for_DTK.py:119-126 | a node record holds exactly Latitude, Longitude and InitialPopulation, copied from the entry |
| Nodes.EntryRecord | scripts/format_for_DTK.py:123-126 | an entry yields its record exactly when it has a Name and the three attributes, and raises KeyError otherwise |
| Nodes.GeographyNodes | scripts/format_for_DTK.py:122-126 | the table after the geography loop, or its KeyError; its meaning is stated by Nodes.GeographyFailure, Nodes.GeographyKeys and Nodes.GeographyLastWins |
| Nodes.PutAll | scripts/format_for_DTK.py:127 | `nodes.update(additional_nodes)`; its meaning is stated by Nodes.PutAllKeys, Nodes.PutAllLastWins and Nodes.PutAllWellFormed |
| Nodes.NodesOf | scripts/format_for_DTK.py:117-128 | what `get_nodes` returns; its meaning is stated by Nodes.NodesFailure, Nodes.NodesKeys, Nodes.NodesCityWins, Nodes.NodesGeographyWins and Nodes.GetNodesOverrides |
| Nodes.GeographyErrorPersists | scripts/format_for_DTK.py:122-126 | once an entry has failed, later entries change nothing |
| Nodes.GeographyAppend | scripts/format_for_DTK.py:122-126 | one more entry puts its record under its key |
| Nodes.AddGeography | scripts/format_for_DTK.py:122-126 | the loop over the geography file fills the table as `GeographyNodes` describes, or stops with its KeyError |
| Nodes.AddAll | scripts/format_for_DTK.py:127 | `nodes.update(additional_nodes)`, in place |
| Nodes.GetNodes | scripts/format_for_DTK.py:117-128 | `get_nodes` returns a fresh table holding what `NodesOf` describes, or its error |
| Nodes.GeographyStep | scripts/format_for_DTK.py:122-126 | the geography loop, one entry at a time: error, KeyError, or the record put under the entry's key |
| Nodes.GeographyFailure | scripts/format_for_DTK.py:122-126 | the loop succeeds exactly when every entry has a Name and the three attributes, and otherwise raises KeyError |
| Nodes.NodesFailure | scripts/format_for_DTK.py:117-128 | `get_nodes` fails exactly when some entry lacks a Name or an attribute, with KeyError |
| Nodes.GeographyWellFormed | scripts/format_for_DTK.py:122-126 | the table lists each key once, and lists exactly the keys it holds |
| Nodes.PutVals | scripts/format_for_DTK.py:126 | `d[k] = v` changes the value of k only |
| Nodes.GeographyKeys | scripts/format_for_DTK.py:122-126 | the table's keys are exactly the keys of the named entries; each record has exactly the three attributes and no channel |
| Nodes.PutHit | scripts/format_for_DTK.py:126 | after `d[k] = v`, k maps to v |
| Nodes.PutKeep | scripts/format_for_DTK.py:126 | `d[k'] = v` leaves every other key's value alone |
| Nodes.GeographyLastWins | scripts/format_for_DTK.py:122-126 | a key's record is the one of the last entry with that key |
| Nodes.PutAllWellFormed | scripts/format_for_DTK.py:127 | `update` keeps the table well formed and its existing key order |
| Nodes.PutAllKeys | scripts/format_for_DTK.py:127 | after `update`, the keys are the old ones and the added ones; keys not added keep their values |
| Nodes.PutAllLastWins | scripts/format_for_DTK.py:127 | an added key maps to its last added record |
| Nodes.NodesKeys | scripts/format_for_DTK.py:117-128 | the keys of `get_nodes` are the hard-coded cities and the keys of the named entries, all without a channel |
| Nodes.NodesCityWins | scripts/format_for_DTK.py:127 | every hard-coded city maps to its hard-coded record, overriding any geography entry |
| Nodes.NodesGeographyWins | scripts/format_for_DTK.py:122-127 | a key that is not a hard-coded city maps to the record of its last geography entry |
| Nodes.AdditionalNodesMeaning | scripts/format_for_DTK.py:25-51 | the cities are distinct, and each record has exactly Latitude, Longitude and InitialPopulation |
| Nodes.GetNodesOverrides | scripts/format_for_DTK.py:117-128 | in the result of `get_nodes`, each of the nine cities maps to its hard-coded record, and every node holds exactly the three attributes |
| Output.ColumnError | scripts/format_for_DTK.py:149-152 | the exception annotating a column raises: no node of that name, a name heading several columns, or a node without coordinates; stated by Output.AnnotateFailure |
| Output.AnnotateOf | scripts/format_for_DTK.py:148-152 | the table after the annotation loop, or its first error; its meaning is stated by Output.AnnotateFailure, Output.AnnotateChannels, Output.AnnotateUntouched and Output.AnnotateKeeps |
| Output.AnnotateErrorPersists | scripts/format_for_DTK.py:148-152 | once a column has failed, the annotation's error does not change |
| Output.Annotate | scripts/format_for_DTK.py:148-152 | the annotation loop, in place: it updates the table as `AnnotateOf` describes, or fails with its error |
| Output.ColumnErrorSame | scripts/format_for_DTK.py:149-152 | a column's error depends only on the table's keys and attributes |
| Output.AnnotateKeeps | scripts/format_for_DTK.py:151-152 | annotation keeps the keys, their order and every node's attributes |
| Output.AnnotateFailure | scripts/format_for_DTK.py:148-152 | annotation succeeds exactly when no column fails; otherwise it reports the first failing column's error |
| Output.TwiceCounted | scripts/format_for_DTK.py:151 | a name that heads two columns occurs more than once |
| Output.AnnotateStep | scripts/format_for_DTK.py:148-152 | a successful column is a node with coordinates, distinct from the earlier columns, and gains that column's series and node id |
| Output.AnnotateChannels | scripts/format_for_DTK.py:148-152 | after annotation each column's node holds that column's series and the grid id of its coordinates |
| Output.AnnotateUntouched | scripts/format_for_DTK.py:148-152 | nodes no column names are left unchanged |
| Output.ColumnsDistinct | scripts/format_for_DTK.py:151 | a successful annotation has distinct column names |
| Output.IdKeysCount | scripts/format_for_DTK.py:154 | the id list counts exactly the nodes that carry an id |
| Output.DistinctCount | scripts/format_for_DTK.py:154 | a list of distinct names is as long as its set |
| Output.AnnotatedIds | scripts/format_for_DTK.py:148-154 | after annotation there is one id per column (so `n_nodes` ids), and every annotated series is `n_tstep` long |
| Output.IdKeys | scripts/format_for_DTK.py:154 | the id-bearing keys, in `nodes.values()` order |
| Output.NodeIds | scripts/format_for_DTK.py:154 | `nodeids` has one id per id-bearing node |
| Output.Longs | scripts/format_for_DTK.py:160 | one packed long per id |
| Output.StepValues | scripts/format_for_DTK.py:163-167 | timestep t writes one float per id-bearing node |
| Output.StepValuesAppend | scripts/format_for_DTK.py:163-167 | one more node writes its value at t exactly when it carries an id |
| Output.ShapedHasStep | scripts/format_for_DTK.py:162-166 | a table whose series are n_tstep long has a value at every t < n_tstep |
| Output.WriteStep | scripts/format_for_DTK.py:163-167 | the inner loop writes the values of timestep t in `nodes.values()` order |
| Output.ReportOf | scripts/format_for_DTK.py:157-167 | the report's fields: header, packed ids, then values timestep-major, or the header and StructError; its meaning is stated by Output.ReportLayout, Output.ReportIds, Output.ReportValues and Output.ReportFailure |
| Output.WriteReport | scripts/format_for_DTK.py:157-167 | the report writer produces `ReportOf`: header, ids, then timestep-major values, or stops at the id pack |
| Output.ValuesLength | scripts/format_for_DTK.py:162-167 | m timesteps write m values per id-bearing node |
| Output.ValuesPrefix | scripts/format_for_DTK.py:162-167 | earlier timesteps are a prefix of the later output |
| Output.ValuesAt | scripts/format_for_DTK.py:162-167 | value t·n+i is node i's series at t |
| Output.ReportLayout | scripts/format_for_DTK.py:158-167 | with n_nodes ids the report is the header (n_nodes, n_tstep) and `n_nodes + n_nodes*n_tstep` further fields |
| Output.ReportIds | scripts/format_for_DTK.py:154-160 | field 2+i is the id of the i-th id-bearing node |
| Output.ReportValues | scripts/format_for_DTK.py:154-167 | field `2 + n_nodes + t*n_nodes + i` is the value at t of the same i-th node: ids and values visit nodes in the same order |
| Output.IndexAfter | scripts/format_for_DTK.py:159-167 | a field written after a prefix sits at the prefix's length plus its own index |
| Output.ReportFailure | scripts/format_for_DTK.py:160 | packing fails exactly when the number of ids is not n_nodes, after the header is written |
| Output.RecordsOf | scripts/format_for_DTK.py:172-177 | one record per node that carries data |
| Output.DemographicsOf | scripts/format_for_DTK.py:169-182 | the demographics document: NodeCount and one record per node that received data; its meaning is stated by Output.DemographicsMeaning |
| Output.RecordsAppend | scripts/format_for_DTK.py:172-177 | one more node appends its record exactly when it carries data |
| Output.StrippedEnds | scripts/format_for_DTK.py:172-177 | before the loop nothing is stripped; after it every node is |
| Output.StrippedStep | scripts/format_for_DTK.py:173-176 | one pass strips `data` and `id` from one node and leaves the rest |
| Output.StripNode | scripts/format_for_DTK.py:173-177 | one pass, in place: pops the node's data and id and appends its record |
| Output.WriteDemographics | scripts/format_for_DTK.py:169-182 | the loop writes `DemographicsOf` the table and leaves every node without data and id |
| Output.DemographicsMeaning | scripts/format_for_DTK.py:172-182 | NodeCount is the number of nodes that received data, and record i holds the i-th id and that node's attributes |
| Output.StrippedMeaning | scripts/format_for_DTK.py:175-177 | after the pops the nodes keep their keys and attributes and carry no data and no id |
| Output.FreshNodes | scripts/format_for_DTK.py:147 | the table `get_nodes` returns is well formed and carries no ids |
| Output.OutputsOf | scripts/format_for_DTK.py:143-182 | the report, the document and the error of the run; its meaning is stated by Output.OutputsFailure and Output.OutputsMeaning |
| Output.WriteOutputs | scripts/format_for_DTK.py:143-182 | the run from `get_nodes` to the demographics produces `OutputsOf` |
| Output.OutputsFailure | scripts/format_for_DTK.py:147-160 | the run fails exactly when `get_nodes` fails or a column fails its annotation; the id pack never fails after a successful annotation |
| Output.OutputsMeaning | scripts/format_for_DTK.py:143-182 | a successful run writes a report of `2 + n + n*n_tstep` fields headed (n, n_tstep), and a document of n records whose ids are the report's ids, in order |

## Left out

- Everything pandas does inside `read_csv`, `groupby().sum()`, `concat` and `fillna`. Frames are modelled as sequences of per-column series and 2-D arrays of numbers, and the row alignment of `concat` is taken as given.
- `smooth` (`asfreq('D', method='bfill')` and `pd.ewma`): library numerics. `aggregate` and the log transform are modelled on whatever series they receive.
- `np.log10` is a function parameter of `Series.LogTransform` and `Series.Transformed`. Only its `x <= 0 → -5` branch is interpreted.
- Floating-point rounding throughout: values are exact reals.
  - `resolution = 2.5/60` is taken as exactly 1/24.
  - `struct.pack('f', …)` rounding to 32 bits is not modelled.
  - `int(float(cell))` is exact.
- Text.ParseFloat: accepts only the decimal forms: an optional sign, digits, an optional fraction, and surrounding whitespace. The model turns every other cell text into the ValueError of `float()`. Python 2's `float()` also reads the following forms, so at line 28 they end differently:
  - an exponent form such as `1e3` is read as a number and added;
  - `inf`, and an exponent too large for a double (`1e400`), make `int()` raise OverflowError;
  - `nan` makes `int()` raise ValueError, which the model gets right only by coincidence.
- File and stream I/O.
  - `open`, `csv.reader` and `json.loads` are out: tables arrive as sequences of rows and the geography file as a sequence of entries.
  - `json.dump` is out: the demographics document is a value.
  - Byte encoding by `struct.pack` is out, including the platform width of `'l'`: the report is a sequence of typed fields.
- `write_inset_chart` and its `datetime.now()` timestamp, `print`, and the matplotlib import are not part of this model.
- The `__main__` block of `scripts/parse_case_data.py` (the JSON dump of all countries) is not part of this model.
- Specification functions take the key function, the ISO-code map and the reader as parameters; the methods use the script's own constants (`alt_names`, `iso_by_country`, `read_case_counts`).
- Python 2 dicts iterate in hash order. The model iterates in insertion order.
  - The proofs that ids and values agree need only that the order is the same at lines 154, 163 and 172, which holds because no key is added or removed between them.
  - The order in which `nodes.update` visits `additional_nodes` is taken as written.
- An empty CSV file (no header row: `reader.next()` raises StopIteration) is not modelled. A table always has a header.
- A geography `Name` that is not a string, and attributes that are not numbers, are not modelled.
- Aliasing between node dicts is not modelled: each node dict is reachable from exactly one key, so `update` and `pop` act on that entry alone.
- Output.Annotate: when a column fails, the table's contents after the partial loop are left unspecified; only the error is stated.
- Output.WriteReport: requires every annotated series to be `n_tstep` long. After a successful annotation of a rectangular frame this always holds (`Output.AnnotatedIds`). A ragged series would raise IndexError, and that case is not modelled.
- Calendar.IsoYearStart, Calendar.IsoToGregorian and Calendar.WeekLabel are total over all integers. In Python:
  - `datetime.date(iso_year, 1, 4)` raises ValueError for a year outside 1..9999;
  - date arithmetic raises OverflowError for a result before 0001-01-01 or after 9999-12-31. One example is `iso_to_gregorian(1, 1, 0)`, the label of any date in ISO week 1 of year 1.

  In those cases the model returns a day number (0 in that example) instead of the exception.
- `data` and `id` are modelled as one `Channel`, because the script always sets them together (line 151) and removes them together (lines 175-176).
- A column name with no node: `nodes.get(name)` returns None, so `node.update(...)` raises AttributeError before its argument is evaluated; the model follows this in `Output.ColumnError`.
- `iso_countries` and the loop of `get_all_counts` over it are not modelled. The clamp is modelled on the concatenated table.
