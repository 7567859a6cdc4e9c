# IoT sensor data analyzer: a verified model

This project models the core of the IoT sensor data analyzer in `analyzer.py`.
The analyzer reads rows of sensor readings. It keeps the rows that match the
user's site, device, metric and time-range criteria, and converts each value
text to a number. It groups the numbers by (device, site, metric) and
computes count, mean, minimum, maximum and population standard deviation
for each group. Finally it ranks the groups twice, by average and by
standard deviation, keeping the ten highest of each.

Modules, one per part of the program:

- `Wrappers`: `Option`.
- `Text`: Python's `str.strip` (with Python's set of white-space characters)
  and decimal digit strings.
- `Timestamp`: `parse_datetime`. An instant is a
  (year, month, day, hour, minute, second) tuple, ordered lexicographically.
  Each of the three `strptime` formats is a fixed-width digit reader that
  checks the date the way `datetime` does (years 1 to 9999, month lengths,
  leap years). The search tries the three formats in order.
- `RowFilter`: `should_include`, a pure chain of conditionals.
- `ValueParser`: `convert_to_float`. The grammar is plain decimals: an
  optional sign, digits, and an optional dot with digits.
- `Statistics`: `compute_statistics` over reals. `math.sqrt` is a parameter.
  The facts about the standard deviation require of it only that it is never
  negative on non-negative arguments and that the root of 0 is 0.
- `Aggregation`: the grouping loop of `main`, with the `defaultdict(list)`
  as a class `GroupTable` that is updated in place. Also the loop that
  builds `stats`. Both are proved against reference functions:
  - `GroupValues` is the accepted values of one key, in input order.
  - `KeyOrder` is the keys in the order they are created.
  - `FirstIndex` is the first row that adds to a key.
- `Ranking`: `sorted(..., reverse=True)[:10]` as a stable descending
  insertion sort followed by a take of ten.
- `Analyzer`: the pipeline from rows to the statistics and the two rankings.

Notes on what the code does:
- The standard deviation takes two passes: first the mean, then the squared
  deviations from it. The model does the same.
- Tied groups in a ranking keep the iteration order of `stats`. That is
  Python dict insertion order: the order in which the groups were first
  given a value. The model proves exactly that order (`Ranking.TopStable`,
  `Aggregation.KeyOrderByFirstOccurrence`).
- The empty record's `average` is the integer `0` in the code. The model
  uses `0.0`, which is numerically equal.

## Model

| member | source | states |
|---|---|---|
| Text.Strip | analyzer.py:99 | the result is no longer than the input and has no white space left at either end |
| Text.StripSlice | analyzer.py:99 | the result is the contiguous slice of the input after its leading white space, and only white space lies before and after it |
| Text.StripEmptyIffAllSpace | analyzer.py:114 | stripping gives the empty text exactly when the text is all white space |
| Text.StripRemovesPadding | analyzer.py:118 | stripping white space padded around a text with non-space ends gives back that text |
| Timestamp.ParseWith | analyzer.py:65-77 | whatever one format accepts is a valid calendar instant; the date-only format yields midnight |
| Timestamp.ParseFirstTakesFirstSuccess | analyzer.py:71-77 | when format i is the first that accepts the text, the search returns that format's result |
| Timestamp.ParseFirstFailsIffNoneAccepts | analyzer.py:71-81 | the search fails (the ValueError) exactly when no format accepts the text |
| Timestamp.ParseDateTimeOrder | analyzer.py:64-81 | the result is that of the zoned format if it accepts, else that of the date-time format, else that of the date-only format; it fails exactly when none of the three accepts |
| Timestamp.ParseDateTimeRoundTrip | analyzer.py:67 | "YYYY-MM-DD HH:MM:SS" written from any valid instant parses back to that instant |
| Timestamp.ParseZonedRoundTrip | analyzer.py:66 | the same text followed by " +0000 UTC" parses to the same instant |
| Timestamp.DateOnlyIsMidnight | analyzer.py:68 | "YYYY-MM-DD" parses to midnight of that date, the same instant as the date followed by " 00:00:00" |
| Timestamp.LessEqIsTotalOrder | analyzer.py:101-104 | the order on instants used by the comparisons is reflexive, antisymmetric, transitive and total |
| RowFilter.ShouldInclude | analyzer.py:83-111 | an included row matches every set site, device and metric criterion |
| RowFilter.NoDateBoundIgnoresTime | analyzer.py:96-111 | without a date bound, a row is included exactly when its site, device and metric match, whatever its time text |
| RowFilter.DateBoundIncludes | analyzer.py:96-111 | with a date bound, a row is included exactly when it matches, its stripped time parses, and the instant lies within the bounds that are set, both inclusive |
| RowFilter.UnparsableTimeExcludes | analyzer.py:106-109 | a time that does not parse excludes the row exactly when a date bound is set; it is a filter miss, not an error |
| RowFilter.UnsetCriterionIgnored | analyzer.py:85-94 | a criterion that is None or empty never excludes a row: changing that field of the row does not change the verdict |
| RowFilter.FilterNarrows | analyzer.py:83-111 | without criteria every row passes, and any criteria only remove rows |
| ValueParser.ConvertToFloat | analyzer.py:113-121 | a number comes back only for a present value whose stripped text is non-empty |
| ValueParser.ConvertToFloatSpec | analyzer.py:113-121 | None and all-space texts give no number; any other text gives the decimal reading of its stripped text, which is no number when that text is not a decimal |
| ValueParser.ConvertIgnoresPadding | analyzer.py:118 | white space around the value text does not change the number read |
| ValueParser.ParseIntegerText | analyzer.py:118 | an integer written in decimal, with a minus sign when negative, reads back as that integer |
| ValueParser.ParseFixedPointText | analyzer.py:118 | n followed by "." and f written in w digits reads back as n + f / 10^w |
| ValueParser.ConvertDataExample | test_analyzer.py:24 | the value text "10.0" of the end-to-end test data converts to 10.0 |
| ValueParser.ConvertPaddedExample | analyzer.py:113-118 | " 52.5 " converts to 52.5 |
| ValueParser.ConvertNoValueExamples | analyzer.py:114-121 | "", "n/a" and a missing value give no number |
| Statistics.PresentMembers | analyzer.py:125 | the valid values are exactly the non-None entries |
| Statistics.ComputeStatistics | analyzer.py:123-155 | the count is at most the number of entries, and it is 0 exactly when every entry is None |
| Statistics.EmptyStatistics | analyzer.py:127-134 | a list with no values gives the all-zero record |
| Statistics.StatisticsBounds | analyzer.py:137-140 | the count is the number of values; min and max are members and bound every value; min <= average <= max; average * count is the sum |
| Statistics.StdDevIsRootOfVariance | analyzer.py:143-147 | the standard deviation is sqrt of the population variance, and it is never negative |
| Statistics.VarianceNonNegative | analyzer.py:146 | the population variance is never negative |
| Statistics.SingletonStatistics | analyzer.py:143-144 | one value x gives average = min = max = x, count 1 and standard deviation exactly 0.0 |
| Statistics.FourValuesExample | test_analyzer.py:8-17 | [1, 2, 3, 4] gives average 2.5, min 1, max 4, count 4, standard deviation sqrt(1.25) |
| Statistics.ThreeValuesExample | test_analyzer.py:60-69 | [10, 20, 30] gives average 20, min 10, max 30, count 3, standard deviation sqrt(200/3) |
| Statistics.TwoValuesExample | test_analyzer.py:71-80 | [50, 55] gives average 52.5, min 50, max 55, count 2, standard deviation sqrt(6.25) |
| Aggregation.GroupTable.Append | analyzer.py:205 | the value goes to the end of its key's list; a new key is added at the end of the key order; every other list is unchanged; the table stays consistent |
| Aggregation.AddRow | analyzer.py:199-205 | a row that adds no value leaves the table as it was; otherwise the effect is that of appending its value under its key |
| Aggregation.Aggregate | analyzer.py:192-205 | the keys are those of groups that received a value, in creation order, and each key's list is the accepted values of its rows in input order |
| Aggregation.AppendStep | analyzer.py:198-205 | one step of the loop turns the groups of the rows so far into the groups of those rows plus the next one |
| Aggregation.GroupValuesSnoc | analyzer.py:205 | one more row appends its value to its own group and to no other |
| Aggregation.GroupValuesConcat | analyzer.py:198-205 | the group of a concatenated input is the group of the first part followed by that of the second |
| Aggregation.IgnoredRowContributesNothing | analyzer.py:199-204 | a row that the filter rejects, or whose value does not convert, can be removed from anywhere in the input without changing any group or the order of the keys |
| Aggregation.FilteredGroupNoLarger | analyzer.py:199-205 | under any criteria, every group holds at most as many values as the same group without criteria |
| Aggregation.KeysAreNonEmptyGroups | analyzer.py:205 | a key exists exactly when its group is non-empty |
| Aggregation.KeyOrderMembers | analyzer.py:205 | a key exists exactly when some row adds a value to it |
| Aggregation.KeyOrderDistinct | analyzer.py:192-205 | no key is listed twice |
| Aggregation.KeyOrderByFirstOccurrence | analyzer.py:192-205 | keys are ordered by the position of the first row that adds a value to them |
| Aggregation.KeyOrderExtends | analyzer.py:198-205 | the keys created by a prefix of the input come first, in the same order |
| Aggregation.KeyOrderExample | test_analyzer.py:22-29 | the samples of the end-to-end test data give two groups, the temperature group first |
| Aggregation.TemperatureGroupExample | test_analyzer.py:22-29 | in the samples of that data the temperature group holds [10, 20, 30] |
| Aggregation.HumidityGroupExample | test_analyzer.py:22-29 | in the samples of that data the humidity group holds [50, 55] |
| Aggregation.ComputeAllStats | analyzer.py:212-220 | one entry per key in key order, each holding the statistics of that key's list |
| Ranking.SortDescending | analyzer.py:223-234 | the sorted list is a permutation of the input |
| Ranking.SortDescendingSorted | analyzer.py:223-234 | the sorted list is non-increasing in the chosen field |
| Ranking.SortDescendingStable | analyzer.py:223-234 | for every key value, the entries with that value appear in the sorted list in their input order |
| Ranking.SortDescendingDistinct | analyzer.py:223-234 | sorting a list without duplicates gives a list without duplicates |
| Ranking.Top | analyzer.py:222-234 | a ranking holds min(10, number of groups) entries |
| Ranking.TopSorted | analyzer.py:223-234 | a ranking is non-increasing in its field |
| Ranking.TopFromInput | analyzer.py:223-234 | a ranking takes its entries from the groups, each no more often than it occurs there |
| Ranking.TopDominates | analyzer.py:223-234 | no group left out of a ranking has a greater key than a group in it |
| Ranking.TopStable | analyzer.py:223-234 | the ranked entries with any given key are the first entries with that key in the input, in input order |
| Ranking.TopDistinct | analyzer.py:223-234 | a ranking of distinct entries has no duplicates |
| Analyzer.Analyze | analyzer.py:192-234 | the statistics are the report of the grouped rows, and the two rankings are its top ten by average and by standard deviation |
| Analyzer.ReportEntry | analyzer.py:212-220 | every reported group holds at least one value, and its record counts those values and has their mean, minimum and maximum |
| Analyzer.ReportKeysDistinct | analyzer.py:212-220 | each group is reported once |
| Analyzer.RankingsDistinct | analyzer.py:223-234 | neither ranking lists a group twice |

## Left out

- Argument parsing with `argparse` (analyzer.py:7-62) is not modelled. Its parsed criteria are the `Criteria` value.
- All printing and formatting of the report (analyzer.py:157-183, 236-255) is left out; it is presentation only.
- Opening the file, `csv.DictReader` and the catch-all exception handler (analyzer.py:195-209) are left out. The input is a sequence of `Reading` rows.
- Missing columns are left out: every `Reading` has all six fields, and only `value` may be absent (`None`, which gives no number). In the code, a header without a `time` column raises `KeyError` at analyzer.py:99, inside the `try`, and analyzer.py:106 turns that into a filter miss. A header without `site`, `device` or `metric` raises `KeyError` at analyzer.py:85, 89, 93 or 201, outside that `try`. A short row gets `None` in its missing fields. A `None` site, device or metric raises nothing: it fails the comparison at analyzer.py:85-93 or becomes part of the key at analyzer.py:201. A `None` time under a date bound raises `AttributeError` on `None.strip()` at analyzer.py:99, which `should_include` does not catch.
- The abort of the whole run is left out. An uncaught error in the loop reaches the catch-all at analyzer.py:207-209. The program then prints "Error reading file" and stops, with no report.
- IEEE floating point is left out. Sums, means and variances are exact reals, so rounding and `inf`/`nan` are not modelled.
- Statistics.StdDevIsRootOfVariance: `math.sqrt` is a parameter. Only two properties of it are required: it is never negative on non-negative arguments, and sqrt(0) = 0. It is not shown to square back.
- ValueParser.ConvertToFloat: reads only plain decimals. Python's `float()` also accepts exponents, `inf`, `nan`, underscores between digits and non-ASCII digits; those texts give no number in the model.
- Timestamp.ParseWith: format 1 (`%z %Z`) accepts only the offset `+0000`/`-0000` followed by `UTC` or `GMT`. The model does not cover other offsets and the conversion between them, other zone names, or letter case.
- Timestamp.ParseWith: every numeric field must have its full width of ASCII digits. `strptime` also accepts shorter fields and leading or inner white space. Seconds 60 and 61, which `strptime` reads but `datetime` rejects, give no instant.
- The time zone attached by `dt.replace(tzinfo=timezone.utc)` (analyzer.py:75-76) is not modelled, because every instant the model parses is UTC.
