# CronParseUtil, modelled and verified in Dafny

`CronParseUtil` (src/utils/CronParseUtil.php) turns a five-field crontab
expression into the next matching minutes. This project models the whole
class:

- `check` is the syntactic validator. It trims the text and splits it on
  whitespace runs. In strict mode it demands five fields, and it tests every
  field against the pattern at line 44.
- `parseTag` and `checkExp` expand one field into an ascending, duplicate-free
  list of integers. The forms are `*`, `x/n`, `a-b`, `a-b/n`, a literal, and a
  comma list of these. Expansion fails on an inverted range or on a value
  outside the field's bounds.
- `$weekMap` is the table from day-of-week numbers to English names.
- `formatToDate` and `getDateList` validate and parse the five fields. They
  then walk one year's (month, day, hour, minute) candidates in loop order.
  A candidate is kept when it is strictly later than now and passes the
  three-branch inclusion rule. The list is deduplicated, and the pass stops
  once `$maxSize` dates are held. A pass that comes up short recurses into
  the next year and puts that year's results in front.

## Modules

- `Results`: the two error kinds (format error, domain error), `Result` and
  `Option`.
- `Text`: `trim`, `explode`/`implode`, `preg_split('#\s+#')`, and decimal
  digits.
- `Calendar`: naive date-times (`Stamp`) ordered lexicographically, the
  Gregorian leap rule, `cal_days_in_month`, and the weekday `getdate`
  reports.
- `Validator`: the regex of line 44 as a string language (`PatternMatches`),
  and `check` as the method `Check`.
- `FieldParser`: each field form is a `Term`, and `Expansion` is the set-based
  meaning of a field. The method `ParseTag` follows parseTag branch by branch
  and is proved to return exactly `Expansion`.
- `WeekMap`: the `$weekMap` table and the `array_map` over the week field.
- `Enumerator`: getDateList's four loops as methods, proved equal to left
  folds (`ScanMonths` … `ScanMinutes`, `Visit`). Also the recursion over years
  (`DateList`, `GetDateList`) and formatToDate (`Evaluate`, `FormatToDate`).
- `Occurrences`: what the enumeration produces. A year's pass is a fold over
  the year's candidate list. Over ascending candidates it keeps exactly the
  first `$maxSize` matching future minutes, in chronological order. The
  results of the recursion run through the years backwards.

## Where the code differs from its documented intent

The model follows the code in each of these cases:

- **The field pattern is looser than a grammar.** The alternation in
  `^\*(\/\d+)?|\d+…(…)*$` binds loosest. So `check` accepts any field that
  starts with `*` or ends with a digit (`Validator.PatternIsStarOrTrailingDigit`).
- **The recursion can run forever.** The docblock at line 83 says getDateList
  recurses until it has collected `$maxSize` dates. The comment at line 138
  reads an explicit year with no match as a sign that the expression names
  an impossible time, and lines 139-141 return `[]` for it. A year that
  yields at least one date but fewer than `$maxSize` meets neither exit, so
  the recursion goes on. `formatToDate("0 0 1 1 *", 2)` finds one date in
  every later year and never stops (`Occurrences.NewYearEvaluate`,
  `Occurrences.DateListGrows`).
- **The result can exceed `$maxSize`.** The merge at line 145 adds a short
  pass to a full one, so the result is longer than `$maxSize`. It is also not
  chronological across a year boundary: later years come first
  (`Occurrences.DateListOrder`).
- **`a-b/n` keeps the multiples of n, and can come out empty.** It keeps the
  k in [a, b] with k mod n = 0, not every nth value from a, and `1-1/2`
  yields an empty list without error (`FieldParser.ExpandEmptyMultiples`).

## Model

| member | source | states |
|---|---|---|
| `Text.LeadingTrim` | src/utils/CronParseUtil.php:35 | the leading run trim removes consists of trim characters and ends at the first other character |
| `Text.TrailingTrim` | src/utils/CronParseUtil.php:35 | the trailing run trim removes consists of trim characters and ends at the last other character |
| `Text.Trim` | src/utils/CronParseUtil.php:35 | the trimmed text neither starts nor ends with a trim character and is no longer than the input |
| `Text.TrimInfix` | src/utils/CronParseUtil.php:35 | trim returns an infix of the text, with only trim characters before and after it; together with Trim's end conditions this fixes the result |
| `Text.TrimUnchanged` | src/utils/CronParseUtil.php:35 | a text with no trim character at either end is its own trim |
| `Text.SplitSpaces` | src/utils/CronParseUtil.php:37 | preg_split on `\s+` gives at least one piece, and no piece holds a whitespace character |
| `Text.SplitStepRun` | src/utils/CronParseUtil.php:37 | a whitespace-free piece followed by any non-empty run of whitespace is split off as the first piece, and the rest is split on its own |
| `Text.SplitStep` | src/utils/CronParseUtil.php:37 | a whitespace-free piece followed by one space and a non-space character is split off as the first piece, and the rest is split on its own |
| `Text.SplitJoin` | src/utils/CronParseUtil.php:37 | splitting a text made of non-empty, whitespace-free pieces joined by single spaces gives back exactly those pieces, in order |
| `Text.SplitInterleave` | src/utils/CronParseUtil.php:37 | non-empty, whitespace-free pieces separated by any non-empty whitespace runs split back into exactly those pieces, in order |
| `Text.SplitSpacesNonEmpty` | src/utils/CronParseUtil.php:37 | a text that neither starts nor ends with whitespace splits into non-empty pieces |
| `Text.Explode` | src/utils/CronParseUtil.php:170 | explode on one character gives at least one piece, no piece holds the separator, and a text without the separator is one piece |
| `Text.JoinExplode` | src/utils/CronParseUtil.php:170 | joining the pieces of explode with the separator gives back the text |
| `Text.ExplodeJoin` | src/utils/CronParseUtil.php:170 | exploding a join of separator-free pieces gives back the pieces |
| `Text.ParseShowNat` | src/utils/CronParseUtil.php:181-183 | reading back the decimal digits of a natural number gives the number |
| `Validator.PatternIsStarOrTrailingDigit` | src/utils/CronParseUtil.php:44 | the pattern matches a field if and only if the field starts with `*` or ends with a digit |
| `Validator.FieldMatches` | src/utils/CronParseUtil.php:44-45 | the executable test is true exactly when the pattern matches |
| `Validator.Check` | src/utils/CronParseUtil.php:33-51 | check returns true if and only if the trimmed, split text has five fields (strict mode) and every field matches the pattern |
| `Validator.AcceptsAllStars` | src/utils/CronParseUtil.php:33-51 | check accepts `* * * * *` |
| `Validator.RejectsFourFields` | src/utils/CronParseUtil.php:39-41 | strict check rejects `* * * *`, which has four fields |
| `Validator.RejectsLetterField` | src/utils/CronParseUtil.php:43-48 | check rejects `a * * * *` |
| `Validator.RejectsBadField` | src/utils/CronParseUtil.php:43-48 | any field that neither starts with `*` nor ends with a digit makes check return false |
| `FieldParser.ParseTag` | src/utils/CronParseUtil.php:159-219 | parseTag returns exactly the field's expansion: a domain error when a range is inverted or any value leaves [min, max], otherwise the field's values ascending |
| `FieldParser.CollectList` | src/utils/CronParseUtil.php:169-179 | the comma branch collects exactly the values of its sub-terms; a failing sub-term fails the whole field |
| `FieldParser.CollectTerm` | src/utils/CronParseUtil.php:180-206 | each single-term branch collects exactly that term's values, or fails when its range is inverted |
| `FieldParser.CollectMultiples` | src/utils/CronParseUtil.php:186-190 | the loop of the `a-b/n` branch yields the multiples of n in [a, b] in order |
| `FieldParser.CheckBounds` | src/utils/CronParseUtil.php:209-213 | the bounds pass succeeds if and only if every value lies in [min, max] |
| `FieldParser.SortUnique` | src/utils/CronParseUtil.php:215-217 | sort then array_unique gives an ascending, duplicate-free list with the same values |
| `FieldParser.Insert` | src/utils/CronParseUtil.php:215 | inserting into an ascending duplicate-free list keeps it so and adds exactly the new value |
| `FieldParser.ExpansionSortedInBounds` | src/utils/CronParseUtil.php:208-217 | a field fails exactly when a range is inverted or a value is out of bounds; otherwise its list is ascending, holds exactly its values, and each lies in [min, max] |
| `FieldParser.ExpandWildcard` | src/utils/CronParseUtil.php:161-163 | `*` yields exactly min, min + 1, …, max |
| `FieldParser.ExpandEvery` | src/utils/CronParseUtil.php:192-196 | `x/n` yields min, min + n, … up to max, whatever x is |
| `FieldParser.StepRangeSpec` | src/utils/CronParseUtil.php:195 | range(min, max, n) is ascending and holds exactly the values min + kn up to max |
| `FieldParser.ExpandMultiples` | src/utils/CronParseUtil.php:180-191 | `a-b/n` fails when a > b or a multiple leaves the bounds, and otherwise yields exactly the multiples of n in [a, b] |
| `FieldParser.MultiplesListSpec` | src/utils/CronParseUtil.php:186-190 | the multiples list is ascending and holds exactly the k in [a, b] with k mod n = 0 |
| `FieldParser.ExpandOneToFiveByTwo` | src/utils/CronParseUtil.php:180-191 | `1-5/2` in the minute field yields [2, 4] |
| `FieldParser.ParseOneToFiveByTwo` | src/utils/CronParseUtil.php:159-219 | the text `1-5/2` is well formed and parseTag(`1-5/2`, 0, 59) yields [2, 4] |
| `FieldParser.ExpandEmptyMultiples` | src/utils/CronParseUtil.php:180-191 | `1-1/2` yields the empty list and no error |
| `FieldParser.ExpandSpan` | src/utils/CronParseUtil.php:197-203 | `a-b` fails when a > b or the range leaves the bounds, and otherwise yields a, …, b |
| `FieldParser.ParseInvertedRange` | src/utils/CronParseUtil.php:197-201 | parseTag(`10-5`, 0, 59) raises a domain error |
| `FieldParser.ExpandLiteral` | src/utils/CronParseUtil.php:204-213 | a literal yields itself when in bounds and fails otherwise |
| `FieldParser.ExpandListIsUnion` | src/utils/CronParseUtil.php:169-179 | a list fails exactly when one of its sub-terms fails, and otherwise holds exactly the values some sub-term yields |
| `FieldParser.ExpansionOrderIndependent` | src/utils/CronParseUtil.php:169-179 | reordering or repeating the sub-terms of a list does not change its expansion |
| `FieldParser.CheckExpSeparatesLiterals` | src/utils/CronParseUtil.php:226-229 | checkExp is false on a well-formed comma piece exactly when the piece is a run of digits, the literal that the comma branch appends without recursing |
| `FieldParser.LexTerms` | src/utils/CronParseUtil.php:170-178 | each comma sub-term is read as the term its own branch denotes |
| `WeekMap.WeekMapTotal` | src/utils/CronParseUtil.php:17-25 | the table is defined exactly on 0..6 and names each day as the calendar does |
| `WeekMap.WeekMapInjective` | src/utils/CronParseUtil.php:17-25 | no two day numbers share a name |
| `WeekMap.MapWeek` | src/utils/CronParseUtil.php:75-77 | the mapped week list has one name per parsed number, the calendar's name for it |
| `WeekMap.MapWeekMembership` | src/utils/CronParseUtil.php:75-77 | a date's weekday name is in the mapped list if and only if its weekday number is in the parsed list |
| `Calendar.DaysInMonth` | src/utils/CronParseUtil.php:102 | a month has 28 to 31 days: 29 exactly for February in a leap year, 28 for February otherwise, 30 for April, June, September and November |
| `Calendar.BeforeIsStrictOrder` | src/utils/CronParseUtil.php:107 | the comparison against now is a strict total order on minutes |
| `Calendar.DayOfWeek` | src/utils/CronParseUtil.php:111 | the weekday number lies in 0..6 |
| `Calendar.EpochIsThursday` | src/utils/CronParseUtil.php:111 | 1 January 1970 is day 4, a Thursday |
| `Calendar.WeekdayAdvances` | src/utils/CronParseUtil.php:111 | the weekday of the next calendar day is one more, modulo 7 |
| `Calendar.NextDay` | src/utils/CronParseUtil.php:111 | the calendar successor of an existing day exists; it is the step along which `Calendar.WeekdayAdvances` fixes getdate's weekday |
| `Enumerator.Hits` | src/utils/CronParseUtil.php:114-126 | the three branches append only the candidate, and append something if and only if one of them holds |
| `Enumerator.ArrayUnique` | src/utils/CronParseUtil.php:128 | array_unique keeps the same values, leaves no duplicate, and leaves a duplicate-free list unchanged |
| `Enumerator.ArrayUniqueFirstOrder` | src/utils/CronParseUtil.php:128 | array_unique keeps its values in the order of their first occurrences in the input |
| `Enumerator.VisitCandidate` | src/utils/CronParseUtil.php:106-132 | the loop body skips a candidate not after now, and otherwise appends per branch, deduplicates and records whether $maxSize has been reached |
| `Enumerator.MinuteLoop` | src/utils/CronParseUtil.php:105-133 | the minutes loop computes the fold of the loop body over the hour's minutes, stopping once full |
| `Enumerator.HourLoop` | src/utils/CronParseUtil.php:104-134 | the hours loop computes the fold over the day's hours |
| `Enumerator.DayLoop` | src/utils/CronParseUtil.php:101-135 | the days loop computes the fold over days 1 to cal_days_in_month |
| `Enumerator.YearDates` | src/utils/CronParseUtil.php:92-136 | the four loops with `break 4` compute the year's pass |
| `Enumerator.MonthsFull` | src/utils/CronParseUtil.php:130-132 | once $dates is full, the rest of the loops change nothing |
| `Enumerator.GetDateList` | src/utils/CronParseUtil.php:89-149 | getDateList returns the recursion over years of the year passes: [] for an explicit year with no match, the pass itself when it holds $maxSize dates, else the next year's result followed by the pass |
| `Enumerator.ParseFields` | src/utils/CronParseUtil.php:67-77 | the five parseTag calls fail with a domain error if any field fails, and otherwise give the five expansions with the week field mapped to names |
| `Enumerator.FormatToDate` | src/utils/CronParseUtil.php:60-80 | formatToDate raises a format error when check fails, a domain error when a field fails, and otherwise returns getDateList of the parsed fields |
| `Occurrences.YearPassAsScan` | src/utils/CronParseUtil.php:100-136 | the nested loops are one fold over the year's candidates in loop order |
| `Occurrences.YearCandsSpec` | src/utils/CronParseUtil.php:100-106 | the candidates of a year are exactly the minutes with month, hour and minute parsed and an existing day, ascending when the parsed lists ascend |
| `Occurrences.ScanSound` | src/utils/CronParseUtil.php:107-128 | for any $maxSize a pass keeps only candidates that are after now and included, and keeps them in order |
| `Occurrences.ScanFirstMatches` | src/utils/CronParseUtil.php:107-132 | for $maxSize at least 1 a pass keeps exactly the first $maxSize matching candidates, and stops exactly when that many exist |
| `Occurrences.ScanNegativeSize` | src/utils/CronParseUtil.php:107-132 | with a negative $maxSize the count never equals it: a pass never fills and keeps every matching candidate |
| `Occurrences.ArrayUniqueCopies` | src/utils/CronParseUtil.php:114-128 | a candidate appended by several branches appears once, at the end |
| `Occurrences.YearPassSound` | src/utils/CronParseUtil.php:100-128 | every date of a year's pass is a candidate of that year, after now and included; the pass is chronological |
| `Occurrences.YearPassFirstMatches` | src/utils/CronParseUtil.php:100-136 | a year's pass holds the first $maxSize matching minutes of the year, never more than $maxSize, and a shorter pass misses none |
| `Occurrences.DateListSound` | src/utils/CronParseUtil.php:89-149 | every returned date matches and lies between the start year and budget years later |
| `Occurrences.DateListOrder` | src/utils/CronParseUtil.php:143-146 | the result runs through the years backwards and within a year forwards |
| `Occurrences.DateListGrows` | src/utils/CronParseUtil.php:139-146 | when every year from y on yields at least one but fewer than $maxSize dates, a call for year y with budget b returns at least b + 1 dates: no call returns early and only the budget stops the recursion |
| `Occurrences.OnePerYear` | src/utils/CronParseUtil.php:139-146 | when every year yields only 1 January and $maxSize is not 1, the recursion returns budget + 1 dates, one per year, latest first |
| `Occurrences.NewYearParsed` | src/utils/CronParseUtil.php:67-77 | the five fields of `0 0 1 1 *` are well formed and parse to minutes [0], hours [0], days [1] and months [1] |
| `Occurrences.NewYearFields` | src/utils/CronParseUtil.php:33-51 | check accepts `0 0 1 1 *` and splits it into the fields `0`, `0`, `1`, `1`, `*` |
| `Occurrences.NewYearOnly` | src/utils/CronParseUtil.php:100-128 | with the parsed fields of `0 0 1 1 *`, a year whose 1 January midnight is after now yields exactly that date |
| `Occurrences.NewYearEveryYear` | src/utils/CronParseUtil.php:139-146 | with the parsed fields of `0 0 1 1 *` and $maxSize 2, a call for a year after now returns budget + 1 dates, one 1 January per year, latest first |
| `Occurrences.NewYearNowEmpty` | src/utils/CronParseUtil.php:98-128 | with the parsed fields of `0 0 1 1 *`, the pass for now's own year is empty, since its 1 January midnight is not after now |
| `Occurrences.NewYearFromNow` | src/utils/CronParseUtil.php:89-149 | with the parsed fields of `0 0 1 1 *` and $maxSize 2, a call without a year returns one 1 January midnight for each of the budget years after now's, latest first |
| `Occurrences.NewYearEvaluate` | src/utils/CronParseUtil.php:60-149 | formatToDate(`0 0 1 1 *`, 2) succeeds and returns budget dates, the 1 January midnights of the budget years after now's, latest first |
| `Occurrences.ParsedFieldsSpec` | src/utils/CronParseUtil.php:67-77 | the parsed fields are the five expansions, ascending and in bounds, and the week names stand for the expanded week numbers |
| `Occurrences.EvaluateErrors` | src/utils/CronParseUtil.php:60-73 | formatToDate fails with a format error exactly when check rejects, and with a domain error exactly when check accepts and some field fails |
| `Occurrences.EvaluateSound` | src/utils/CronParseUtil.php:60-149 | every returned date is after now, within budget years, on an existing day, with its minute, hour and month in the expanded fields, and included by one of the three branches; the list runs backwards through the years |

## Left out

- **Clock.** `date('Y')` and `strtotime(date("Y-m-d H:i"))` (lines 95 and 98) become the parameter `now`, a minute-granular `Stamp`, and its year. Line 98 runs again in every recursive call, so the code reads the clock once per year visited. The model reads it once and holds `now` fixed for the whole recursion, which differs only when a minute boundary passes during the call.
- **Timezone.** Date-times are naive wall-clock tuples compared lexicographically. The DST normalisation of `mktime` and `getdate` is not modelled. Days never exceed `cal_days_in_month`, so no other normalisation arises.
- **Output format.** Dates are `Stamp` tuples, not `'Y-m-d H:i'` strings. The format is injective on the minutes produced, so `array_unique` on the strings acts as it does on the tuples.
- **Error messages.** The exception texts become two error kinds, `FormatError` and `DomainError`.
- Enumerator.DateList: the recursion at line 145 has no depth bound in the code. The model takes a `budget` of further years, and with no budget left it returns the current pass as it stands. This applies to `Enumerator.GetDateList`, `Enumerator.FormatToDate` and `Enumerator.Evaluate` too.
- Enumerator.FormatToDate: requires that the text has no leading or trailing whitespace. The code splits the untrimmed text at line 65 while check trims.
- Enumerator.FormatToDate: requires that an accepted expression has five fields in the intended grammar. Fields the loose pattern lets through (`*,5`, `1/2-3`, `abc5`) behave according to PHP's type juggling and are not modelled.
- FieldParser.ParseTag: requires a well-formed field. Numbers are decimal naturals. A step is at least 1, and for `x/n` at most max − min. A step of 0, or a step beyond the span, is an error whose form depends on the PHP version.
- **PHP type juggling.** Loose `==`/`<` between numeric strings and integers, and `array_unique`'s string-mode comparison (which keeps both `"05"` and `"5"`), are not modelled. Every value is an integer.
- **Year truthiness.** `$year` is tested by truthiness, so an explicit year 0 counts as "no year". The model treats any explicit year as given.
- Occurrences.ScanFirstMatches: stated for `$maxSize` at least 1 only, and so is `Occurrences.YearPassFirstMatches`. The model follows the code for the other sizes. With `$maxSize` 0 the pass ends at the first future candidate when that candidate adds nothing; otherwise the list is never empty again and the pass never fills. With a negative `$maxSize` the pass never fills and keeps every match (`Occurrences.ScanNegativeSize`).
- Occurrences.NewYearEvaluate: stated for a `now` whose day is at least 1 and whose hour and minute are not negative, as every clock reading is; the same holds for `Occurrences.NewYearFromNow` and `Occurrences.NewYearNowEmpty`.
- **Non-strict mode.** Only strict mode (`$checkCount = true`), which `formatToDate` uses, is linked to the enumeration. `Validator.Check` models both modes.
