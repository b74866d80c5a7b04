# Sales dashboard: upload normalisation and aggregation, in Dafny

This project models the computational core of a sales dashboard for a
cigarette distributor. Sales staff upload Excel or CSV exports with
Indonesian column names (`Minggu`, `Tanggal`, `Produk`, `Omzet (Nett)`, …).
The server turns each row into a sales record. Later the dashboard groups
the stored records into weekly, quarterly, last-four-weeks and
year-on-year figures. The model covers these parts of the repository:

- **The upload route** (`app/api/upload/route.ts`). This covers the locale
  heuristic of `parseNumericValue`, Indonesian vs English separators. It
  covers the date pre-processing and the three date attempts of
  `parseSalesDate`, and the row loop of `processSalesData`. It covers the
  CSV row filter and the decisions `POST` makes before and after the
  database transaction.
- **The alternative upload pipeline** (`fix_upload_process.ts`). This
  covers the week/year boundary correction, the date parser that also
  takes native `Date` cells and corrects them in place with
  `setFullYear`, the row loop that stamps the selected area, and this
  file's own numeric parser. The two pipelines are modelled separately.
  Lemmas show where they agree, e.g. `1.234.567,89`, `1,234.56` and
  `1234,56`. Lemmas also show where they disagree: for `1.500.000` the
  route reads 1500000, while this file's digits-and-dots fast path reads
  1.5.
- **The dashboard aggregation** (`lib/database.ts`). This covers grouping
  by (year, week), the choice of the two compared years, the 52-week
  comparison loop, the quarters, the L4W/C4W windows and the year-on-year
  totals.
- **The outlet contribution panel** (`components/OutletContributionSection.tsx`).
  This covers the filter options, the three-way filter, the weekly sums,
  shares, the pie slices, best and worst week, and the status thresholds.
- **The area list** (`app/api/areas/route.ts`, `lib/areaConfig.ts`) and the
  **sign-based formatting helpers** (`lib/utils.ts`).

## Files and modules

| file | module | contents |
|---|---|---|
| wrappers.dfy | `Wrappers` | `Option`, `Result` |
| jstext.dfy | `JsText` | the JavaScript string and number built-ins the code relies on: `trim`, the `\s` set, `toLowerCase`, `lastIndexOf`, `split`/`join`, character-class `replace`, `parseInt`, `parseFloat`, `Math.round`, number-to-text, `toFixed(1)` |
| calendar.dfy | `Calendar` | calendar dates, `new Date(y, m, d)` with its carrying of out-of-range parts, `setFullYear` |
| cells.dfy | `Cells` | spreadsheet cells, JavaScript truthiness and `\|\|`, header-keyed rows |
| collections.dfy | `Collections` | `filter`, strict total orders, `Array.from(set).sort(...)` |
| filtering.dfy | `Filtering` | "push the result of each row that does not fail": an order-preserving keep |
| datetext.dfy | `DateText` | the date pre-processing shared by both pipelines, and the D/M/Y and Y/M/D matchers |
| upload_route.dfy | `UploadRoute` | the route's numeric parser, date parser, row loop, CSV filter and `POST` |
| fix_upload.dfy | `FixUpload` | the alternative pipeline, and the lemmas that compare it with the route |
| aggregates.dfy | `SalesAggregates` | quarters, L4W/C4W, year-on-year |
| dashboard.dfy | `Dashboard` | `processSalesRecords` |
| outlet.dfy | `OutletContribution` | the outlet panel's derived data |
| areas.dfy | `Areas` | default areas, lookup, the add/update/delete `POST` |
| formatting.dfy | `Formatting` | colour classes, percentage and currency text |

How the source is rendered:

- Loops that push results become methods with loop invariants. Each method
  is proved equal to a specification function, and the properties are then
  proved about those functions. This applies to `processSalesData`,
  `processSalesDataFixed`, the CSV callback, the grouping `forEach`, the
  52-week loop, the L4W/C4W map updates, the quarter `forEach` and the
  outlet `forEach` loops.
- The parsed `Date` that `parseSalesDateWithCorrection` mutates with
  `setFullYear` is a class, `FixUpload.JsDate`.
- A default argument (`areas = defaultAreas` in `lib/areaConfig.ts`) becomes an explicit argument; `Areas.DefaultArgumentCalls` states the calls that omit it.
- Branch-only code is written as functions: `parseNumericValue`,
  `getCorrectYearForWeek`, the area operations and the formatting helpers.
- Amounts are exact `real`s. `Math.round(x)` is `Floor(x + 0.5)`.
- The host's own `new Date(string)` is a parameter `host: string ->
  Option<CalendarDate>`. `None` stands for an invalid date. Nothing is
  assumed about it.

## Model

| member | source | states |
|---|---|---|
| JsText.Lower | app/api/upload/route.ts:315 | `toLowerCase` keeps the length and lower-cases exactly the ASCII capitals, character by character |
| JsText.TrimStart | app/api/upload/route.ts:358 | the result is a suffix of the input; what it drops is white space; it does not start with white space |
| JsText.TrimEnd | app/api/upload/route.ts:358 | the result is a prefix of the input; what it drops is white space; it does not end with white space |
| JsText.TrimEmptyIffBlank | app/api/upload/route.ts:358-361 | `trim()` is empty exactly when the text is all white space, so `!trimmed` tests for blank text |
| JsText.TrimHasNoOuterSpace | app/api/upload/route.ts:358 | trimmed text neither starts nor ends with white space |
| JsText.LastIndexOf | app/api/upload/route.ts:373-374 | `lastIndexOf` is -1 exactly when the character is absent; otherwise the character is at that index and nowhere after it |
| JsText.FilterChars | app/api/upload/route.ts:363 | `replace(/[^…]/g, '')` keeps exactly the characters of the class, and no others |
| JsText.DigitsOf | app/api/upload/route.ts:388 | removing `.` and `,` from separator text leaves only digits, and digit text unchanged |
| JsText.DigitsOfConcat | app/api/upload/route.ts:389 | removing separators works piece by piece |
| JsText.BeforeFirst | app/api/upload/route.ts:387 | `split(c)[0]` is the longest prefix without `c`, and `c` follows it if anything does |
| JsText.AfterFirst | app/api/upload/route.ts:387-389 | when `c` occurs, the text is `split(c)[0]`, then `c`, then the rest |
| JsText.AfterLast | app/api/upload/route.ts:377 | `split(c).pop()` is the suffix after the last `c` and holds no `c` |
| JsText.SplitAtFirst | app/api/upload/route.ts:387 | splitting `x c rest` at its first `c`, when `x` has none, gives `x` and `rest` |
| JsText.SplitAtLast | app/api/upload/route.ts:377 | the group after the last `c` of `x c tail` is `tail` when `tail` has no `c` |
| JsText.RemoveChar | app/api/upload/route.ts:365 | `replace(/-/g, '')` removes every `-` and keeps every other character |
| JsText.FilterCharsOfTrim | app/api/upload/route.ts:358-363 | when the class holds no white space, trimming first does not change the sanitised text |
| JsText.RemoveCharFilterChars | app/api/upload/route.ts:363-365 | removing a character and filtering commute |
| JsText.Split | fix_upload_process.ts:247 | `split(c)` returns at least one part and no part holds `c`; the first part is the text before the first `c`; one part exactly when `c` is absent |
| JsText.JoinSplit | fix_upload_process.ts:258-262 | `split(c).join('')` removes every `c` |
| JsText.SplitTail | fix_upload_process.ts:249 | `split(c).slice(1)` is the split of what follows the first `c` |
| JsText.FractionValue | app/api/upload/route.ts:395 | the value of the digits after a decimal point lies in [0, 1) and is 0 for none |
| JsText.DecimalValueConcat | app/api/upload/route.ts:395 | the value of concatenated digit strings is positional |
| JsText.ParseIntDigits | app/api/upload/route.ts:417-419 | `parseInt` of a digit string is its decimal value |
| JsText.ParseIntOfIntToString | components/OutletContributionSection.tsx:180-181 | `parseInt` reads back the text of any integer, negative ones included |
| JsText.IntToStringInjective | components/OutletContributionSection.tsx:172 | different integers have different texts |
| JsText.NatToString | components/OutletContributionSection.tsx:172 | the text of a natural number is digits that read back as it, with no leading zero |
| JsText.IntToString | components/OutletContributionSection.tsx:172 | the text of an integer starts with `-` exactly when it is negative |
| JsText.ParseFloatInteger | app/api/upload/route.ts:395 | `parseFloat` of digit text is its value |
| JsText.ParseFloatDecimal | app/api/upload/route.ts:395 | `parseFloat` of `int.frac` is the integer's value plus the fraction's |
| JsText.ParseFloatDecimalPrefix | fix_upload_process.ts:226 | `parseFloat` stops at a second `.`: it reads `int.frac` whatever non-digit, non-exponent text follows |
| JsText.ParseFloatNonNegative | fix_upload_process.ts:226 | `parseFloat` of text without `-` is never negative |
| JsText.ParseFloatOfEmpty | fix_upload_process.ts:270-273 | `parseFloat('')` is NaN |
| JsText.Round | app/api/upload/route.ts:447-450 | `Math.round(x)` is the integer within half a unit of `x`, halves going up |
| JsText.ToFixed1 | lib/utils.ts:50 | `toFixed(1)` text is non-empty, never starts with `+`, and starts with `-` exactly for negative values |
| Calendar.MakeDate | app/api/upload/route.ts:331 | `new Date(y, m, d)` with in-range parts is that date, and it always yields a valid date |
| Calendar.CarryForward | app/api/upload/route.ts:331 | a day past the end of the month carries into later months; an in-range day is kept |
| Calendar.SetFullYearKeepsMonthAndDay | fix_upload_process.ts:33 | `setFullYear` keeps month and day unless the date is 29 February |
| Calendar.SetFullYearLeapDay | fix_upload_process.ts:75 | `setFullYear` moves 29 February into a common year onto 1 March |
| Calendar.DayZeroIsPreviousMonthEnd | app/api/upload/route.ts:331 | day 0 is the last day of the previous month, of December of the previous year for January |
| Calendar.NewDateCarriesDays | app/api/upload/route.ts:342 | `new Date(2024, 1, 31)` is 2 March 2024: a D/M/Y or Y/M/D match with a day too large is not rejected |
| Calendar.NewDateTwoDigitYear | app/api/upload/route.ts:331 | `new Date` reads a year from 0 to 99 as 1900 + year |
| Cells.Or | app/api/upload/route.ts:422 | `a \|\| b` is truthy exactly when `a` or `b` is |
| Cells.Either | app/api/upload/route.ts:438-446 | `row[k1] \|\| row[k2] \|\| ''` is truthy exactly when one of the two cells is, and `''` otherwise |
| Cells.Field | app/api/upload/route.ts:441 | `row[k] \|\| ''` is truthy exactly when the cell is, and `''` otherwise |
| Collections.Where | components/OutletContributionSection.tsx:145 | `filter` keeps exactly the elements that satisfy the predicate |
| Collections.WhereIndices | components/OutletContributionSection.tsx:145 | the kept positions are increasing and are exactly the positions whose element satisfies the predicate |
| Collections.WhereIsSubsequence | components/OutletContributionSection.tsx:145-159 | `filter` keeps order: its k-th element is the element at the k-th kept position |
| Collections.WhereConcat | app/api/areas/route.ts:79 | filtering a concatenation filters each part |
| Collections.IntLessIsStrictTotalOrder | lib/database.ts:98 | the comparator `(a, b) => a - b` orders numbers strictly and totally |
| Collections.TextLessIsStrictTotalOrder | components/OutletContributionSection.tsx:69 | the default `sort` order of text is a strict total order |
| Collections.HasLargest | lib/database.ts:98 | every non-empty set has a largest element under a strict total order |
| Collections.SortedSet | lib/database.ts:98 | `Array.from(set).sort(...)` has exactly the set's elements, once each, in strictly ascending order |
| Collections.AscendingIsDistinct | components/OutletContributionSection.tsx:69 | a strictly ascending list has no duplicates |
| Filtering.Keep | app/api/upload/route.ts:403-476 | the loop that pushes each row's record unless the row fails returns no more records than rows |
| Filtering.OkIndices | app/api/upload/route.ts:406-456 | the accepted positions are increasing and are exactly the rows that do not fail |
| Filtering.KeepIsSubsequence | app/api/upload/route.ts:406-456 | the k-th output is the result of the k-th accepted row |
| Filtering.KeepConcat | app/api/upload/route.ts:406-472 | processing a concatenation of batches processes each batch |
| Filtering.KeepMembers | app/api/upload/route.ts:455-456 | every output comes from the result of some input row |
| DateText.StripQuotes | app/api/upload/route.ts:304 | `replace(/^"\|"$/g, '')` drops at most one leading and one trailing quote, and nothing else |
| DateText.CollapseSpaces | app/api/upload/route.ts:311 | after `replace(/\s+/g, ' ')` every white space is a single space and no two spaces are adjacent; empty stays empty |
| DateText.LeadingWord | app/api/upload/route.ts:297 | the run of `\w` characters that starts the text is maximal |
| DateText.MapWordsSplits | app/api/upload/route.ts:314-317 | two pieces that do not meet inside a word are translated independently |
| DateText.WordBetweenBoundaries | app/api/upload/route.ts:297 | a whole word between non-word characters or the ends is replaced by its image, and the text around it is rewritten on its own |
| DateText.MapWordsKeeps | app/api/upload/route.ts:314-317 | a word rewrite that fixes letterless words leaves letterless text unchanged |
| DateText.TranslateMonthsKeepsNumbers | app/api/upload/route.ts:314-317 | text without ASCII letters, such as a numeric date, is not changed by the month translation |
| DateText.AugustSpellings | app/api/upload/route.ts:289 | `Agustus` becomes `august`, case-insensitively |
| DateText.AugustAbbreviations | app/api/upload/route.ts:289 | `AGU` and `ags` both become `aug` |
| DateText.Normalize | app/api/upload/route.ts:304-317 | the pre-processing fails exactly when the text without its outer quotes is blank |
| DateText.StripDayPrefixFromNonLetter | app/api/upload/route.ts:310 | text that does not start with a letter keeps no day-name prefix to strip |
| DateText.CollapseSpacesOfSpaceless | app/api/upload/route.ts:311 | text without white space is not changed by collapsing |
| DateText.NormalizeNumeric | app/api/upload/route.ts:304-317 | digits, dots and date separators, digit-delimited, pass the pre-processing unchanged |
| DateText.GroupThenSeparator | app/api/upload/route.ts:325 | a matched group is a run of the allowed number of digits followed by `/` or `-` |
| DateText.FinalGroup | app/api/upload/route.ts:325 | the last group is all the remaining text, a digit run of the allowed length, up to `$` |
| DateText.MatchDateParts | app/api/upload/route.ts:325 | the three captured groups are digit runs of the allowed lengths |
| DateText.MatchDatePartsShape | app/api/upload/route.ts:336 | a match is exactly the three groups joined by two date separators |
| DateText.MatchDatePartsOf | app/api/upload/route.ts:336 | three digit runs joined by date separators are matched and captured as themselves |
| DateText.DmyAndYmdExclusive | app/api/upload/route.ts:325-336 | no text matches both the D/M/Y and the Y/M/D pattern |
| DateText.DmyDate | app/api/upload/route.ts:327-331 | a two-digit year is read in the 2000s, the month is counted from 0, and an in-range day is kept |
| DateText.TwoDigitYear | app/api/upload/route.ts:328 | `20${yy}` is 2000 + yy |
| UploadRoute.DecimalSeparator | app/api/upload/route.ts:370-382 | the chosen decimal separator, if any, is `.` or `,` and occurs in the text |
| UploadRoute.Parts | app/api/upload/route.ts:386-393 | the integer part is never empty, and both parts are digits only |
| UploadRoute.UnsignedValue | app/api/upload/route.ts:384-395 | the unsigned value is never negative |
| UploadRoute.ParseFloatOfParts | app/api/upload/route.ts:390-395 | `parseFloat` reads the assembled `int` or `int.frac` text exactly as integer plus fraction, so it is never NaN |
| UploadRoute.UnsignedText | app/api/upload/route.ts:363-365 | the sanitised text without minus signs holds only digits, dots and commas |
| UploadRoute.ParseNumericText | app/api/upload/route.ts:358-400 | blank text reads 0; text without `-` reads a non-negative value |
| UploadRoute.MinusSurvivesTrim | app/api/upload/route.ts:364 | `negative` holds exactly when the raw text has a `-` anywhere |
| UploadRoute.ParseNumericValue | app/api/upload/route.ts:349-361 | a number cell is returned unchanged, a cell that is neither text nor number reads 0, blank text reads 0 |
| UploadRoute.NumericTextCases | app/api/upload/route.ts:358-400 | non-blank text reads as the unsigned value of its digits and separators, negated exactly when it has a `-` |
| UploadRoute.UnsignedTextUntrimmed | app/api/upload/route.ts:358-365 | trimming does not change the sanitised text |
| UploadRoute.UnsignedValueOfEmpty | app/api/upload/route.ts:392 | text with no digits or separators left reads 0 (`'' \|\| '0'`) |
| UploadRoute.MinusIgnoredByUnsignedText | app/api/upload/route.ts:364-365 | minus signs never reach the unsigned text |
| UploadRoute.BlankWithoutMinus | app/api/upload/route.ts:358-365 | text that is blank once its minus signs are gone sanitises to nothing |
| UploadRoute.MinusNegates | app/api/upload/route.ts:400 | a `-` anywhere negates the value the text has without its minus signs |
| UploadRoute.UnsignedTextAsIs | app/api/upload/route.ts:358-365 | text made only of digits and separators reads as its unsigned value |
| UploadRoute.FirstOccurrenceIsDecimal | app/api/upload/route.ts:384-395 | whichever separator is chosen, its first occurrence is the decimal point: the dots and commas before it are dropped from the integer part, those after it from the fraction |
| UploadRoute.LaterSeparatorIsDecimal | app/api/upload/route.ts:372-390 | with both separators and the later one occurring once, that one is the decimal point and the other separator is dropped |
| UploadRoute.ShortLastGroupIsDecimal | app/api/upload/route.ts:376-390 | with one separator, occurring once, before a last group of one or two digits, that separator is decimal |
| UploadRoute.LaterOfBothChosen | app/api/upload/route.ts:372-375 | with both separators, the one that occurs last is chosen as the decimal point |
| UploadRoute.ShortLastGroupChosen | app/api/upload/route.ts:376-382 | with one separator kind, however often it occurs, a last group of one or two characters makes it the decimal point |
| UploadRoute.LongLastGroupIsGrouping | app/api/upload/route.ts:376-393 | with one separator kind and a last group that is empty or longer than two, every separator is removed |
| UploadRoute.ParseSalesDate | app/api/upload/route.ts:299-346 | null for blank (also quoted-blank) text; null exactly when pre-processing fails or host, D/M/Y and Y/M/D all fail; the host's date when it succeeds |
| UploadRoute.DayFirstFallback | app/api/upload/route.ts:319-333 | when the host gives up on `dd/mm/yy(yy)`, the day comes first |
| UploadRoute.DmyAfterHost | app/api/upload/route.ts:324-333 | with the host failing, a D/M/Y match decides the date |
| UploadRoute.YearFirstFallback | app/api/upload/route.ts:335-344 | when host and D/M/Y give up on `yyyy/mm/dd`, the year comes first |
| UploadRoute.NumericDateText | app/api/upload/route.ts:304-317 | numeric dates pass the pre-processing unchanged |
| UploadRoute.OrOne | app/api/upload/route.ts:417 | `parseInt(...) \|\| 1` is never 0 and keeps any non-zero read |
| UploadRoute.WeekOf | app/api/upload/route.ts:414-420 | the row fails exactly when `Minggu` is truthy but not text (`startsWith` throws); the week is never 0; a missing week is 1 |
| UploadRoute.WeekFromLabel | app/api/upload/route.ts:416-417 | `W<n>` gives week n |
| UploadRoute.WeekFromNumber | app/api/upload/route.ts:418-419 | `<n>` gives week n |
| UploadRoute.WeekFiftyTwo | app/api/upload/route.ts:416-417 | `W52` gives week 52 |
| UploadRoute.ProcessRow | app/api/upload/route.ts:407-471 | a row is kept exactly when it is non-empty, its week does not throw, its date is text that parses, and product and customer are truthy; the record has that date and week |
| UploadRoute.ProcessSalesData | app/api/upload/route.ts:403-476 | the loop returns exactly the accepted rows' records, in input order |
| UploadRoute.KeptIsSubsequence | app/api/upload/route.ts:406-456 | the output is an order-preserving subsequence: the k-th record comes from the k-th accepted row |
| UploadRoute.KeptRecordsAreValid | app/api/upload/route.ts:455-456 | every stored record has a product, a customer and a non-zero week |
| UploadRoute.CsvKept | app/api/upload/route.ts:255-266 | the CSV filter keeps no more rows than it reads |
| UploadRoute.ProcessCsvRows | app/api/upload/route.ts:249-279 | the stream callback collects exactly the rows not skipped, in stream order |
| UploadRoute.CsvKeptMembers | app/api/upload/route.ts:256-264 | a row is kept exactly when it is non-empty and is not a lone `Grand Total` cell |
| UploadRoute.CsvKeptConcat | app/api/upload/route.ts:266 | the filter works chunk by chunk, in order |
| UploadRoute.SumOmzetConcat | app/api/upload/route.ts:125 | the total omzet of two batches is the sum of their totals |
| UploadRoute.KeptOmzetOfOneMore | app/api/upload/route.ts:125 | one more row adds its omzet when it is accepted, and nothing otherwise |
| UploadRoute.Post | app/api/upload/route.ts:35-188 | no file and a disallowed type answer 400; a read failure answers 500; no accepted row answers 400 before any write; otherwise the count, the total omzet and the first up to 5 records are returned |
| UploadRoute.IndonesianDecimal | app/api/upload/route.ts:372-375 | `1.234,56` reads 1234.56 |
| UploadRoute.EnglishDecimal | app/api/upload/route.ts:372-375 | `1,234.56` reads 1234.56 |
| UploadRoute.CommaDecimal | app/api/upload/route.ts:376-378 | `1234,56` reads 1234.56 |
| UploadRoute.ThreeGroups | app/api/upload/route.ts:376-393 | `a c b c ttt` with a three-digit last group reads as the digits `abttt` |
| UploadRoute.DotThousands | app/api/upload/route.ts:379-381 | `1.500.000` reads 1500000 |
| UploadRoute.CommaThousands | app/api/upload/route.ts:376-378 | `1,234,567` reads 1234567 |
| UploadRoute.MixedSeparatorsFirstComma | app/api/upload/route.ts:372-395 | `1,2.3,4` reads 1.234: the comma comes last, and the text splits at its first comma |
| UploadRoute.RepeatedCommaFirstIsDecimal | app/api/upload/route.ts:376-395 | `1,234,56` reads 1.23456: the last group has two digits, and the text splits at the first comma |
| UploadRoute.DayFirstExample | app/api/upload/route.ts:324-333 | `15/08/2024`, when the host gives up, is 15 August 2024 |
| UploadRoute.TwoDigitYearExample | app/api/upload/route.ts:328 | `15-08-24`, when the host gives up, is 15 August 2024 |
| FixUpload.CorrectYearForWeek | fix_upload_process.ts:6-21 | one year back exactly for week 52 in January, one year on exactly for week 1 in December, otherwise the date's year |
| FixUpload.CorrectionKeepsMonthAndDay | fix_upload_process.ts:31-34 | the correction changes the year only, and it changes the date exactly in the two cross-year cases |
| FixUpload.CorrectingTwiceMovesTwice | fix_upload_process.ts:74-75 | applying the correction a second time moves a January week-52 date back again, so it must run once per path |
| FixUpload.JsDate.constructor | fix_upload_process.ts:32 | `new Date(d)` is a fresh object holding the same date |
| FixUpload.JsDate.SetFullYear | fix_upload_process.ts:33 | `setFullYear` replaces the object's date by the date with the new year and the same month and day carried |
| FixUpload.ApplyCorrection | fix_upload_process.ts:74-75 | the parsed object is corrected in place |
| FixUpload.CorrectedDate | fix_upload_process.ts:24-40 | a falsy cell gives null; a `Date` cell gives its corrected copy; any other non-text cell gives null |
| FixUpload.CorrectedTextIsCorrectedRouteDate | fix_upload_process.ts:42-111 | a text date fails exactly when the route's parser fails, and otherwise is the route's date, corrected once |
| FixUpload.NormalizedAttempts | fix_upload_process.ts:72-111 | each of the three attempts is corrected and a failed D/M/Y date falls through to Y/M/D, as in the route |
| FixUpload.ParseSalesDateWithCorrection | fix_upload_process.ts:24-112 | null exactly when the specification gives none; otherwise a fresh `Date` with the corrected date, leaving the input untouched |
| FixUpload.OrZeroText | fix_upload_process.ts:248 | `x \|\| '0'` is never empty |
| FixUpload.ParseNumericFixedText | fix_upload_process.ts:219-275 | blank text reads 0; text without `-` never reads negative |
| FixUpload.FixedNumericTextCases | fix_upload_process.ts:219-275 | every non-blank text reads as the normalised value of its digits and separators, negated exactly when it has a `-`; the fast path gives the same value |
| FixUpload.FixedMinusNegates | fix_upload_process.ts:232-275 | a `-` anywhere negates the value the text has without its minus signs |
| FixUpload.PlainDecimalAsIs | fix_upload_process.ts:224-234 | digits-and-dots text has no `-`, is its own sanitised text, and is passed to `parseFloat` unchanged by the dot-only branch |
| FixUpload.NoMinusInFixedNormalized | fix_upload_process.ts:241-268 | normalisation adds no minus sign: it only rearranges pieces of the text and adds `0` or `.` |
| FixUpload.FixedUnsignedNonNegative | fix_upload_process.ts:241-275 | the normalised value of minus-free text is never negative |
| FixUpload.ParseNumericFixed | fix_upload_process.ts:210-222 | a number cell is returned unchanged, a cell that is neither text nor number reads 0, blank text reads 0 |
| FixUpload.FastPath | fix_upload_process.ts:224-230 | digits-and-dots text is read by `parseFloat` whenever that is finite |
| FixUpload.FastPathReadsFirstDot | fix_upload_process.ts:224-230 | `a.b.t` reads `a.b`: the second dot ends the number |
| FixUpload.TwoDotsArePlain | fix_upload_process.ts:224 | text of digits with two dots, such as `1.500.000`, matches `/^[\d.]+$/` and has no outer white space, so it takes the fast path |
| FixUpload.FixedTextAsIs | fix_upload_process.ts:224-234 | text with a comma skips the fast path and reaches the separator logic unchanged |
| FixUpload.LaterSeparatorAgrees | fix_upload_process.ts:241-256 | with both separators and digits after the later one, both versions read integer digits plus fraction |
| FixUpload.LaterSeparatorShape | fix_upload_process.ts:236-244 | text `x c f` whose `x` holds only the other separator has both separators, and `c` is the later one |
| FixUpload.RemoveOtherSeparator | fix_upload_process.ts:248 | in text where only the other separator occurs, removing it leaves exactly the digits |
| FixUpload.FixedLaterSeparator | fix_upload_process.ts:241-256 | with both separators, the later one splits the text, the other is dropped from the integer part and the rest is the fraction |
| FixUpload.IndonesianMillions | fix_upload_process.ts:246-250 | `1.234.567,89` reads 1234567.89 |
| FixUpload.DotGroupingDisagrees | fix_upload_process.ts:224-230 | for `a.b.ttt` the route reads the digits `abttt` while this version reads `a.b` |
| FixUpload.OnePointFiveMillion | fix_upload_process.ts:224-230 | `1.500.000` reads 1500000 in the route but 1.5 here |
| FixUpload.CommaGroupsDisagree | fix_upload_process.ts:257-263 | for `a,b,ff` the route reads `a.bff` while this version reads the digits `abff` |
| FixUpload.RouteCommaGroups | app/api/upload/route.ts:376-390 | the route reads `a,b,ff` (short last group) as `a.bff` |
| FixUpload.FixedCommaGroups | fix_upload_process.ts:257-263 | with more than two comma groups every comma is removed |
| FixUpload.CommaDecimalAgrees | fix_upload_process.ts:257-260 | one comma before one or two digits is decimal in both versions |
| FixUpload.FixedCommaDecimal | fix_upload_process.ts:257-260 | two comma groups with a second of at most two characters read as `int.frac` |
| FixUpload.AreaOf | fix_upload_process.ts:161 | `selectedArea \|\| null` is the area exactly when it is present and non-empty |
| FixUpload.ProcessRowFixed | fix_upload_process.ts:119-195 | a row is kept exactly when it is non-empty, its week does not throw, its (text or `Date`) date parses with correction, and product and customer are truthy |
| FixUpload.ProcessSalesDataFixed | fix_upload_process.ts:115-207 | the loop returns exactly the accepted rows' records, in input order |
| FixUpload.KeptFixedCarryArea | fix_upload_process.ts:161-171 | every record carries the selected area (none when absent or empty), a product, a customer and a non-zero week |
| FixUpload.KeptFixedIsSubsequence | fix_upload_process.ts:118-171 | the output is an order-preserving subsequence of the accepted rows |
| FixUpload.TextDateRowsAgree | fix_upload_process.ts:134-135 | a row with a text date is accepted by both pipelines or by neither, and this one stores the route's date corrected |
| FixUpload.NativeDateRows | fix_upload_process.ts:29-35 | a row with a `Date` cell is rejected by the route but accepted here whenever the other checks pass, with the corrected date |
| FixUpload.UnitsNotRounded | fix_upload_process.ts:149-166 | units are stored unrounded and `grand_total` is parsed as a number, unlike the route (2.5 units: 2.5 here, 3 there) |
| SalesAggregates.Select | lib/database.ts:177-179 | `filter` keeps only matching records, never more than there are |
| SalesAggregates.SelectSplitsTotal | lib/database.ts:177-181 | when a predicate is the disjoint union of two others, its total is the sum of theirs |
| SalesAggregates.QuarterTarget | lib/database.ts:182 | the target is 1.1 × actual for positive actual and 100000 otherwise |
| SalesAggregates.GenerateQuarterlyData | lib/database.ts:169-195 | four entries, the i-th being quarter i's figures |
| SalesAggregates.QuarterBounds | lib/database.ts:170-175 | the quarters are Q1–Q4 over weeks 1–13, 14–26, 27–39, 40–52 |
| SalesAggregates.QuartersCoverYear | lib/database.ts:173-181 | the four quarters' actual totals add up to the year's total over weeks 1–52 |
| SalesAggregates.QuarterVariance | lib/database.ts:182-190 | positive actuals always show -9.1 %; otherwise the target is 100000 and the variance is actual - 100000, rounded |
| SalesAggregates.StampOrder | lib/database.ts:237-246 | the timestamp orders dates chronologically |
| SalesAggregates.KeyIndex | lib/database.ts:232 | `has(key)` fails exactly when no entry has that (year, week); otherwise the found entry has it |
| SalesAggregates.AccumulateWeeks | lib/database.ts:219-244 | the loop builds the weekly totals of the specification, skipping weeks <= 0 |
| SalesAggregates.WeeklyTotalsConserve | lib/database.ts:219-244 | one entry per (year, week), and the totals add up to the omzet of the counted records |
| SalesAggregates.AddRecordConserves | lib/database.ts:232-243 | adding a record keeps keys distinct and raises the sum of totals by its omzet |
| SalesAggregates.InsertByStamp | lib/database.ts:246 | insertion keeps the multiset and the timestamp order |
| SalesAggregates.SortByStamp | lib/database.ts:246 | the sort by timestamp is ordered and a permutation |
| SalesAggregates.GenerateL4WC4WData | lib/database.ts:200-277 | the method returns the specification's windows |
| SalesAggregates.WindowsAreLatest | lib/database.ts:246-269 | C4W is the mean of the four latest weeks; L4W is the mean of the four weeks before them from 8 weeks on, of the 1 to 3 weeks before them with 5 to 7 weeks, and 0 with exactly 4; with fewer than 4 weeks L4W, variance and percentage are 0 and C4W is the mean of all |
| SalesAggregates.WindowVariance | lib/database.ts:264-275 | from 4 weeks on, the variance is the rounded difference of the C4W and L4W means and has the sign of the change; the percentage is taken against a positive L4W mean only, with the sign of the change, and is 0 otherwise |
| SalesAggregates.RatioSign | lib/database.ts:275 | the percentage rounded to one decimal keeps the sign of the change over a positive base |
| SalesAggregates.YearFallback | lib/database.ts:210-217 | with no record of the current year, all records are used |
| SalesAggregates.YearOnYear | lib/database.ts:282-295 | the two totals are the rounded sums of each year's omzet |
| SalesAggregates.SameYearNoGrowth | lib/database.ts:288-294 | comparing a year with itself gives variance 0 and 0 % |
| SalesAggregates.TotalConcat | lib/database.ts:286 | the `reduce` total of two batches is the sum of their totals |
| SalesAggregates.SelectConcat | lib/database.ts:283 | filtering works batch by batch |
| SalesAggregates.YearTotalConcat | lib/database.ts:283-287 | a year's total over two batches is the sum over each |
| Dashboard.Years | lib/database.ts:85-90 | the year set holds exactly the years of the records |
| Dashboard.GroupLookup | lib/database.ts:84-96 | each (year, week) group holds exactly that key's records, in input order; a key is present exactly when it has records |
| Dashboard.GroupRecords | lib/database.ts:84-96 | the `forEach` builds exactly that grouping and that year set |
| Dashboard.RecordYears | lib/database.ts:98 | the sorted years are the distinct years, ascending |
| Dashboard.TopTwoYears | lib/database.ts:98-100 | with more than one year, the second-to-last sorted year is a year of some record, and some record has a later year, which is the latest |
| Dashboard.CurrentYearIsLatest | lib/database.ts:99 | without `year2`, the current year is the latest year present |
| Dashboard.PreviousYearIsSecondLatest | lib/database.ts:100 | without `year1`, the previous year is the second-latest year present, or the current one when there is only one |
| Dashboard.ChosenYears | lib/database.ts:98-100 | the years the method picks are the specification's |
| Dashboard.CompareWeeks | lib/database.ts:106-145 | the 52-week loop builds exactly the specification's weekly entries and comparisons |
| Dashboard.ComparisonsOfEachWeek | lib/database.ts:111-126 | there is one comparison per week 1..52 where either year sold, none for other weeks, in ascending week order |
| Dashboard.EntriesOfEachWeek | lib/database.ts:128-144 | each week 1..52 lists its current-year entry and then its previous-year entry, each only when positive, with a 1.1 × forecast |
| Dashboard.ComparisonSigns | lib/database.ts:118-125 | variance is current - previous; the percentage is 0 without previous sales and otherwise has the sign of the change |
| Dashboard.OneYearListedTwice | lib/database.ts:128-144 | when both compared years are the same year, each selling week is listed twice and compared as 0 % |
| Dashboard.SalesOfRecords | lib/database.ts:112-116 | a week's sales in a year are the total omzet of that (year, week)'s records |
| Dashboard.EmptyQuarterlyData | lib/database.ts:299-307 | four zero quarters named Q1–Q4 |
| Dashboard.ProcessSalesRecords | lib/database.ts:68-164 | the method returns the specification's dashboard data |
| Dashboard.SalesDataOfRecords | lib/database.ts:148-163 | with records, the parts are computed for the chosen years |
| Dashboard.NoRecords | lib/database.ts:69-81 | no records give empty weekly and comparison lists, null years, four zero quarters (while a real year with no records would get target 100000), and zero L4W and YoY |
| Dashboard.ComparisonsOfRecords | lib/database.ts:111-126 | every comparison row is a week 1..52 where one of the two chosen years sold, holding those years' totals for that week |
| Dashboard.ComparisonAt | lib/database.ts:111-126 | every comparison row is in range, compared, and computed from that week's sales |
| OutletContribution.PresentValues | components/OutletContributionSection.tsx:62-67 | the set holds exactly the non-empty values present |
| OutletContribution.DistinctSorted | components/OutletContributionSection.tsx:57-94 | `outletTypes` and `categories` are the sorted options, and empty without data |
| OutletContribution.OptionsAreDistinctValues | components/OutletContributionSection.tsx:57-94 | the options are exactly the distinct non-empty values present, strictly ascending |
| OutletContribution.PresentValueOfMember | components/OutletContributionSection.tsx:63-66 | a present value of any item is in the set |
| OutletContribution.Products | components/OutletContributionSection.tsx:99-127 | `products` is the sorted options of the category-filtered items |
| OutletContribution.ProductsOfCategory | components/OutletContributionSection.tsx:108-124 | a product is listed exactly when some item has it and the selected category is `all` or that item's |
| OutletContribution.FilteredData | components/OutletContributionSection.tsx:140-159 | an item is kept exactly when each of the three filters is `all` or equals its field; no data gives none |
| OutletContribution.FilteredInOrder | components/OutletContributionSection.tsx:145-159 | the filter keeps order: an order-preserving subsequence of exactly the matching items |
| OutletContribution.AllSelectedKeepsAll | components/OutletContributionSection.tsx:145-149 | with every filter `all`, all items are kept |
| OutletContribution.PartitionSum | components/OutletContributionSection.tsx:171-176 | summing per key over keys that cover every item gives the sum over all items |
| OutletContribution.WeekLabelReadsBack | components/OutletContributionSection.tsx:172-182 | `W${week}` keys weeks one to one and `parseInt(label.replace('W', ''))` reads the week back |
| OutletContribution.WeekTotalsLookup | components/OutletContributionSection.tsx:169-176 | each week present has the sum of its items' DOZ Net, missing values as 0 |
| OutletContribution.WeeklyContributions | components/OutletContributionSection.tsx:168-184 | the `forEach` and the sort give exactly the specification's contributions |
| OutletContribution.ContributionsPerWeek | components/OutletContributionSection.tsx:168-184 | one entry per distinct week, ascending by week number, with that week's sum |
| OutletContribution.TotalIsSumOfItems | components/OutletContributionSection.tsx:189-191 | `totalDozNet` equals the sum of DOZ Net over the filtered items |
| OutletContribution.ChartData | components/OutletContributionSection.tsx:196-202 | one point per week entry with its label and value |
| OutletContribution.SharesAddUp | components/OutletContributionSection.tsx:196-202 | with a positive total the shares add up to 100; otherwise every share is 0 |
| OutletContribution.TypeNames | components/OutletContributionSection.tsx:207-216 | the slice names are distinct and are exactly the items' types, `Unknown` for a missing one |
| OutletContribution.TypeTotalsLookup | components/OutletContributionSection.tsx:207-214 | each type's value is the sum of its items' DOZ Net |
| OutletContribution.PieData | components/OutletContributionSection.tsx:207-221 | the `forEach` gives exactly the specification's slices, in first-seen order |
| OutletContribution.PieSlicesAddUp | components/OutletContributionSection.tsx:207-221 | the slice values add up to the same total as the weekly entries |
| OutletContribution.BestIsFirstLargest | components/OutletContributionSection.tsx:231-234 | the best week is the first strictly largest entry, or the placeholder `W1`/0 when none is positive |
| OutletContribution.WorstIsFirstSmallest | components/OutletContributionSection.tsx:236-239 | the worst week is the first smallest entry, and the Infinity seed exactly when there are no weeks |
| OutletContribution.MetricsOf | components/OutletContributionSection.tsx:226-248 | the week count is the number of entries; the average is 0 with no weeks and total / count otherwise |
| OutletContribution.StatusMonotone | components/OutletContributionSection.tsx:509-516 | Tinggi from 5 %, Sedang from 2 %, Rendah below; a larger share never gets a lower status |
| Areas.DefaultAreasWellFormed | lib/areaConfig.ts:19-75 | five default areas with pairwise-distinct ids, each with four positive quarterly targets |
| Areas.GetAllAreas | lib/areaConfig.ts:78-80 | returns its argument unchanged |
| Areas.GetAreaByIdFindsFirst | lib/areaConfig.ts:83-85 | null exactly when no area has the id; otherwise the first area that has it |
| Areas.DefaultArgumentCalls | lib/areaConfig.ts:78-85 | without a list argument the default table is used: `getAllAreas()` returns it, and `getAreaById(id)` finds each default area under its own id and nothing for any other id |
| Areas.SomeHasIdIff | app/api/areas/route.ts:66 | `some` holds exactly when some area has the id |
| Areas.ReplaceByIdInPlace | app/api/areas/route.ts:76 | `update` keeps length and order, replaces every area with the id, and leaves the others in place |
| Areas.RemoveByIdKeepsOthers | app/api/areas/route.ts:79 | `delete` keeps exactly the areas with other ids, in their original order |
| Areas.Post | app/api/areas/route.ts:57-91 | a success saves the returned list and counts it; a failure saves nothing |
| Areas.AddArea | app/api/areas/route.ts:64-73 | a duplicate id answers 400 without saving; a fresh id is appended after the unchanged list |
| Areas.UnknownActionKeepsList | app/api/areas/route.ts:62-91 | any other action saves and returns the list unchanged |
| Formatting.VarianceColor | lib/utils.ts:58-62 | green exactly for positive, red exactly for negative, gray exactly for 0 |
| Formatting.VarianceBgColor | lib/utils.ts:69-73 | the same three-way split for the background classes |
| Formatting.ColoursFollowSign | lib/utils.ts:58-73 | two values get the same class exactly when they have the same sign |
| Formatting.FormatPercentage | lib/utils.ts:48-51 | `0%` for undefined; always ends with `%`; starts with `+` exactly for positive and `-` exactly for negative values |
| Formatting.FormatCurrency | lib/utils.ts:24-32 | `Rp 0` for undefined; otherwise the formatter's text |

## Left out

- The database. This covers the pg pool, the `BEGIN`/`COMMIT`/`ROLLBACK` transaction and the inserts in `POST /api/upload`, `fetchSalesData`, and the other API routes and scripts. `UploadRoute.Post` takes the file id the insert returns as a parameter, `None` when the transaction fails.
- File and stream I/O. This covers the temporary file, ExcelJS and csv-parser. `UploadRoute.Post` receives the parsed rows, or `None` when reading fails. The Excel path passes its rows on without the CSV filter, and the model keeps that difference.
- The host's `new Date(string)` is a parameter. Nothing is assumed about it. V8 reads an ambiguous `01/02/2024` month-first before the D/M/Y fallback is reached, so the day-first lemmas require the host to have failed.
- Floating point. Amounts are exact reals, so binary rounding of `parseFloat`, of `1.1 ×` and of percentages is not modelled. A number cell holds a finite real, so NaN and Infinity cells (which read 0) are not represented. `parseFloat` overflowing to Infinity on a huge digit string is not modelled either.
- Time of day and time zones. A date is (year, month, day) and its timestamp is a chronological key. Stored records always carry a valid date, so the skip for an invalid date in the L4W loop never applies.
- `record.year`. `processSalesRecords` writes it onto each input record (the mutation at lib/database.ts:89). The model reads it as the year of the record's date and does not model the mutation of caller-owned objects.
- Dashboard.GroupRecords: the map key is the pair (year, week) rather than the text `${year}-${week}`. The two differ only if two different pairs could print the same text, which integer weeks do not.
- Collections.TextLess: it compares characters. JavaScript's default sort compares UTF-16 code units, and the two differ only for characters outside the Basic Multilingual Plane.
- OutletContribution: the shape of an outlet item (`outletType`, `category`, `product`, `week`, `dozNet`) is inferred from its uses, because its type definition is not part of this model. How the panel gets its data is not modelled either.
- SalesAggregates.SortByStamp: its contract states an ordered permutation. It does not state the stability of `Array.prototype.sort`, although the insertion it is built from keeps equal timestamps in map order.
- Areas: reading and writing `areas.json`, the fallback to the defaults on a read error, and `GET` are I/O. A `POST` body without `area` makes `area.id` throw, which becomes the 500 answer; that is not modelled.
- Formatting.FormatCurrency: `Intl.NumberFormat('id-ID', …)` is a parameter. Only the undefined case is stated.
- Rows are maps from header to cell, so the key order of `Object.keys` and a `null` row are not represented. Only the number of keys matters to the source.
- The only exceptions modelled in the row loops are those the code itself raises on a non-text cell: `startsWith` on `Minggu` and `replace` on the date. Both skip the row.
- Logging (`console.*`), all rendering, the React state hooks, and `data/mockData.ts`, whose output comes from `Math.random`.
