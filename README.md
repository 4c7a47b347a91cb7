# Weather toy: generator and analyser, modelled in Dafny

The repository is a small JavaFX application with two controllers. The
splash-screen controller (`slashScreenController`) writes a synthetic year of
New York weather to a CSV-like text file: for each month of a randomly chosen
year it appends one line `year-month-day,temperature,humidity,rained` per day,
each followed by an empty line. The daily values are sampled from a per-month
climate table whose bounds drift over the month. The analytics controller
(`weatherAnalyticsController`) reads the file back. It keeps the lines of the
month under its cursor, decodes their temperature, humidity and rain fields, and
counts the rainy days. It then averages the temperatures and classifies the month
as cold, warm or hot. Its "next" and "previous" buttons move the cursor one month
at a time around the year.

The model has six modules:

- `Wrappers`: `Option` and `Result`.
- `JavaText`: the pieces of the Java platform the core relies on, written out. `JavaDiv` and `JavaRem` are `/` and `%`, `IntToString` is `Integer.toString`, `ParseInt` is `Integer.parseInt`, `Split` is `String.split`, `Lines` is `BufferedReader.lines()` and `IsBlank` is `String.isBlank`.
  - `int` range, and `/` and `%`, which truncate toward zero.
  - `Integer.toString` and `Integer.parseInt`.
  - `String.split` with a one-character delimiter, which drops trailing empty strings.
  - `BufferedReader.lines()`, which breaks lines at `\n`, `\r` and `\r\n`.
  - `String.isBlank`.
- `Calendar`: the `Months` enum with its cyclic `next` and `previous`, `isLeapYear`, and the days-per-month schedule of `fillMonths`. `Next` is `next`, `Previous` is `previous`, `IsLeapYear` is `isLeapYear`, and `DaysIn` is the switch in `fillMonths` that picks a month's day count.
- `Generator`: the climate table, the day generator and the text line of a day. `ClimateOf` is the climate switch of `fillDays`, `GenerateDay` is the body of its day loop, `RecordText` is the line it writes, and `YearOf` is the year drawn in `fillMonths`.
  - `SplashController` is a class with `GenerateFile`, `RedoFile`, `FillMonths` and `FillDays`. They append to a `DataFile` object (`onDisk`, `content`).
  - Each method is proved against the text it must leave in the file.
- `Analytics`: the load pipeline of `loadWeatherData` and `filterDayByDay`, the summary of `loadMonth`, and the `AnalyticsController` class. `LineMonth` is the month filter of `loadWeatherData`, `SelectMonth` and `LoadWeatherData` are its whole stream, `FilterDayByDay` is `filterDayByDay`, `Classify` is the status test of `loadMonth`, and `SummarizeAsWritten` is its summary as written.
  - `LoadMonth` sums in a loop, proved against `RainyDays` and `TotalTemperature`.
  - `LoadFile`, `GoNextMonth` and `GoPreviousMonth` move the cursor.
- `RoundTrip`: writer against reader. Loading the generated file for month m succeeds and yields exactly the days generated for m, in day order, with their values.

Randomness is a parameter:

- A `Draw` holds the raw values one day consumes.
- `Sample(origin, bound, raw)` stands in for `Random.nextInt(origin, bound)`: it gives a value of `[origin, bound)`, and every value of that interval is reachable (`SampleReaches`).
- The rain draw is a real compared with the month's chance.
- The year draw is mapped by `YearOf` into 2000..2025.

The file is a `DataFile` object whose text the writer appends to and the reader reads.

Points where the code's behaviour is easy to misread, all modelled as written:

- **Empty month.** The code divides by zero, gets NaN and reports "hot". The model keeps that as `SummarizeAsWritten` and also gives a guarded summary, `Summarize`, that fails with `EmptyMonth`; see Findings.
- **Malformed lines.** Only two kinds of line abort the load:
  - a non-blank line whose second `-` field does not parse;
  - a line of the selected month whose comma fields 1–3 are missing or do not parse.

  Lines of other months are never decoded past their month. Extra fields are ignored.
- **Rain flag.** A record counts as rainy only when its field is exactly `1`.
- **Absent humidity.** In months without humidity data the writer writes 0, and the reader reads back 0. Nothing marks these months as untracked.

## Model

| member | source | states |
|---|---|---|
| JavaText.JavaDiv | src/main/java/com/example/module04assignment/slashScreenController.java:339 | Java's int `/` by a positive divisor truncates: the remainder lies in [0, b) for a non-negative dividend and in (-b, 0] for a negative one |
| JavaText.TruncationExamples | src/main/java/com/example/module04assignment/slashScreenController.java:339 | -1/3 is 0 and -22/3 is -7 in Java, where Euclidean division gives -1 and -8 |
| JavaText.JavaRemZero | src/main/java/com/example/module04assignment/slashScreenController.java:153 | Java's `%` is zero exactly when the mathematical remainder is, so divisibility tests mean the same for negative numbers |
| JavaText.NatToStringDigits | src/main/java/com/example/module04assignment/slashScreenController.java:346 | the decimal form of a natural number is a non-empty run of digits without a leading zero |
| JavaText.IntToStringShape | src/main/java/com/example/module04assignment/slashScreenController.java:346 | every number written by string concatenation is digits, ends with a digit, and starts with '-' exactly when it is negative |
| JavaText.ParseInt | src/main/java/com/example/module04assignment/weatherAnalyticsController.java:88 | a successful `parseInt` yields a value in the 32-bit int range |
| JavaText.NatToStringValue | src/main/java/com/example/module04assignment/weatherAnalyticsController.java:98-100 | the decimal digits of n have value n |
| JavaText.ParseIntToString | src/main/java/com/example/module04assignment/weatherAnalyticsController.java:98-100 | `parseInt(toString(n)) == n` for every int n, negative ones included |
| JavaText.ParseIntRejects | src/main/java/com/example/module04assignment/weatherAnalyticsController.java:88 | the empty string, a lone sign, `4a` and ` 4` do not parse (the call throws) |
| JavaText.ParseIntDigitsOnly | src/main/java/com/example/module04assignment/weatherAnalyticsController.java:88 | whatever parses is a non-empty string of digits with at most one leading sign followed by a digit; a string with any other character throws |
| JavaText.ParseIntAcceptsDigits | src/main/java/com/example/module04assignment/weatherAnalyticsController.java:88 | an unsigned run of digits whose value fits in an int parses to that value |
| JavaText.SplitAll | src/main/java/com/example/module04assignment/weatherAnalyticsController.java:87 | the pieces between delimiters number at least one and contain no delimiter |
| JavaText.JoinSplitAll | src/main/java/com/example/module04assignment/weatherAnalyticsController.java:87 | joining the pieces with the delimiter restores the string: splitting loses nothing |
| JavaText.DropTrailingEmpty | src/main/java/com/example/module04assignment/weatherAnalyticsController.java:97 | `split` keeps a prefix of the pieces that ends in a non-empty piece; only empty pieces are dropped |
| JavaText.SplitAllNoDelimiter | src/main/java/com/example/module04assignment/weatherAnalyticsController.java:87 | a string without the delimiter splits into itself |
| JavaText.SplitAllField | src/main/java/com/example/module04assignment/weatherAnalyticsController.java:87 | a delimiter-free leading field is split off as the first piece |
| JavaText.SplitAllLastNonEmpty | src/main/java/com/example/module04assignment/weatherAnalyticsController.java:97 | a string not ending in the delimiter has a non-empty last piece, so `split` drops nothing |
| JavaText.BreakIndexIsFirstBreak | src/main/java/com/example/module04assignment/weatherAnalyticsController.java:85 | the reader ends a line at the first `\n` or `\r` |
| JavaText.BreakIndexUnique | src/main/java/com/example/module04assignment/weatherAnalyticsController.java:85 | that position is the only one with a break and no break before it |
| JavaText.NextLineStart | src/main/java/com/example/module04assignment/weatherAnalyticsController.java:85 | after a terminator reading always advances and stays within the text |
| JavaText.LinesOfLineThen | src/main/java/com/example/module04assignment/weatherAnalyticsController.java:85 | a break-free line ended by `\n` reads back as that line followed by the lines of the rest |
| JavaText.LinesOfLineThenCrLf | src/main/java/com/example/module04assignment/weatherAnalyticsController.java:85 | `\r\n` ends a line as one terminator: the line, then the lines of the rest, with no empty line between |
| JavaText.LinesOfLineThenCr | src/main/java/com/example/module04assignment/weatherAnalyticsController.java:85 | a lone `\r` not followed by `\n` ends a line |
| JavaText.LinesFinalTerminator | src/main/java/com/example/module04assignment/weatherAnalyticsController.java:85 | a terminator at the end of the text adds no empty last line |
| Calendar.FromOrdinal | src/main/java/com/example/module04assignment/slashScreenController.java:143 | `Months.values()[o]` is the month of ordinal o |
| Calendar.OrdinalInjective | src/main/java/com/example/module04assignment/slashScreenController.java:128-140 | two months have the same ordinal exactly when they are the same month |
| Calendar.CursorWraps | src/main/java/com/example/module04assignment/slashScreenController.java:142-148 | `December.next()` is January and `January.previous()` is December |
| Calendar.NextPreviousInverse | src/main/java/com/example/module04assignment/slashScreenController.java:142-148 | `previous(next(m)) == m` and `next(previous(m)) == m` for every month |
| Calendar.NextTimesOrdinal | src/main/java/com/example/module04assignment/slashScreenController.java:142-144 | k presses of next advance the ordinal by k modulo 12 |
| Calendar.PreviousTimesOrdinal | src/main/java/com/example/module04assignment/slashScreenController.java:146-148 | k presses of previous move the ordinal back by k modulo 12 |
| Calendar.NextTimesCycle | src/main/java/com/example/module04assignment/slashScreenController.java:142-144 | k presses of next return to the start month if and only if 12 divides k |
| Calendar.LeapYearIsGregorian | src/main/java/com/example/module04assignment/slashScreenController.java:152-157 | `isLeapYear(y)` holds iff y is divisible by 4 and either not by 100 or by 400, negative years included |
| Calendar.LeapYearExamples | src/main/java/com/example/module04assignment/slashScreenController.java:152-157 | 2000 and 2024 are leap years, 1900 and 2023 are not |
| Calendar.LeapYearPeriodic | src/main/java/com/example/module04assignment/slashScreenController.java:152-157 | the rule repeats every 400 years |
| Calendar.DaysIn | src/main/java/com/example/module04assignment/slashScreenController.java:163-182 | every month gets 28 to 31 days; 29 iff February of a leap year, 28 iff February otherwise, 30 iff April, June, September or November |
| Calendar.YearLength | src/main/java/com/example/module04assignment/slashScreenController.java:160-184 | the schedule totals 366 days in a leap year and 365 otherwise |
| Generator.ClimateOf | src/main/java/com/example/module04assignment/slashScreenController.java:236-335 | after the bump every sampled interval of the table is non-empty (so `nextInt` never throws) and every chance of rain is strictly between 0 and 1 |
| Generator.HumidityTrackedMonths | src/main/java/com/example/module04assignment/slashScreenController.java:340-343 | humidity is sampled exactly in May to October; the other six months keep both bounds at 0 |
| Generator.PhaseBuckets | src/main/java/com/example/module04assignment/slashScreenController.java:339 | the phase `i / 10` is 0 on days 1-9, 1 on 10-19, 2 on 20-29 and 3 on days 30-31 |
| Generator.JanuaryDriftVanishes | src/main/java/com/example/module04assignment/slashScreenController.java:339 | January's drift -1 never moves its bounds because -1/3 truncates to 0, where Euclidean division would give a negative shift |
| Generator.OffsetBounds | src/main/java/com/example/module04assignment/slashScreenController.java:339 | the drift shift of a day lies between 0 and three steps of `drift / 3` |
| Generator.Sample | src/main/java/com/example/module04assignment/slashScreenController.java:339 | a sampled value lies in the half-open interval [origin, bound) |
| Generator.SampleReaches | src/main/java/com/example/module04assignment/slashScreenController.java:339 | every value of [origin, bound) is the sample of some draw |
| Generator.GeneratedDayFields | src/main/java/com/example/module04assignment/slashScreenController.java:336-346 | day i's record carries the year, month ordinal + 1 and i, a temperature in [low + off, high + 1 + off), a humidity that is 0 in untracked months and in its interval otherwise, and rain 1 iff the chance exceeds the draw, else 0 |
| Generator.TemperatureRange | src/main/java/com/example/module04assignment/slashScreenController.java:339 | the temperatures that can be generated for a day are exactly the integers of its interval |
| Generator.HumidityRange | src/main/java/com/example/module04assignment/slashScreenController.java:343 | in a tracked month the humidities that can be generated are exactly the integers of the day's interval |
| Generator.SeptemberHumidityCanBeNegative | src/main/java/com/example/module04assignment/slashScreenController.java:297-305 | September day 30 has humidity lower bound 11 - 7*3 = -10, and -10 is generated and written |
| Generator.GeneratedDayBounds | src/main/java/com/example/module04assignment/slashScreenController.java:236-343 | on days 1 to 31 of any month temperatures stay in [28, 84] and humidities in [-10, 69] |
| Generator.RecordTextSpelledOut | src/main/java/com/example/module04assignment/slashScreenController.java:346 | the line of a record is `year-month-day,temperature,humidity,rain`, each number in decimal |
| Generator.SerializeAppend | src/main/java/com/example/module04assignment/slashScreenController.java:330-346 | appending two runs of records writes their texts one after the other |
| Generator.MonthRecordsContents | src/main/java/com/example/module04assignment/slashScreenController.java:336-346 | a month of n days holds n records, day k + 1 at index k, each generated from that day's draw |
| Generator.MonthTextSerialize | src/main/java/com/example/module04assignment/slashScreenController.java:336-346 | the text written for a month is the lines of its records, each followed by an empty line |
| Generator.MonthsRecordsStep | src/main/java/com/example/module04assignment/slashScreenController.java:162-183 | appending month k + 1 after the first k months gives the first k + 1 months, in calendar order |
| Generator.MonthsRecordsLength | src/main/java/com/example/module04assignment/slashScreenController.java:160-184 | the first k months hold as many records as the schedule has days in them |
| Generator.YearRecordCount | src/main/java/com/example/module04assignment/slashScreenController.java:160-184 | a generated year holds 366 records in a leap year and 365 otherwise |
| Generator.YearOf | src/main/java/com/example/module04assignment/slashScreenController.java:161 | the chosen year lies in 2000..2025 |
| Generator.SplashController.GenerateFile | src/main/java/com/example/module04assignment/slashScreenController.java:97-114 | an existing file is left byte for byte as it was and the call reports it; otherwise the file is created and holds exactly a generated year |
| Generator.SplashController.RedoFile | src/main/java/com/example/module04assignment/slashScreenController.java:117-125 | the file is emptied and then holds exactly a freshly generated year |
| Generator.SplashController.FillMonths | src/main/java/com/example/module04assignment/slashScreenController.java:160-184 | the year is drawn and the file gains exactly that year's records, January to December |
| Generator.SplashController.RollDay | src/main/java/com/example/module04assignment/slashScreenController.java:337-345 | one pass of the loop computes the generated day for day i from the month's bumped bounds |
| Generator.SplashController.WriteDay | src/main/java/com/example/module04assignment/slashScreenController.java:346 | one write appends day i's line and the empty line after the days written before |
| Generator.SplashController.FillDays | src/main/java/com/example/module04assignment/slashScreenController.java:227-349 | the file gains exactly the lines of days 1 to `days` of the month in order, each followed by an empty line, and nothing else changes |
| Analytics.KeptMembers | src/main/java/com/example/module04assignment/weatherAnalyticsController.java:85-90 | the lines the filters keep are exactly the non-blank lines whose month field is the selected month |
| Analytics.SelectMonthStep | src/main/java/com/example/module04assignment/weatherAnalyticsController.java:85-92 | the first line either aborts the load with its text or contributes its decoded record when it is of the month |
| Analytics.SelectMonthSucceeds | src/main/java/com/example/module04assignment/weatherAnalyticsController.java:83-93 | the load succeeds if and only if no line of the file makes it throw |
| Analytics.SelectMonthRecords | src/main/java/com/example/module04assignment/weatherAnalyticsController.java:85-92 | a successful load has one record per kept line, in file order, each the decoding of its line |
| Analytics.SelectMonthFailure | src/main/java/com/example/module04assignment/weatherAnalyticsController.java:87-100 | a failed load names the first line that throws, and no earlier line throws |
| Analytics.NonNumericFieldAborts | src/main/java/com/example/module04assignment/weatherAnalyticsController.java:97-100 | a non-blank line of the selected month whose comma field 1, 2 or 3 does not parse makes the whole load fail |
| Analytics.RainyDaysCount | src/main/java/com/example/module04assignment/weatherAnalyticsController.java:107-114 | `numRained` is the number of records with `rained == 1`, at most the number of records |
| Analytics.ClassifyBySum | src/main/java/com/example/module04assignment/weatherAnalyticsController.java:116-123 | for n > 0 records, cold iff sum < 50n, warm iff 50n <= sum < 70n, hot iff 70n <= sum |
| Analytics.EmptyMonthReportedHot | src/main/java/com/example/module04assignment/weatherAnalyticsController.java:116-123 | as written, a month without records gets average NaN, 0 rainy days and status hot |
| Analytics.Summarize | src/main/java/com/example/module04assignment/weatherAnalyticsController.java:104-127 | fails with `EmptyMonth` iff there are no records; otherwise average times count equals the total temperature, rainy days are counted, and the status follows the total against 50 and 70 per day |
| Analytics.SummarizeAgrees | src/main/java/com/example/module04assignment/weatherAnalyticsController.java:104-127 | on a non-empty month the corrected summary is the one the code computes |
| Analytics.SummarizeExample | src/main/java/com/example/module04assignment/weatherAnalyticsController.java:104-127 | temperatures 40, 60, 80 with two rainy days give average 60, two rainy days, warm |
| Analytics.AnalyticsController.constructor | src/main/java/com/example/module04assignment/weatherAnalyticsController.java:68-70 | the cursor starts at January with no file selected |
| Analytics.AnalyticsController.LoadMonth | src/main/java/com/example/module04assignment/weatherAnalyticsController.java:104-127 | the loop's counters give the summary of the loaded month, or the load's failure |
| Analytics.AnalyticsController.LoadFile | src/main/java/com/example/module04assignment/weatherAnalyticsController.java:73-76 | the file becomes the selected one, the cursor stays, and the result is the summary of its current month |
| Analytics.AnalyticsController.GoNextMonth | src/main/java/com/example/module04assignment/weatherAnalyticsController.java:160-163 | the cursor moves to the next month, the file stays, and the result is the summary of the new month |
| Analytics.AnalyticsController.GoPreviousMonth | src/main/java/com/example/module04assignment/weatherAnalyticsController.java:167-170 | the cursor moves to the previous month, the file stays, and the result is the summary of the new month |
| RoundTrip.UnsignedText | src/main/java/com/example/module04assignment/slashScreenController.java:346 | a non-negative number is written with digits only, without `-` or `,` |
| RoundTrip.SignedText | src/main/java/com/example/module04assignment/slashScreenController.java:346 | any number is written without commas or line breaks and ends with a digit |
| RoundTrip.RecordLineShape | src/main/java/com/example/module04assignment/weatherAnalyticsController.java:85 | a written record line has no line break and is not blank |
| RoundTrip.RecordLineMonth | src/main/java/com/example/module04assignment/weatherAnalyticsController.java:87-89 | the second `-` field of a written line parses to the record's month |
| RoundTrip.RecordLineFields | src/main/java/com/example/module04assignment/weatherAnalyticsController.java:96-102 | `filterDayByDay` on a written line recovers its temperature, humidity (negative ones too) and rain |
| RoundTrip.LinesOfSerialize | src/main/java/com/example/module04assignment/weatherAnalyticsController.java:84-85 | reading a written file line by line gives each record's line followed by an empty line |
| RoundTrip.SelectLayout | src/main/java/com/example/module04assignment/weatherAnalyticsController.java:85-92 | on those lines the pipeline succeeds, drops the empty lines and keeps exactly the records of the month |
| RoundTrip.LoadSerialized | src/main/java/com/example/module04assignment/weatherAnalyticsController.java:83-93 | loading any written file for a month succeeds with the values of exactly that month's records, in file order |
| RoundTrip.YearMonthWeather | src/main/java/com/example/module04assignment/weatherAnalyticsController.java:86-90 | in a generated year the records of month m are the days generated for m |
| RoundTrip.YearLoads | src/main/java/com/example/module04assignment/weatherAnalyticsController.java:83-93 | loading a generated year for month m yields the filtered days of m |
| RoundTrip.MonthWeatherGenerated | src/main/java/com/example/module04assignment/weatherAnalyticsController.java:86-91 | all generated days of m pass the filter for m, one per day, in day order |
| RoundTrip.GeneratedMonthLoads | src/main/java/com/example/module04assignment/weatherAnalyticsController.java:83-93 | loading a generated year for month m succeeds with exactly as many records as m has days, day k + 1 at index k, with the generated temperature, humidity and rain |
| RoundTrip.GeneratedMonthSummary | src/main/java/com/example/module04assignment/weatherAnalyticsController.java:104-127 | summarising a month of a generated year never meets the empty month and counts at most one rainy day per day |

## Left out

- The JavaFX shell is not modelled:
  - `activateFiles`, `changeController` and `configureGUI`;
  - labels, images and the `FileChooser`;
  - the disabling of the generate button, which `GenerateFile` reports as `AlreadyExists` instead;
  - the `%.3f` formatting of the average.

  None of these computes anything the core depends on.
- Console output (`System.out.println`) is not modelled.
- `weatherDataAnalyzer.java`, the application launcher, is not part of this model; it holds no logic.
- File I/O is reduced to a `DataFile` object with an `onDisk` flag and a text:
  - `IOException`s during creation, writing and closing are not modelled;
  - the race between `exists` and `createNewFile` is not modelled;
  - an unreadable file becomes `NoFile`;
  - byte encoding is not modelled; text is a sequence of characters.
- Randomness is replaced by caller-supplied draws. The order in which one `Random` produces them, and their distribution, are not modelled.
- Floating point is modelled only in part:
  - the average is an exact rational (`real`), not a rounded `double`;
  - the classification is also proved on the integer sum (`ClassifyBySum`);
  - `Math.random()` and `chance_rain` are exact reals.
- `JavaText.ParseInt` accepts ASCII digits only. `Integer.parseInt` also accepts other Unicode decimal digits; no writer in this program produces them.
- Overflow is not modelled:
  - the counters and the day index are unbounded integers;
  - `RoundTrip.Printable` asks every written number to fit in an `int`, which generated records do for years 0..2^31-1.
- `RoundTrip.GeneratedMonthLoads`, `RoundTrip.GeneratedMonthSummary`, `RoundTrip.YearLoads`, `RoundTrip.YearMonthWeather` and `RoundTrip.YearBlockShape` require `0 <= year <= IntMax`. A negative year is written as `-2000-…`, which the reader splits into an empty first field, so the month field is lost. `fillMonths` only ever picks 2000..2025.
- `Generator.SplashController.FillDays` sets `onDisk` after its loop rather than when the writer opens the file. Nothing between the two reads it.
- `Generator.SplashController.FillDays`: the source repeats its climate switch twelve times over (`for month1`), always on `month`. The model performs the lookup once, which assigns the same values.
- `Analytics.AnalyticsController.LoadMonth`, `GoNextMonth` and `GoPreviousMonth` require a selected file. In the source, `selectedFile` is null until `loadFile` runs, and these calls would throw `NullPointerException`. The buttons only appear after `loadFile`.
- `Analytics.AnalyticsController.LoadMonth`, `LoadFile`, `GoNextMonth` and `GoPreviousMonth` summarise through the corrected `Summarize`: for a month with no records they report `Failure(EmptyMonth)`, where the code shows an average of NaN and the status "hot". The as-written result is `Analytics.SummarizeAsWritten`, and `Analytics.EmptyMonthReportedHot` proves it reports hot.

## Findings

| source | as written | input that shows it | evidently intended | confidence | as-written member | corrected member |
|---|---|---|---|---|---|---|
| src/main/java/com/example/module04assignment/weatherAnalyticsController.java:116-123 | `totalTemp / selectedMonth.size()` with no guard: an empty month gives 0.0/0.0 = NaN, both `<` tests fail and the status stays `hot` | a file with no line for the month under the cursor, e.g. an empty file | an empty month is reported as having no data, not as a hot month with average NaN | not executed | Analytics.EmptyMonthReportedHot | Analytics.Summarize |
