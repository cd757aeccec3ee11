# Bike-share trip reports, modelled in Dafny

The program reads Divvy bike-share trip archives into Spark and writes CSV
reports about them. This project models its report logic in `main.py` as pure
Dafny functions over a sequence of trip records, and proves what each report
contains:

- `average_trip_length`: the mean trip duration per start day;
- `number_of_trips_in_a_day`: the number of trips per start day;
- `best_start_station_per_month`: the busiest start station per month;
- `gender_average_trip_length`: the mean duration per gender, with the null
  gender dropped;
- `ages_by_trip_lengths`: the riders' ages for the ten longest and the ten
  shortest trips;
- `best_three_stations_in_two_weeks`: the three busiest start stations in the
  window that ends on the latest start date;
- `extract_source`: the source name that every report file is named after;
- `main`: the two runs, one per schema. The second schema has no gender or
  birth-year column, so it calls four reports instead of six.

Modules follow the program's structure:

- `Wrappers`: `Option` and `Result`.
- `Civil`: proleptic Gregorian dates, for years 1 to 9999 as in Python.
  - `Ordinal` is `date.toordinal()`.
  - `SubDays` is `date - timedelta(days=n)`; it fails when the result would fall before year 1.
  - `FormatDate` and `ParseDate` are `%Y-%m-%d` and its inverse.
- `Grouping`: `groupBy` with a key function.
  - Groups appear in the order their keys are first seen.
  - Each group holds exactly the rows with its key.
  - A null key forms a group of its own.
  - `CountBy` is `groupBy(...).count()`.
- `Sorting`: `orderBy(...).limit(k)` as a stable insertion sort followed by a prefix of length k.
- `Trips`: the trip record, the duration in minutes, and Spark's `mean`, which skips nulls and is null when nothing is left.
- `TripLength`, `TripsPerDay`, `BestStation`, `GenderLength`, `AgeExtremes`, `TwoWeekLeaders`: one module per report.
- `Source`: `extract_source`.
- `Pipeline`: the per-schema column choice and the order of the calls in `main`.
  - Every call evaluates `extract_source` first, so an empty relation raises before anything is written.
  - `main` has no exception handling, so the first call that raises ends the whole program.

Timestamps arrive already parsed. `None` stands for a value Spark would read
as null. A trip with a null start date is not dropped. It forms the null-day
group in the per-day reports and the null month in the per-month report. Its
null duration is skipped by `mean`.

A few behaviours of the code are worth stating outright:

- `main` catches nothing, so a failure in the first file's reports stops the
  program and the second file is never processed (`Pipeline.FirstFailureStops`).
- Rows whose start time cannot be parsed stay in the time-based aggregations.
  `groupBy` gives them a null day or month group of their own.
- The two-week window runs from `max_date - 14 days` to `max_date` with both
  ends included, so it covers 15 calendar days.
- The gender report groups before it drops nulls. `groupBy` forms a null gender
  group and `na.drop` removes its row (`GenderLength.DropNullGender`), so no
  null gender is reported.

## Model

| member | source | states |
|---|---|---|
| TripLength.AverageTripLength | main.py:33-38 | one row per distinct start day, including the null day; each trip's day is reported; each value is the mean of the durations of exactly that day's trips |
| TripLength.DayAverageIsMean | main.py:33-38 | a day's value is null iff none of its trips has a duration; otherwise it is the sum of those durations divided by their number |
| TripLength.AverageExample | main.py:33-38 | two trips of 10 and 20 minutes on one day give the single row (that day, 15) |
| TripsPerDay.NumberOfTripsInADay | main.py:42-46 | distinct days; every trip's day is reported; each count is the positive number of trips that start on that day |
| TripsPerDay.TripsPerDayTotal | main.py:42-46 | the daily counts add up to the number of input rows |
| TripsPerDay.TripsPerDayExample | main.py:42-46 | two trips on one day give the single row (that day, 2) |
| BestStation.FirstMax | main.py:56 | `max_by` picks an entry of the month's counts that no other count exceeds |
| BestStation.BestOf | main.py:56-57 | the row of one month group carries that group's month |
| BestStation.BestStartStationPerMonth | main.py:51-57 | one row per distinct (year, month) of the start times, every trip's month is reported |
| BestStation.BestIsMax | main.py:51-57 | the reported station has trips in that month and `trips` is its count, and no station has more trips that month |
| BestStation.BestExample | main.py:51-57 | stations A, B, A in January 2023 give the single row (2023-01, A, 2) |
| GenderLength.DropNullGender | main.py:67 | keeps exactly the rows of the groups whose gender is not null, and distinct groups give distinct rows |
| GenderLength.GenderAverageTripLength | main.py:62-67 | one row per distinct non-null gender, each row's gender is some trip's, each value is the mean duration of that gender's trips |
| GenderLength.GenderAverageIsMean | main.py:62-67 | a gender's value is null iff none of its trips has a duration, otherwise the sum of those durations over their number |
| GenderLength.NoGenderNoRows | main.py:66-67 | when no trip has a gender the report is empty: the null group is dropped |
| GenderLength.GenderExample | main.py:62-67 | M for 10 minutes, F for 20 and a null gender for 5 give exactly the rows M→10 and F→20 |
| AgeExtremes.Age | main.py:74 | the age is not null exactly when both the start time and the birth year are not null |
| AgeExtremes.AgedRows | main.py:75-76 | `na.drop` keeps one (age, duration) row per trip that has an age: the row count is the number of such trips, and each row occurs exactly as often as trips with that age and duration |
| AgeExtremes.LongestTrips | main.py:78-80 | min(10, n) rows taken from the aged rows, sorted by descending duration with nulls last, and no row left out is longer than a kept one |
| AgeExtremes.ShortestTrips | main.py:90-93 | min(10, n) rows taken from the aged rows, sorted by ascending duration with nulls first, and no row left out is shorter than a kept one |
| AgeExtremes.ExtractsComeFromTrips | main.py:71-93 | every row of both extracts is the age and duration of an input trip with an age |
| AgeExtremes.SmallInputKeepsAll | main.py:71-93 | with at most ten aged rows both extracts hold all of them |
| AgeExtremes.LongestHead | main.py:78-80 | the first longest row is at least as long as every aged trip with a duration |
| AgeExtremes.NullDurationFirst | main.py:90-93 | an aged trip with a null duration makes the first shortest row null |
| AgeExtremes.NegativeDurationKept | main.py:84-93 | when every aged trip has a duration, a trip that ends before it starts is not filtered out: the first shortest row is no longer than it, so negative |
| AgeExtremes.LongestAboveShortest | main.py:78-93 | when the two extracts take distinct aged rows (together they hold no row more often than the aged rows do), every duration among the longest is at least every duration among the shortest |
| TwoWeekLeaders.MaxDate | main.py:99 | the maximum is null iff every date is null, otherwise a date of the input that no date follows |
| TwoWeekLeaders.MaxStartDate | main.py:99 | the maximum of the start dates is the start date of some trip and the latest one |
| TwoWeekLeaders.NoStartDateIff | main.py:99-100 | the report raises for a null `max_date` iff no trip has a start date |
| TwoWeekLeaders.OutOfRangeIff | main.py:100 | the report raises for a date before year 1 iff the latest start date is among the first 14 days of the calendar |
| TwoWeekLeaders.Windowed | main.py:105 | the filter keeps exactly the trips whose start date is not null and not before the window start, each as often as it occurs in the input |
| TwoWeekLeaders.StationCounts | main.py:109-111 | distinct stations, each with its positive number of trips in the window, and every station with a trip in the window is counted |
| TwoWeekLeaders.BestThreeStationsInTwoWeeks | main.py:97-117 | the only failures are the null `max_date` and the date before year 1 |
| TwoWeekLeaders.WindowBounds | main.py:99-103 | the window ends on the latest start date and begins exactly 14 days earlier |
| TwoWeekLeaders.CountedTripsInWindow | main.py:99-105 | every trip in the window starts no later than the latest start date and no earlier than the window start |
| TwoWeekLeaders.LeaderRows | main.py:109-115 | at most three rows, sorted by descending count, distinct stations, each count equals that station's trips in the window, and no station left out has more |
| TwoWeekLeaders.ColumnName | main.py:111 | the count column's name is 35 characters long |
| TwoWeekLeaders.ColumnNameDates | main.py:102-111 | the column name is `trips_from_`, the window start, `_to_` and `max_date`, and both dates parse back from it |
| TwoWeekLeaders.MoreTripsPreorder | main.py:113-114 | descending order by count is a total preorder |
| Source.LastSlash | main.py:120 | finds the last '/' of the path, or reports that there is none |
| Source.SourceGroup | main.py:120-122 | the group found is a suffix of the path preceded by '/' and contains exactly one '/', neither first nor last |
| Source.RegexpExtract | main.py:122 | `regexp_extract` is empty iff the pattern matches nowhere, and otherwise is the text after a match's leading '/' |
| Source.SourceGroupMatches | main.py:120-122 | the group is found at k iff the pattern matches with its leading '/' at k, and the group then runs from k+1 to the end |
| Source.NoGroupNoMatch | main.py:120-122 | when no group is found the pattern matches nowhere |
| Source.SliceBound | main.py:124 | Python's slice bound: a negative index counts from the end, then clamped to the string |
| Source.PySlice | main.py:124 | Python's `s[a:b]`: its length and its characters |
| Source.ExtractSource | main.py:119-124 | the result is the extracted group without its first 5 and last 8 characters, or empty when the group is shorter than 14 |
| Source.ExtractSourceOfDataFile | main.py:119-124 | for `<dir>/data/<name>.zip.csv` with a slash-free name, the source is `<name>` |
| Source.NoMatchEmptySource | main.py:119-124 | a path where the pattern matches nowhere yields the empty source |
| Pipeline.Calls | main.py:139-155 | six calls for the first schema and four for the second, starting with the average, the per-day count and the best station, and ending with the two-week report |
| Pipeline.ColumnsOf | main.py:139-155 | the gender and birth-year columns exist iff the schema is the first |
| Pipeline.Arguments | main.py:139-155 | the columns each report is passed: start and end time first for the average, gender and age reports, station then start time for the two station reports, and the gender or birth-year column last |
| Pipeline.CallsOfVariant | main.py:139-155 | the gender and age reports are called iff the schema is the first; every call has the columns it needs, and its arguments include the start-time column |
| Pipeline.CallsList | main.py:139-155 | the exact call order of each schema |
| Pipeline.SourceOf | main.py:119-124 | `extract_source` fails iff the relation is empty, and otherwise returns the extracted source of the file's path |
| Pipeline.Tables | main.py:33-117 | only the two-week report can raise, and then exactly as it does alone; the age report gives two tables, the others one |
| Pipeline.RunCall | main.py:126-127 | an empty relation raises before any report; otherwise a call fails iff its report fails; each table is written to `reports/<folder>/<prefix><source>.csv`, and a gender table only by the gender report |
| Pipeline.ReportPath | main.py:127 | the path is `reports/`, the folder, `/`, the prefix, the source and `.csv`, with exactly those lengths |
| Pipeline.Folder | main.py:40-117 | each report's `foldername` literal, a non-empty name |
| Pipeline.FoldersDistinct | main.py:40-117 | distinct reports write into distinct folders |
| Pipeline.Prefixes | main.py:40-117 | each report's `reportname` literal: two for the age report, one for each other report |
| Pipeline.PrefixShape | main.py:40-117 | every report name is non-empty, contains no '/' and ends in '-' |
| Pipeline.RunAll | main.py:133-155 | the calls run in order: the run completes iff every call succeeds and then holds every call's files in call order; otherwise it carries the error of the first call that fails and holds exactly the files of the calls before it |
| Pipeline.RunAllFiles | main.py:133-155 | calls that all succeed write the sum of their file counts |
| Pipeline.InWritten | main.py:133-155 | every file of a call that succeeds is among the files written |
| Pipeline.OnlyTwoWeekFails | main.py:133-155 | over a non-empty relation the first failing call fails with the two-week report's error |
| Pipeline.Run | main.py:137-144 | an empty relation writes nothing and stops with the empty-relation failure; a complete run writes 7 or 4 files; any other failure is the two-week report's |
| Pipeline.Main | main.py:133-155 | the program completes iff both runs do, and then it has written 11 files |
| Pipeline.CompleteRun | main.py:133-155 | when nothing fails, the first schema writes 7 files and the second writes 4 |
| Pipeline.CallWrites | main.py:126-127 | a call over a non-empty relation whose report succeeds writes table i of its report at the path with prefix i |
| Pipeline.CompleteRunWrites | main.py:133-155 | a complete run writes every table of every call at `reports/<folder>/<prefix><source>.csv` |
| Pipeline.FailureIsTwoWeek | main.py:133-155 | over a non-empty relation a run can only fail in the two-week report, after writing exactly the 6 or 3 files of the calls before it |
| Pipeline.FileCounts | main.py:139-155 | the number of files the calls of each schema write |
| Pipeline.RunAllSnocFailure | main.py:133-155 | a failing last call keeps exactly the files of the calls before it and ends the run with its own error |
| Pipeline.GenderOnlyForFirstSchema | main.py:153-154 | a gender table is written only for the first schema |
| Pipeline.GenderWrittenForFirstSchema | main.py:142 | conversely, a complete first-schema run writes the gender table at `reports/average_trip_length_per_gender/avggender-<source>.csv` |
| Pipeline.GenderFileOfGenderReport | main.py:62-67 | a gender table is written only by the gender report |
| Pipeline.FilesNamedAfterSource | main.py:126-127 | every file is written to a report path named after the dataset's source |
| Pipeline.FirstFailureStops | main.py:133-155 | when the first run fails, the program ends there and the second file is never read |
| Pipeline.SecondRunFollows | main.py:133-155 | otherwise the second run's files follow the first run's and its failure is the program's |
| Trips.Duration | main.py:34-35 | the duration is not null iff both timestamps are not null, and it is negative iff the trip ends before it starts |
| Trips.StartDate | main.py:43 | `to_date` is null iff the start time is, and a start time lies within the seconds of its date |
| Trips.Mean | main.py:38 | the mean is null iff no value is non-null; otherwise mean × count equals the sum of the non-null values |
| Trips.MeanOfOne | main.py:38 | the mean of one value is that value |
| Trips.MeanBounds | main.py:38 | the mean lies between any lower and upper bound of the non-null values |
| Trips.GroupDurations | main.py:37-38 | the non-null durations of a group have the count and sum defined directly over the whole input |
| Trips.GroupMean | main.py:37-38 | a group's mean is null iff its duration count is 0, otherwise its duration sum over its duration count |
| Grouping.Distinct | main.py:37 | no duplicates, and exactly the input's keys |
| Grouping.Where | main.py:37 | a group is no longer than the input |
| Grouping.WhereMultiset | main.py:37 | a group holds every row with its key as often as the input does, and no other row |
| Grouping.WhereMembers | main.py:37 | the rows of a group are exactly the input rows with its key |
| Grouping.GroupBy | main.py:37 | distinct keys, each group holds exactly the rows with its key, and every row's key has a group |
| Grouping.CountBy | main.py:44 | distinct keys, each count is the positive number of rows with that key, and every row's key is counted |
| Grouping.CountBySum | main.py:44 | the counts add up to the number of rows |
| Sorting.Insert | main.py:78 | inserting adds exactly one element |
| Sorting.InsertSorted | main.py:78 | inserting into a sorted sequence keeps it sorted |
| Sorting.SortBy | main.py:78 | `orderBy` gives a sorted permutation of its input, of the same length |
| Sorting.TopK | main.py:78-80 | `limit(k)` after `orderBy` keeps min(k, n) input rows, sorted, and no row left out precedes a kept one |
| Sorting.TopKHead | main.py:78-80 | the first kept row precedes every input row |
| Sorting.TopKAll | main.py:90-93 | with at most k rows every row is kept |
| Civil.PrevDay | main.py:100 | the previous day has ordinal one less, and there is none before 0001-01-01 |
| Civil.SubDays | main.py:100 | subtracting n days lowers the ordinal by n, and fails iff the result would precede 0001-01-01 |
| Civil.OrdinalOrder | main.py:99-105 | dates compare as their ordinals do, and equal dates have equal ordinals |
| Civil.SecsWithinDay | main.py:43 | a timestamp's seconds fall within the seconds of its day |
| Civil.FormatDate | main.py:102-103 | `%Y-%m-%d` is ten characters with '-' at positions 4 and 7 |
| Civil.ParseFormatDate | main.py:102-103 | a formatted date parses back to itself |
| Civil.FormatDateInjective | main.py:102-103 | distinct dates format differently |

## Left out

- `zip_to_df` (main.py:18-31): it reads the zip archive, filters entries by name and stages a CSV file. This is file I/O; the model starts from the parsed trips.
- `create_csv` (main.py:126-131): writing the CSV. The model records each report file's path and table instead.
- The glob over `data/` (main.py:9-12), `JAVA_HOME`, the Spark session (main.py:14-16) and the `os.remove` cleanup (main.py:157-158): process setup and file-system effects.
- The two files' paths and relations are parameters of `Pipeline.Main`, since the glob decides them.
- Pipeline.Main takes the first archive to have the first schema and assumes that a second archive exists. If the glob yields them in the other order, the first report's `col("start_time")` raises in Spark. If it yields only one archive, `file_names[1]` raises `IndexError` (main.py:137, main.py:148). Neither case is modelled.
- Pipeline.ColumnsOf and Pipeline.Arguments record the column names `main` passes, but the reports do not use them. The model's reports read the start time, end time, station, gender and birth year from the fields of each `Trip`, so a column name that does not exist in the file is not modelled as an error.
- A `Dataset`'s trips stand for the staged CSV file that Spark reads, not the archive's entry. `zip_to_df` (main.py:25-29) loses each entry's first data row: the `for row in reader` loop consumes that row before `writerows(reader)` writes the rest.
- Parsing `yyyy-MM-dd HH:mm:ss` in `unix_timestamp`, along with time zones and the epoch: timestamps arrive parsed. Only differences of seconds are used, so the epoch does not matter.
- Trips.Duration: Spark's `unix_timestamp` reads the wall-clock time in the session time zone. A trip that spans a daylight-saving change therefore differs by 60 minutes from the model's duration, which counts wall-clock seconds.
- Floating point: durations and means are exact reals.
- Trips.Duration: Spark divides a `long` by 60 in `double`. The model's exact quotient ignores rounding.
- A null station: `station` is a non-null string. Spark's `count(station)` would give a null station's group a count of 0; the model does not cover that case.
- Order of groups and ties: Spark does not fix the order of `groupBy` output or of rows with equal sort keys. The model fixes first-seen group order, a stable sort and the first maximum for `max_by`. The contracts describe the chosen rows: the maximum, sortedness and the rows left out. They do not depend on which of several equal rows is chosen.
- The `sort(asc("date"))` before the second `groupBy` (main.py:107): grouping and counting do not depend on row order, so the model omits it.
- `%Y` in `strftime` is modelled as four zero-padded digits. Some platforms print years below 1000 without padding.
- AgeExtremes.Age: Spark computes the age as a `double` from an integer year and a string birth year. The model takes the birth year as a parsed integer.
- `input_file_name()` returns a URI, and the regular expression's `$` can also match before a final line terminator. The model takes the path as a plain string with no trailing newline.
- `extract_source` is evaluated only for the calls the run reaches. Its failure on an empty relation is modelled, and any other Spark failure is not.
