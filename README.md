# Citi Bike station stock and forecasting pipeline, in Dafny

This project models the data-handling core of a pipeline that predicts how
many bikes are docked at each Citi Bike station, hour by hour. It also
proves properties of that model. The pipeline has four stages:

1. It downloads monthly trip archives, choosing each URL and file name by the
   month's `YYYYMM` label. It reduces each month of trips to hourly inflow and
   outflow counts per station (`TripDownload`, on month arithmetic in `Months`).
2. It reconstructs an hourly stock per station (`BikeStock`). The flows are
   joined to station metadata, sorted, and the metadata is filled within each
   station. The first hour of a station's day is seeded with
   `round(capacity * proportion)`, the overnight rebalancing. The stock is the
   running sum of seeds within the day.
3. It trains one forecasting model per station with enough data and scores it
   on a 12-hour holdout (`ModelRun.ModelFun`). Then it joins the forecasts to
   station metadata and sorts them by longitude and latitude
   (`ModelRun.AssemblePredictions`).
4. It splits `s3://bucket/key` locations apart (`S3Path.ParseS3`).

Supporting modules:

- `Text` holds Python's `int(s)`, `str(n)` and string `<=`.
- `Sorting` is an insertion sort by a total preorder, used for the
  multi-column `sort_values`.
- `Wrappers` holds `Option` and `Result`.

## Representation

- Timestamps are whole minutes. A date is a day number: `DayOf(t) = t / 1440`
  and `HourOf(t) = (t % 1440) / 60`.
- pandas nulls are `None`. Coordinates are `real`.
- The rebalancing proportion is a `real`. numpy's half-to-even rounding is
  written out in `RoundHalfEven`.
- Exceptions that end the program with a logged error and exit status 1 are
  `Err` results.
- The forecasting model is a function parameter. `forecastAt(series, i)` is
  the rounded `i`-step-ahead forecast of a model fitted to `series`.
  `mapeOf(train, test)` is the raw MAPE, against `test`, of the unrounded
  `|test|`-step forecast of a model fitted to `train`.
- Trip files are read through a parameter, `readArchive(zipPath)`.

## Notes on the source

Within a day, the stock grows by the previous row's net flow, not the
current one. `process_bike_data` seeds each row after a day's first hour with
`net_flows.shift()`, the net flow of the row just before it
(src/data_processing.py:43-47). It then takes the running sum within the
(station, date) group (src/data_processing.py:50). So `stock[i] - stock[i-1]`
is the net flow of row `i - 1` (`BikeStock.StockStep`). The repository's test
expects the stock `[25, 27, 24, 26, 26, 28, 29, 29]`
(test/test_data_processing.py:52), and the model gives that table for the
test's input (`BikeStock.ProcessExample`).

`model_fun` can find no forecast row: no station passes the data gate, or the
horizon is empty. In that case `predictions['date_time']` raises `KeyError`,
which the `except ValueError` clause does not catch. The model returns
`Err(NoForecastRows)` for it.

## Model

| member | source | states |
|---|---|---|
| Text.ParseInt | src/helper_months.py:15 | `int(s)` of a non-empty digit string is the number it spells; an empty string is an error |
| Text.IntToString | src/data_download_trips.py:85-88 | `str(i)` is non-empty, all digits for a non-negative integer, and starts with `-` for a negative one |
| Text.ParseIntOfIntToString | src/data_download_trips.py:85-88 | `int(str(i)) == i` for every integer |
| Text.LexLeIsNumericOrder | src/data_download_trips.py:92 | for digit strings of equal length, Python's string `<=` is the numeric order |
| Sorting.InsertionSort | src/data_processing.py:32 | the result is a permutation of the input, and it is sorted whenever the relation is a total preorder |
| Sorting.SortedUnchanged | src/data_processing.py:32 | sorting an already sorted sequence changes nothing |
| Months.ToMonth | src/helper_months.py:5-16 | a label of more than four digits maps to `int(first four) * 12 + int(rest)`; a label of four characters or fewer is an error |
| Months.MonthOf | src/helper_months.py:33-34 | the decoded month is in 1..12 and `year * 12 + month` gives the code back |
| Months.MonthRange | src/helper_months.py:32-34 | one pair per code from `lo` to `hi` inclusive, none when `lo > hi`; the i-th pair encodes `lo + i` |
| Months.IterMonths | src/helper_months.py:19-34 | defined exactly when both labels parse; it yields `to_month(end) - to_month(start) + 1` pairs (none when start is later), each with a month in 1..12 that encodes back to its code |
| Months.MonthOfMonthCode | src/month_functions.py:9-11 | encoding a valid (year, month) and decoding it gives the same pair back |
| Months.MonthOfSucc | src/helper_months.py:33-34 | the month decoded from code `k + 1` is the calendar month after the one decoded from `k`, across December too |
| Months.IterMonthsConsecutive | src/month_functions.py:9-11 | consecutive yielded pairs are consecutive calendar months; (y, 12) is followed by (y + 1, 1) |
| Months.IterMonthsInclusive | src/helper_months.py:32 | the first pair is the start month and the last pair is the end month |
| Months.ToMonthExample | test/test_helper_months.py:7-14 | `to_month('201904') == 24232` |
| Months.IterMonthsExample | test/test_helper_months.py:27-36 | `'201902'..'202003'` gives the 14 listed pairs across the turn of the year |
| Months.HourlyTimes | src/helper_months.py:49-52 | every listed instant is start plus a whole number of hours and lies before `end`; the next step would not |
| Months.DateRangeHours | src/helper_months.py:37-52 | the stepping loop yields exactly `HourlyTimes(start, end)` |
| Months.HourlyTimesUnique | src/helper_months.py:49-52 | the two properties of `HourlyTimes` determine it |
| Months.HourlyTimesCount | src/helper_months.py:49-52 | the number of instants is the ceiling of `(end - start) / 1h`, or 0 when `start >= end` |
| Months.HourlyTimesFromMidnight | test/test_helper_months.py:51-67 | from midnight to `n <= 24` hours later come `n` instants with hours 0..n-1 of that day; a whole day gives 24 |
| Months.HourOf | src/model_run.py:113 | the hour of an instant is in 0..23 |
| Months.StampSplit | src/data_processing.py:51-52 | date plus `hour` hours splits back into that date and hour |
| S3Path.RunLength | src/upload_to_s3.py:12 | a greedy character-class run: its characters are in the class and the next character is not |
| S3Path.ParseS3 | src/upload_to_s3.py:10-18 | without the `s3://` prefix there is no match; a match returns a non-empty bucket of bucket characters followed by `/` and the longest non-empty run of path characters |
| S3Path.ParseS3RoundTrip | src/upload_to_s3.py:12-18 | `s3://b/p` followed by anything outside the path class parses to `(b, p)` |
| S3Path.RunLengthOf | src/upload_to_s3.py:12 | the greedy run over `run + more` is exactly `run` when `more` does not continue the class |
| S3Path.ParseS3NeedsSlash | src/upload_to_s3.py:14-16 | `s3://bucket` with no `/` is an error |
| S3Path.ParseS3NeedsPath | src/upload_to_s3.py:14-16 | `s3://bucket/` with an empty key is an error |
| BikeStock.StationsWithId | src/data_processing.py:28-31 | the station rows matching a flow row all carry its id; there are none exactly when the lookup finds nothing, and the first is the looked-up row |
| BikeStock.StationsWithIdExact | src/data_processing.py:28-31 | the matches are every station row with the id, as often as it occurs in the table, and no other row |
| BikeStock.Lookup | src/data_processing.py:28-31 | `None` exactly when no station row has the id; otherwise a station row with that id |
| BikeStock.UniqueMatch | src/data_processing.py:28-31 | with unique station ids, a flow row matches at most one station row |
| BikeStock.JoinOne | src/data_processing.py:28-31 | a flow row gives at least one joined row; with unique ids exactly one, carrying its station's metadata or nulls |
| BikeStock.LeftJoin | src/data_processing.py:28-31 | the left merge never loses a flow row; with unique ids it keeps one row per flow row, in order, with the flow row's own station |
| BikeStock.RowLeIsTotalPreorder | src/data_processing.py:32 | the (station_id, date, hour) order is a total preorder |
| BikeStock.SortRows | src/data_processing.py:32 | the rows are permuted into (station_id, date, hour) order |
| BikeStock.FillForward | src/data_processing.py:36-39 | `ffill` within groups keeps the length and every present value |
| BikeStock.FillBackward | src/data_processing.py:36-39 | `bfill` within groups keeps the length and every present value |
| BikeStock.FillForwardIsLastSeen | src/data_processing.py:36-39 | after `ffill` within groups, an entry holds the last present value of its group at or before it (or the value carried in) |
| BikeStock.FillBackwardIsNextSeen | src/data_processing.py:36-39 | after `bfill` within groups, an entry holds the first present value of its group at or after it (or the value carried in) |
| BikeStock.FillGroups | src/data_processing.py:36-39 | ffill then bfill within groups keeps every present value |
| BikeStock.FillGroupsValue | src/data_processing.py:36-39 | after ffill then bfill, an entry holds the last present value of its group up to it, or failing that the first one after it |
| BikeStock.FillGroupsFrom | src/data_processing.py:36-39 | every value after the fill is the value of some entry of the same group |
| BikeStock.FillForwardFrom | src/data_processing.py:36-39 | after `ffill`, a row is filled when an earlier row of its group had a value |
| BikeStock.FillBackwardFrom | src/data_processing.py:36-39 | after `bfill`, a row is filled when a later row of its group had a value |
| BikeStock.FillGroupsComplete | src/data_processing.py:36-39 | after ffill then bfill, every row of a group in which some row has a value has a value |
| BikeStock.FillStationMeta | src/data_processing.py:36-39 | station, date, hour and flows are unchanged, and the present metadata is kept |
| BikeStock.FillStationMetaComplete | src/data_processing.py:36-39 | every row of a station carries name, latitude, longitude and capacity if any row of that station had them |
| BikeStock.FillStationMetaFrom | src/data_processing.py:36-39 | every filled name, latitude, longitude and capacity is the one of some row of the same station |
| BikeStock.FillStationMetaKeeps | src/data_processing.py:36-39 | when every row has all its metadata, the fill changes nothing |
| BikeStock.PreparedSorted | src/data_processing.py:28-39 | the joined, sorted and filled rows are ordered by (station_id, date, hour) |
| BikeStock.RoundHalfEven | src/data_processing.py:45 | numpy rounding: within one half of the value, and an exact half goes to the even integer |
| BikeStock.MinHour | src/data_processing.py:44 | the group minimum of the hour: null exactly for an absent group, otherwise at most every hour of the group |
| BikeStock.MinHourAttained | src/data_processing.py:44 | the group minimum is the hour of a row of that group |
| BikeStock.CumSum | src/data_processing.py:50 | the grouped running sum keeps the length, and a value is null exactly where the input is null |
| BikeStock.GroupSumAbsent | src/data_processing.py:50 | a group with no earlier rows has a running sum of zero |
| BikeStock.CumSumFirst | src/data_processing.py:50 | the first row of a group holds its own value |
| BikeStock.CumSumStep | src/data_processing.py:50 | for two neighbouring rows of one group, the later running sum is the earlier one plus the later value |
| BikeStock.SortedDayStart | src/data_processing.py:32 | in sorted rows, a row that starts its (station, date) group is the first of that group in position and hour |
| BikeStock.DayStartIsMinHour | src/data_processing.py:44 | the first row of a group holds the group's minimum hour |
| BikeStock.StockAtDayStart | src/data_processing.py:43-50 | the first hour of a day holds `round(capacity * proportion)` |
| BikeStock.SeedAfterFirstHour | src/data_processing.py:43-47 | a row above an earlier hour of its group is seeded with the previous row's net flow `outflows - inflows` |
| BikeStock.FirstSeedOfDay | src/data_processing.py:43-45 | a first row that holds its group's minimum hour is seeded with `round(capacity * proportion)` |
| BikeStock.SeedsAfterFirstHour | src/data_processing.py:43-47 | in one day of one station in hour order, every row after the first is seeded with the previous row's net flow |
| BikeStock.SeedsOfOneDay | src/data_processing.py:43-47 | for one day in hour order, the first seed and the previous net flows determine the whole seed column |
| BikeStock.StockStep | src/data_processing.py:43-50 | between consecutive rows of one day, the stock grows by the previous row's net flow |
| BikeStock.AccumulatedNetFlow | src/data_processing.py:50 | a sequence that starts at a seed and then adds net flows holds the seed plus their sum |
| BikeStock.StocksAddNetFlows | src/data_processing.py:43-50 | along a run of one day's rows with rising hours, every stock adds the previous row's net flow |
| BikeStock.StockClosedForm | src/data_processing.py:43-50 | the stock at row `i` of a day is the rebalanced seed plus the net flows of the day's rows before `i` |
| BikeStock.SortedStockClosedForm | src/data_processing.py:28-50 | the same closed form for the sorted rows the preparation produces |
| BikeStock.CompleteRows | src/data_processing.py:55 | the positions of the rows without a null, in ascending order, every such row listed |
| BikeStock.DropIncomplete | src/data_processing.py:51-55 | there is one output row per row without a null, so rows are never added |
| BikeStock.DropIncompleteAt | src/data_processing.py:51-55 | the k-th output row is the k-th complete row with its hour folded into the date, without the flow and capacity columns |
| BikeStock.DropIncompletePoints | src/data_processing.py:51-55 | every output row comes from a row without a null, and every such row gives an output row |
| BikeStock.DropNothing | src/data_processing.py:55 | with no null left, `dropna` keeps every row in order |
| BikeStock.ProcessBikeData | src/data_processing.py:16-65 | an error exactly when an argument is not a DataFrame; with unique station ids, no more output rows than flow rows |
| BikeStock.ProcessedPoints | src/data_processing.py:16-65 | the output holds exactly the joined, sorted and filled rows that have no null once the stock is added, each as date-time, name, coordinates and stock |
| BikeStock.StampOrder | src/data_processing.py:51-52 | with hours in 0..23, the (station, date, hour) order is the (station, timestamp) order |
| BikeStock.DropIncompleteSorted | src/data_processing.py:55 | dropping rows keeps the (station, timestamp) order |
| BikeStock.ProcessedRowsOrdered | src/data_processing.py:28-55 | the output is ordered by station and then timestamp |
| BikeStock.JoinedHours | src/data_processing.py:28-31 | the join keeps every hour in 0..23 |
| BikeStock.RebalancedExample | test/test_data_processing.py:21 | `round(39 * 0.65) == 25` |
| BikeStock.MinHourExample | test/test_data_processing.py:8-15 | the worked day's minimum hour is 6 |
| BikeStock.JoinFirstStation | src/data_processing.py:28-31 | with unique station ids, flow rows that all belong to the table's first station join one-to-one to its metadata |
| BikeStock.JoinExample | test/test_data_processing.py:8-29 | the test's trips joined to its eight stations give the eight rows of station 72, each with its name, coordinates and capacity |
| BikeStock.PrepareKeepsJoined | src/data_processing.py:28-39 | joined rows that are already in order and carry all their metadata pass the sort and the fill unchanged |
| BikeStock.PrepareExample | test/test_data_processing.py:8-29 | sorting and filling the test's joined rows changes nothing |
| BikeStock.SeedsExample | test/test_data_processing.py:8-15 | the worked day's seeds are 25, 2, -3, 2, 0, 2, 1, 0 |
| BikeStock.CumSumExample | test/test_data_processing.py:52 | the running sum of those seeds is 25, 27, 24, 26, 26, 28, 29, 29 |
| BikeStock.StockExample | test/test_data_processing.py:52 | station 72, capacity 39, proportion 0.65: the stock column is `[25, 27, 24, 26, 26, 28, 29, 29]` |
| BikeStock.DropExample | test/test_data_processing.py:38-52 | no row of the test day has a null, so all eight come out, at 06:00 and 09:00 to 15:00, with the expected stocks |
| BikeStock.ProcessExample | test/test_data_processing.py:32-65 | `process_bike_data(trips, stations, 0.65)` returns the test's expected table: station 72 at the eight hours, with its name and coordinates and stocks 25, 27, 24, 26, 26, 28, 29, 29 |
| ModelRun.Distinct | src/model_run.py:35 | `unique()`: the same stations as the column, each exactly once, in order of first appearance |
| ModelRun.StationList | src/model_run.py:35 | a station is listed exactly when some row has it |
| ModelRun.RowsOf | src/model_run.py:56 | the positions of the station's rows, in ascending order, every one of them listed |
| ModelRun.SeriesOfRows | src/model_run.py:56-58 | `y_var` has one point per row of the station, and point k is the stock of the station's k-th row |
| ModelRun.PositiveCount | src/model_run.py:62 | the count of positive points is at most the length, and equals it exactly when every point is positive |
| ModelRun.PositiveCountCardinality | src/model_run.py:62 | the count is the number of positions whose stock is positive |
| ModelRun.PositiveRowsCount | src/model_run.py:56-62 | counting the series' positive points counts the station's table rows with a positive stock |
| ModelRun.TrainedIff | src/model_run.py:56-63 | a station is trained exactly when more than 336 of its rows have a positive stock |
| ModelRun.EnoughDataIsLong | src/model_run.py:63 | a series that passes the gate has more than 336 points, enough for the 12-point holdout |
| ModelRun.GateBoundary | src/model_run.py:62-63 | for a series of any length, 336 positive points fail the gate and 337 pass |
| ModelRun.HoldoutSplit | src/model_run.py:76-77 | the test part is the last 12 points (or all of them), the train part is a prefix, and with 12 or more points train + test is the series |
| ModelRun.CapMape | src/model_run.py:88-91 | the reported MAPE is never above 100; it is the raw MAPE when that is at most 100, and 100 otherwise |
| ModelRun.CapMapeExamples | src/model_run.py:88-91 | a raw 150 is reported as 100 and a raw 42 as 42 |
| ModelRun.StationMape | src/model_run.py:76-93 | for a series of 12 or more points, the score is the raw MAPE of the model fitted to all but the last 12 against those 12, capped at 100; it is never above 100 |
| ModelRun.TrainedAmong | src/model_run.py:63-72 | `stations_w_models` holds exactly the listed stations that pass the gate |
| ModelRun.UntrainedAmong | src/model_run.py:105-106 | the skipped stations are exactly the listed stations that fail the gate |
| ModelRun.TrainedPlusUntrained | src/model_run.py:126 | trained plus skipped stations are all the stations, so the skipped count is stations minus score rows |
| ModelRun.MapesAmong | src/model_run.py:72-93 | `mapes_station_arima` is as long as `stations_w_models`, and its k-th entry is the score of the k-th trained station |
| ModelRun.ScoreTable | src/model_run.py:124-125 | the score table pairs the two lists row by row |
| ModelRun.ScoresOfTrained | src/model_run.py:124-125 | one score row per trained station, in order, each for a station that passed the gate and at most 100 |
| ModelRun.StationForecast | src/model_run.py:96-103 | a trained station gets one row per horizon instant; the i-th row carries the i-th instant's date and hour and the i-th forecast |
| ModelRun.ForecastRowsAmong | src/model_run.py:96-103 | every forecast row belongs to a listed station that passed the gate |
| ModelRun.ForecastTableLength | src/model_run.py:96-103 | the table has as many rows per trained station as the horizon has hours |
| ModelRun.ForecastTableAt | src/model_run.py:96-103 | row `k * hours + i` is the i-th forecast of the k-th trained station, so rows are grouped station by station |
| ModelRun.AmongStep | src/model_run.py:53-106 | one more station appends to all three lists when it passes the gate, and to none otherwise |
| ModelRun.StationForecastRows | src/model_run.py:99-103 | the inner loop builds exactly the station's forecast rows |
| ModelRun.ModelFun | src/model_run.py:18-136 | an error exactly when no forecast row is produced; otherwise the predictions, the aligned score table, and the number of skipped stations |
| ModelRun.EightHourHorizon | test/test_model_run.py:9-19 | an eight-hour horizon from midnight gives a station eight rows for hours 0 to 7 of that day |
| ModelRun.MergeOne | src/model_run.py:195 | a prediction gives at least one merged row; with unique station ids exactly one, with its station's metadata or nulls |
| ModelRun.MergeStations | src/model_run.py:195 | the left merge never loses a prediction; with unique ids it keeps them in order, each with its own station |
| ModelRun.LonLatLeIsTotalPreorder | src/model_run.py:199 | longitude ascending, then latitude descending, with nulls last, is a total preorder |
| ModelRun.AssemblePredictions | src/model_run.py:195-199 | the output is a permutation of the merged rows, sorted by longitude ascending and then latitude descending |
| ModelRun.AssembledOrder | src/model_run.py:199 | a row with a smaller longitude comes first; at equal longitude the larger latitude comes first |
| ModelRun.AssembleExample | src/model_run.py:195-199 | a station at longitude -74.0 is listed before one at -73.9 |
| TripDownload.LabelDigits | src/data_download_trips.py:84-88 | a label is six digits: the year, then the month padded to two digits |
| TripDownload.YearDigits | src/data_download_trips.py:86 | a four-digit year prints as four digits spelling it |
| TripDownload.MonthDigits | src/data_download_trips.py:85-88 | the month part is two digits spelling the month |
| TripDownload.ToMonthOfLabel | src/data_download_trips.py:84-88 | `to_month` of a month's label is that month's code |
| TripDownload.LabelValue | src/data_download_trips.py:84-88 | a label spells `year * 100 + month` |
| TripDownload.LabelOrder | src/data_download_trips.py:92 | string order on labels is chronological order |
| TripDownload.Labels | src/download_trips_data.py:92-96 | one label per month, in the same order |
| TripDownload.BuildLabels | src/data_download_trips.py:84-88 | the appending loop builds exactly the labels of the months |
| TripDownload.IterMonthsFrom | src/download_citibikes_data.py:77-84 | the nested `iter_months` yields the consecutive months from the start code |
| TripDownload.RunMonthValid | src/download_citibikes_data.py:81-84 | every month of a four-digit-year range has a four-digit year and a month in 1..12 |
| TripDownload.LabelCode | src/download_trips_data.py:92-96 | the i-th label of a range round-trips to the i-th code after the start |
| TripDownload.LabelsChronological | src/download_trips_data.py:92-96 | labels of a range are strictly increasing in string order, so they are distinct |
| TripDownload.CutoffLabel | src/data_download_trips.py:92 | the cutoff `'201612'` is the label of December 2016 |
| TripDownload.CutoffByMonth | src/download_trips_data.py:100-113 | the first suffix is used exactly for months up to December 2016 |
| TripDownload.PlanByCutoff | src/data_download_trips.py:91-105 | `urls` and `pr_paths` are aligned with the labels and share the zip path; URL and csv path are built from the label and its suffix |
| TripDownload.FirstLabels | src/download_citibikes_data.py:95 | `yrmo[0:43]` is the first 43 labels, or all of them when there are fewer |
| TripDownload.PlanByPosition | src/download_citibikes_data.py:94-108 | the lists are aligned and share the zip path; the suffix is positional and the csv name is `citibikes_` plus the label |
| TripDownload.PositionIsIndex | src/download_citibikes_data.py:95 | with distinct labels, being among the first 43 means being at a position below 43 |
| TripDownload.CitibikesCodes | src/download_citibikes_data.py:45-46 | the fixed range runs from code 24162 to 24255 |
| TripDownload.PositionalMatchesCutoff | src/download_citibikes_data.py:94-108 | over the fixed range of 94 months, the first 43 labels are exactly those up to `'201612'` |
| TripDownload.InflowKeys | src/data_download_trips.py:134-141 | an inflow is keyed by the end station and the date and hour of the stop time |
| TripDownload.OutflowKeys | src/data_download_trips.py:144-151 | an outflow is keyed by the start station and the date and hour of the start time |
| TripDownload.Occurrences | src/data_download_trips.py:141 | a key's count is its multiplicity among the keys, positive exactly when the key occurs |
| TripDownload.CountBy | src/data_download_trips.py:141 | the grouped sum of ones has an entry exactly for each occurring key, holding its number of occurrences |
| TripDownload.Flows | src/data_download_trips.py:154 | the inner merge keeps exactly the keys with both an inflow and an outflow, with both counts at least 1 |
| TripDownload.HourBucket | src/download_trips_data.py:138-155 | a key's date and hour select exactly the one-hour interval starting at that hour |
| TripDownload.ProcessArchives | src/download_citibikes_data.py:122-153 | each month's flow table is written to that month's csv path, in order |

## Left out

- Network, file and cloud I/O are left out: HTTP downloads, the thread pool
  and `sleep`, zip extraction, CSV reads and writes, directory handling, S3,
  BigQuery and the database. The web app, the CLI entry points, YAML
  configuration and logging are left out too. The core is sequential; the
  thread pool serves only downloads.
- The concatenation of the per-month csv files is not modelled. `glob`
  returns them in an unspecified order.
- The forecasting model's fitting and forecasting are function parameters,
  and so is the floating-point MAPE mean. NaN and infinite MAPEs are not
  modelled: `NaN > 100` is false in Python, so a NaN score would pass
  through uncapped.
- pandas datetime parsing and formatting are not modelled. Instants are whole
  minutes. The round trip through the `"%Y-%m-%d %H:%M"` strings in
  `model_fun` keeps minutes, so it is the identity on this representation.
- Coordinates are exact `real`s, not floats.
- `\w` is ASCII only; Unicode word characters are not modelled.
- `int()` does not accept surrounding whitespace or `_` separators in this
  model.
- The outer `except` clauses of `process_bike_data` are modelled by the one
  error they can meet here, an argument that is not a DataFrame. The
  `TypeError` branch of `model_fun` (lines 130-134) cannot be reached and has
  no counterpart.
- Station ids that are null in a trip file are not modelled. `groupby` would
  drop those trips.
- TripDownload.Flows: the row order of the grouped and merged flow table
  (sorted by key) is not stated; the table is a map from key to counts.
- Sorting.InsertionSort: the order it leaves rows with equal sort keys in is
  not stated. pandas' default sort does not promise one either.
- ModelRun.HoldoutSplit: for series shorter than 12 points, only the test part
  (the whole series) and the prefix shape of the train part are stated. Such
  series never reach the split, because the gate needs more than 336 points.
