# Bike-rental feature pipeline in Dafny

This project models `Datasets.read_parquet` of the bike-rental departure
predictor. The function turns a table of per-station event rows into the
feature table that the random-forest trainer consumes. After the file is
loaded, it runs five stages:

1. It parses the `timestamp` column as UTC and drops the rows whose timestamp
   does not parse.
2. It adds the calendar columns: `hour`, `day_of_week` (Monday = 0), `month`,
   the ISO 8601 `week_of_year` and `is_weekend`.
3. It sorts the table by `station_id` and then by timestamp. The caller
   receives the table in this order.
4. Within each station it adds `prev_departures`, the lag-1 departure, and
   `rolling_mean_departure`, a trailing mean over three rows that needs only
   one row.
5. It adds `station_avg_departure`, the mean departure of each (station, hour)
   group broadcast to every row of the group. Then it adds `day_type` (holiday
   takes precedence over weekend), `temperature_squared` and `hour_x_weekend`.

Modules, one per stage, plus shared helpers:

- `Wrappers`: `Option`.
- `Seqs`: order-preserving selection (`Filter`), sums, means and their
  permutation lemmas.
- `Records`: the row at each point of the pipeline.
- `Timestamps`: stage 1. The timestamp parser is a parameter.
- `Calendar`: stage 2. Timestamps are integer UTC seconds since the epoch. The
  civil date comes from the era-based (400-year) days-to-date conversion. The
  ISO week is defined twice and the two definitions are proved equal:
  - the "estimate and correct" computation that calendar libraries use;
  - the ISO 8601:2004 week-date rule (section 4.1.4), which says a day
    belongs to the week of its Thursday.
- `Ordering`: stage 3. The sort order and a sort.
- `History`: stage 4.
  - The lag and the rolling window are defined over each station's rows, in
    table order, which is what a pandas group-by does.
  - The module proves that on a sorted table they can be read off
    neighbouring rows.
  - It also has a one-pass method that keeps a three-value window.
- `StationHour`: the group mean. It has a two-pass method that keeps running
  totals in a map and then looks up each row's group.
- `Composite`: the three row-local columns.
- `Pipeline`: the composition of the stages (`ReadParquet`), lemmas about the
  table it returns, and a method that computes the same table stage by stage.

Numbers are mathematical. Departures are `int`; means, temperatures and
squares are `real`.

## Model

| member | source | states |
|---|---|---|
| Timestamps.ParsedPositions | src/datas.py:35-36 | The positions of the input rows whose timestamp parses: every listed position parses, the positions strictly increase, and every parsing position is listed. |
| Timestamps.DropUnparsedKeepsParsedRows | src/datas.py:35-36 | The rows that survive are one-to-one with the parsing positions, in input order. Each survivor is its input row, carrying the instant its timestamp parsed to. |
| Calendar.FieldsOf | src/datas.py:38-42 | The hour is in 0..23, and the instant lies within that hour of its day. The weekday is in 0..6 and is the weekday of the instant's day number (see `Calendar.EpochIsThursday`). The month is in 1..12 and is the month of a valid date whose day number is the instant's day. The week is in 1..53 and is the ISO 8601 week. `is_weekend` is 1 exactly for weekdays 5 and 6, and 0 exactly for weekdays below 5. |
| Calendar.CivilFromDaysValid | src/datas.py:38-40 | Converting a day number to a date always gives a valid date: month 1..12 and a day within that month's length, leap years included. |
| Calendar.CivilFromDaysRoundTrip | src/datas.py:38-40 | The date of a day number converts back to the same day number. |
| Calendar.DaysFromCivilInjective | src/datas.py:38-40 | Two valid dates with the same day number are the same date. |
| Calendar.DaysFromCivilRoundTrip | src/datas.py:38-40 | The day number of a valid date converts back to that date, so dates and day numbers correspond one to one. |
| Calendar.NextMonthStart | src/datas.py:40 | Each month starts on the day after the previous month ends, including across February of leap years. |
| Calendar.EpochIsThursday | src/datas.py:38-39 | Day number 0 is 1970-01-01 in both directions. Its weekday is 3 (Thursday, with Monday = 0), and each next day's weekday is the next one modulo 7. |
| Calendar.YearOfDayUnique | src/datas.py:40-41 | A day between January 1 of a year and January 1 of the next year has that year as its date's year. |
| Calendar.DayOfYearBounds | src/datas.py:41 | The ordinal day lies between 1 and the length of its year. |
| Calendar.IsoWeekIsWeekOfThursday | src/datas.py:41 | The library-style week computation (estimate, then correct at the start and end of the year) equals the ISO 8601 rule: the week number of the day's Thursday within the Thursday's year. |
| Calendar.InstantFromCalendar | src/datas.py:38-40 | The date and the hour of an instant give back the instant, up to the seconds within the hour. |
| Calendar.ExampleLastWeekOfPreviousYear | src/datas.py:38-42 | Sunday 2021-01-03 gets weekday 6, month 1, ISO week 53 and the weekend flag. |
| Calendar.ExampleFirstWeekOfNextYear | src/datas.py:38-42 | Monday 2024-12-30 gets weekday 0, month 12, ISO week 1 and no weekend flag. |
| Ordering.KeyLeTotal | src/datas.py:44 | Any two rows are comparable under the sort key. |
| Ordering.KeyLeTransitive | src/datas.py:44 | The sort key order is transitive. |
| Ordering.SortByKey | src/datas.py:44 | The result is ordered by station identifier, then by timestamp, and is a permutation of the input. |
| History.PrevDeparturesInGroup | src/datas.py:45 | The lag is missing exactly for a station's first row. For the station's i-th row (i > 0) it is the departure of the station's (i-1)-th row, so it never crosses a station boundary. |
| History.RollingWindowInGroup | src/datas.py:47-52 | The rolling window of the station's i-th row is the departures of the station's rows max(0, i-2) through i. |
| History.RollingMeanBounds | src/datas.py:47-52 | The rolling mean lies between any lower and upper bound of its window's departures. A station's first row has its own departure as its mean. |
| History.SortedStationsContiguous | src/datas.py:44-45 | After sorting, every station's rows form one contiguous run. |
| History.StationRowsIsRun | src/datas.py:45-52 | When stations are contiguous, a station's rows up to row k are exactly the run of same-station rows that ends at k. |
| History.PrevDeparturesAdjacent | src/datas.py:45 | When stations are contiguous, the lag is the previous row's departure if that row has the same station, and missing otherwise. |
| History.RollingWindowStep | src/datas.py:47-52 | When stations are contiguous, the window grows by the row's departure (keeping the last three) within a station, and restarts at a new station. |
| History.HistoryStep | src/datas.py:45-52 | One step of the scan gives exactly the lag and window of the next row. |
| History.ComputeHistory | src/datas.py:45-52 | One pass with a three-value window computes, for every row, the group-based lag and rolling mean. |
| StationHour.GroupOfRow | src/datas.py:54 | A row's group holds every row of the table with the same station and hour, earlier or later, and only such rows. |
| StationHour.StationHourMeanBounds | src/datas.py:54 | The station-hour average lies between any bounds of its group's departures. |
| StationHour.StationHourMeanPermutation | src/datas.py:44-54 | The average depends only on the multiset of rows, so sorting first does not change it. |
| StationHour.TallyStep | src/datas.py:54 | A group's running total and count change only when the next row belongs to the group. |
| StationHour.StationHourAverages | src/datas.py:54 | Running totals per key, followed by a lookup, give every row its group mean. Rows that share a station and hour get the same value. |
| Composite.DayType | src/datas.py:56-63 | The result is in 0..2. It is 0 exactly for holidays, 1 exactly for non-holidays whose weekend flag is set, and 2 exactly for the rest. |
| Composite.HourXWeekend | src/datas.py:67 | The result is 0 on weekdays and the hour on weekend days, so it lies between 0 and the hour. |
| Composite.TemperatureSquared | src/datas.py:65 | The squared temperature is never negative, and a temperature and its negation give the same square. |
| Pipeline.AddCalendar | src/datas.py:38-42 | Every row gets the calendar columns of its own instant, and the other columns are unchanged. |
| Pipeline.ReadParquetRows | src/datas.py:32-69 | The returned table has one row per parsing input row, holds exactly the calendared rows (as a multiset), is sorted by station and time, and every row's calendar columns are those of its instant. |
| Pipeline.EnrichHistory | src/datas.py:45-52 | On any sorted table, the lag and rolling-mean columns are read off neighbouring rows of the same station. |
| Pipeline.EnrichStationHour | src/datas.py:54 | A row's station-hour average equals the one any rearrangement of the table gives a row with the same station and hour. |
| Pipeline.EnrichComposites | src/datas.py:56-67 | `day_type` is 0 on holidays, otherwise 1 on Saturday and Sunday, and 2 on other days. `hour_x_weekend` is the hour on Saturday and Sunday and 0 otherwise. `temperature_squared` is the square of the row's temperature. |
| Pipeline.ReadParquetHistory | src/datas.py:45-52 | The returned table's lag is the previous row's departure when that row has the same station, and missing otherwise. Its rolling mean is the mean over the last (at most three) rows of the station's run. |
| Pipeline.ReadParquetStationHour | src/datas.py:54 | The returned table's station-hour average equals the group mean over the unsorted rows. |
| Pipeline.ReadParquetComposites | src/datas.py:56-67 | The returned table's composite columns follow each row's holiday flag, weekday, hour and temperature. |
| Pipeline.EnrichAt | src/datas.py:45-67 | A row's columns computed by separate passes are the ones the definition gives that row. |
| Pipeline.AssembleColumns | src/datas.py:45-67 | Given the history columns and the station-hour averages, the final pass builds exactly the enriched table. |
| Pipeline.ReadParquetByPasses | src/datas.py:32-69 | The stage-by-stage computation (one-pass history, map-based averages, assembly) returns exactly `ReadParquet`. |
| Pipeline.ExampleOneStationLags | src/datas.py:45 | For three rows of station "220" with departures 5, 7 and 9, the lags are none, 5 and 7. |
| Pipeline.ExampleOneStationRollingMeans | src/datas.py:47-52 | For the same rows, the rolling means are 5, 6 and 7. |
| Pipeline.ExampleUnparsable | src/datas.py:35-36 | A row whose timestamp "not-a-date" does not parse is absent from the output. |

## Left out

- `pd.read_parquet` (src/datas.py:33): the model starts from the loaded rows.
- The `pd.to_datetime` parser (src/datas.py:35): it is a parameter `string -> Option<int>` (UTC seconds, or no instant). Its string formats, time-zone conversion, sub-second precision and the 64-bit nanosecond range of pandas timestamps are not modelled. Instants are whole seconds of unbounded range.
- The per-string parser cannot express pandas 2's format inference. There, `to_datetime` infers one format from the column's first parsable string, so whether a row parses can depend on other rows. The model decides each timestamp on its own.
- A missing `station_id`: the identifier is always a string. pandas' group-bys drop rows whose key is missing, and those rows get a missing lag, rolling mean and station-hour average. The model gives every row a station.
- Floating point: means, temperatures and squares are exact reals. Float rounding, NaN temperatures and NaN departures are not modelled.
- The `KeyError` raised when a required column is missing: rows are typed records, so every column is present.
- `is_holiday` is a boolean. The source tests the column's truth value.
- `station_id` is a string, ordered character by character. A categorical column ordered by its category list is not modelled.
- The order among rows with equal (station, timestamp) keys: `sort_values`' tie order is not part of any contract here.
- pandas index handling (`reset_index(level=0, drop=True)` and assignment by index alignment) and `observed=False`: the model assigns each row its own group's value directly. That is what alignment achieves for a non-categorical station column.
- The printed output and the file listing of `display_parquet_files` and `display_csv_files` (src/datas.py:8-30), and everything in main.py (training, metrics, plots): they are outside the pipeline.
- Composite.TemperatureSquared: the contract states non-negativity and symmetry, and does not state that the square is positive for every non-zero temperature.
- Pipeline.ExampleOneStationLags and Pipeline.ExampleOneStationRollingMeans: the example is stated on rows already in time order. It does not start from three timestamp strings and go through the sort.
