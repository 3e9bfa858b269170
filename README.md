# Weather station analyses, modelled in Dafny

This project models the analysis core of `weatherProcessor.py`. The core works on a table of
readings. Each reading is a station id, a date and a temperature. Dates are ordinal time values,
not wall-clock times. The core answers three questions:

1. Which reading is the coldest? `get_minimum_temperature_station` returns that reading's station
   id and date.
2. Which station's temperature fluctuates most? `get_station_with_most_fluctuation` takes an
   optional inclusive date window. For each station it sums |t[i] − t[i−1]| over the temperatures
   it accepts, and it returns the station with the largest sum. It returns `0` when no sum is
   positive.
3. The time-bounded form, `get_station_with_most_fluctuation_time_bound`. It returns `-1` for bad
   bounds. Otherwise it runs question 2 with the window.

Dates and temperatures are exact `real`s.

Files:

- `weather_types.dfy` (module `WeatherTypes`) holds the `Reading` record. It also holds the window
  (`NoWindow | Between(start, end)`), a bound as a caller passes it (`Missing | NonNumeric | Num`),
  and `TimeWindow`. `TimeWindow` turns the two optional dates into a window. `InWindow` says
  whether a date lies inside a window; it is the negation of the test on weatherProcessor.py:92.
- `fluctuation_spec.dfy` (module `FluctuationSpec`) describes the fluctuation scan without its
  loop:
  - `Accepted`: the temperatures of a station that the scan accepts, in input order.
  - `Fluctuation`: the sum of absolute consecutive differences of a sequence.
  - `Total`: a station's final value in the scan's fluctuation map.
  - `MaxTotal`: the largest `Total` over the table's stations. It is defined over the candidate
    readings, not as a running maximum.
  - `MostFluctuation`: the station the scan reports. It is `0` when `MaxTotal` is `0`. Otherwise
    it is the station of the reading at which the largest total seen so far first reaches
    `MaxTotal`.

  The file also holds the lemmas that connect these functions.
- `weather_processor.dfy` (module `WeatherProcessor`) holds the source's functions:
  - The two loops are methods. The coldest-reading scan is one. The fluctuation scan is the other:
    it keeps `prevVal` and `fluctuation` as Dafny maps and has the early `continue`.
  - The time-bounded guard is a function.
  - The fluctuation method is proved equal to `MostFluctuation`.
- `scenarios.dfy` (module `Scenarios`) proves what the fluctuation query returns on one concrete
  five-reading table of two tied stations.

Behaviour of the code that the model keeps:

- **Ties.** The running maximum uses a strict `>` (weatherProcessor.py:96). A tie therefore goes
  to the station whose running total reached the maximum first, not to the station that appears
  first. On the table 68:10, 81:20, 68:12, 81:25, 68:9
  (dates 1, 1, 2, 2, 3), both stations total 5. The code reports 81, because 81 reaches 5 at the
  fourth reading and 68 reaches 5 only at the fifth. `Scenarios.TieGoesToFirstToReach` proves
  this.
- **Window and a station's first reading.** The code records a station's first reading before it
  ever checks the window (weatherProcessor.py:90, 99-100, 103). So that reading counts whatever its
  date. With the window [1.5, 3.5], station 81 above still totals 5, not 0.
  `Scenarios.FirstReadingIgnoresWindow` proves this.
- **Skip, no rebase.** A later reading outside the window is skipped by the `continue` at
  weatherProcessor.py:93. Its temperature does not become the station's previous value. The
  next accepted reading is compared with the last accepted one.
- **Bounds.** Line 124, the `None` check, can never return. When a bound is `None`, the
  comparison on line 123 already raises `TypeError`, and lines 125-127 turn it into `-1`. The same
  happens when one bound is a number and the other is not. The model gives `-1` for every bound
  that is missing or not a number. Two non-numbers that compare with each other are the exception;
  see "## Left out".

## Model

| member | source | states |
|---|---|---|
| `WeatherTypes.InWindow` | weatherProcessor.py:92 | a date is kept exactly when there is no window or it lies between start and end, both included; the negation of the skip test; no contract of its own, its use is stated by `TotalStep`, `LastAcceptedStep` and `AcceptedWindowed` |
| `WeatherTypes.TimeWindow` | weatherProcessor.py:81-83 | the scan is windowed exactly when both dates are given, and then by exactly those dates |
| `FluctuationSpec.Accepted` | weatherProcessor.py:89-103 | the temperatures of a station that the scan accepts, in input order: its first reading at any date, then each later reading dated inside the window; no contract of its own, its properties are stated by the lemmas below |
| `FluctuationSpec.Total` | weatherProcessor.py:95-100 | a station's value in `fluctuation_map`: the sum of absolute differences of its accepted temperatures; no contract of its own, see `TotalStep` and `AcceptedUnwindowed` |
| `FluctuationSpec.LastAccepted` | weatherProcessor.py:103 | a station's value in `prev_val_map`; a station with no reading has no entry, for which the model holds 0 |
| `FluctuationSpec.MaxOver` | weatherProcessor.py:87-98 | the largest total over the stations of a sequence of candidate readings never drops below the seed 0 |
| `FluctuationSpec.MaxTotal` | weatherProcessor.py:87-98 | the final `max_fluctuation`, the largest total over the table's stations, never drops below the seed 0 |
| `FluctuationSpec.MostFluctuation` | weatherProcessor.py:88-105 | the returned `max_station` is the seed 0 when no total is positive, and otherwise the station of a reading of the table |
| `FluctuationSpec.Ids` | weatherProcessor.py:90 | every station of a reading of the table is a key of the scan's maps |
| `FluctuationSpec.IdsOnly` | weatherProcessor.py:99-100 | a key of the scan's maps is the station of some reading of the table |
| `FluctuationSpec.Fluctuation` | weatherProcessor.py:95 | a sum of absolute differences is never negative; two values give their distance |
| `FluctuationSpec.FluctuationAppend` | weatherProcessor.py:95 | accepting one more temperature adds its distance from the previous accepted one |
| `FluctuationSpec.AcceptedNonEmpty` | weatherProcessor.py:90-103 | a station has accepted temperatures exactly when it occurs in the table |
| `FluctuationSpec.LastAcceptedIsLast` | weatherProcessor.py:103 | the previous value kept for a station is its last accepted temperature |
| `FluctuationSpec.LastAcceptedStep` | weatherProcessor.py:92-93 | a reading changes only its own station's previous value, and not at all when it is a later reading outside the window |
| `FluctuationSpec.TotalStep` | weatherProcessor.py:89-103 | one reading leaves other stations' totals alone; a first reading starts at 0 whatever its date; a later reading outside the window changes nothing; one inside it adds its distance from the last accepted temperature; a total never decreases |
| `FluctuationSpec.TotalPrefixMono` | weatherProcessor.py:95 | every station's total only grows as the scan goes on |
| `FluctuationSpec.AcceptedUnwindowed` | weatherProcessor.py:79 | without a window a station's total is the sum of abs(t[i] - t[i-1]) over all its readings in input order, other stations' readings interleaved |
| `FluctuationSpec.AcceptedWindowed` | weatherProcessor.py:82-103 | with a window, a station's accepted temperatures are its first reading's (any date) followed by those of its later readings dated inside the inclusive window |
| `FluctuationSpec.MaxOverBounds` | weatherProcessor.py:96-98 | the largest total over candidate stations bounds each of them and, unless 0, is one of them |
| `FluctuationSpec.MaxTotalBounds` | weatherProcessor.py:87 | the largest total bounds every station's total and, unless 0, is the total of a station of the table |
| `FluctuationSpec.MaxTotalZeroIff` | weatherProcessor.py:87-88 | the largest total is 0 exactly when every station's total is 0 |
| `FluctuationSpec.SingleReadingStations` | weatherProcessor.py:99-100 | when no station has two readings, every station accepts at most one temperature and totals 0 |
| `FluctuationSpec.MaxTotalStep` | weatherProcessor.py:96-98 | after one more reading the largest total is the larger of the previous one and that reading's station's new total |
| `FluctuationSpec.MaxTotalPrefixMono` | weatherProcessor.py:96-98 | the running maximum only grows as the scan goes on |
| `FluctuationSpec.ReachIndex` | weatherProcessor.py:96-97 | the reading at which the running maximum first reaches a value lies in the table |
| `FluctuationSpec.ReachIndexReaches` | weatherProcessor.py:96-97 | at that reading the running maximum reaches the value, and before it, it had not |
| `FluctuationSpec.MostFluctuationIsFirstToReachMax` | weatherProcessor.py:87-105 | the reported station is 0 when every total is 0; otherwise it occurs in the table, its total is the maximum, and its reading is the one that first lifted the running maximum to the final maximum |
| `FluctuationSpec.FirstToReachUnique` | weatherProcessor.py:96 | only one reading first lifts the running maximum to the final maximum, so ties are decided deterministically |
| `FluctuationSpec.MostFluctuationStep` | weatherProcessor.py:96-98 | the leader changes to a reading's station exactly when its new total is strictly greater than the running maximum |
| `WeatherProcessor.MinimumTemperatureStation` | weatherProcessor.py:43-65 | for a non-empty table, returns the station id and date of a reading whose temperature is at most every reading's, and no earlier reading is as cold |
| `WeatherProcessor.FirstReadingStep` | weatherProcessor.py:89-103 | a station's first reading, at any date, enters both maps with total 0 and its temperature, keeping them equal to the totals and last accepted temperatures; the running maximum and its station do not move |
| `WeatherProcessor.SkippedReadingStep` | weatherProcessor.py:92-93 | a later reading outside the window leaves both maps, the running maximum and its station as they are |
| `WeatherProcessor.AcceptedReadingStep` | weatherProcessor.py:95-103 | a later reading inside the window adds its distance from the previous value to its station's total, which is then the station's total after the reading; it becomes the previous value; the running maximum and its station move to it exactly when the new total is strictly greater |
| `WeatherProcessor.StationWithMostFluctuation` | weatherProcessor.py:67-105 | the imperative scan over the two maps returns exactly `MostFluctuation` of the table under the window given by the optional dates |
| `WeatherProcessor.StationWithMostFluctuationTimeBound` | weatherProcessor.py:108-129 | -1 when a bound is missing or not a number, or when start is after end; for numeric bounds with start <= end (equal allowed), the windowed scan's station, which is 0 or a station of the table with the largest windowed total |
| `Scenarios.TieTableIds` | weatherProcessor.py:90 | the tie table's stations are 68 and 81 |
| `Scenarios.TieTableTemps` | weatherProcessor.py:89-103 | the per-station temperature sequences of the tie table |
| `Scenarios.TieTableMax` | weatherProcessor.py:95 | on the tie table both stations total 5, the maximum |
| `Scenarios.TieTableReach` | weatherProcessor.py:96 | station 81 reaches 5 at the fourth reading, while the maximum before it was 2 |
| `Scenarios.TieGoesToFirstToReach` | weatherProcessor.py:96-98 | on a tie the scan reports the station that reached the maximum first (81), not the first to appear |
| `Scenarios.FirstReadingIgnoresWindow` | weatherProcessor.py:90-103 | a station's first reading counts even when it is dated outside the window |

## Left out

- `read_zip_dataset` and `read_dataset` (weatherProcessor.py:11-40): zip extraction, file
  reading, CSV parsing and printing. The model receives the readings as a `seq<Reading>`.
- `tests` and `main` (weatherProcessor.py:132-181): they read data files that are not part of
  this model and print results. The rounding to three places there only affects display.
- readWeather.py is not part of this model. It delegates to dataframe library calls whose
  tie-breaking and grouping order cannot be seen. It also filters before differencing, which
  rebases across skipped readings, unlike weatherProcessor.py.
- Floating point: temperatures and dates are exact reals, so there is no rounding, NaN or
  infinity. The `float("inf")` seed of the minimum scan is modelled by starting from the first
  reading; the first reading always replaces an infinite seed.
- `MinimumTemperatureStation`: requires a non-empty table, because the source fails on an empty
  one (`[].id` at weatherProcessor.py:61). That failure is not modelled.
- `StationWithMostFluctuationTimeBound`: two non-numeric bounds that compare with each other, such
  as two strings, give -1 in the model, like any other non-numeric bound. The source gives -1 for
  them only when the start compares greater than the end (line 123). Otherwise it passes them to
  the scan. There, when no station has a second reading (an empty table included), line 92 is
  never reached and the source returns 0. When a station does have a second reading, the
  comparison on line 92 raises a `TypeError` that nothing catches. Neither outcome is modelled.
- `StationWithMostFluctuation`: the model's dates are numbers. In the source, a non-numeric date
  given on its own is ignored, because the window applies only when both dates are given
  (weatherProcessor.py:81-83); the model also ignores a single date. When both dates are given, the
  test on line 92 compares with `start_date` first and stops there when the reading is earlier.
  So a `start_date` that does not compare with the readings' dates raises `TypeError` at the first
  later reading of a station. An `end_date` that does not compare raises only at the first later
  reading of a station dated at or after `start_date`; earlier ones are skipped by the `continue`
  on line 93 before the second comparison runs. When no such reading exists, the scan returns
  normally. None of this is modelled.
- The printed message on the `TypeError` path (weatherProcessor.py:126) is output only.
