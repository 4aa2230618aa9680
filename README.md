# Weather ETL — a Dafny model of the ingestion and dedup core

`weather_etl.py` is a single-run job. It reads the time keys already
stored in column 1 of a Google Sheet. When that snapshot is empty, it
backfills five days of hourly history from the OpenWeatherMap one-call
"timemachine" endpoint, fetching day by day from five days ago to one day
ago. It then takes the first twelve hours of the current forecast and
shapes every hourly record into a six-cell row:

    Time, Temperature, Humidity, Visibility, WeatherCode, Fetched_At

The row's time cell is the record's UTC minute, written `YYYY-MM-DDTHH:MM`.
The job keeps the rows whose time key is not in the start-of-run snapshot.
It appends them under a header row when the sheet has no rows or its first
row reads back empty.

The model is split into these modules:

- `Outcomes`: `Option`, `Result` and the failures a run can meet.
- `CivilTime`: the conversion of a Unix timestamp to its UTC minute key.
  The calendar is the proleptic Gregorian one, years 1..9999, found by
  peeling 400/100/4/1-year cycles. The key has a read-back round trip.
- `Endpoint`: the request `fetch_hourly_weather` builds for its `dt`
  argument, using Python truthiness, so `0` asks for the forecast.
- `Rows`: `format_row`, with the four failures of a well-typed record
  (missing "dt", a year outside 1..9999, an empty "weather" list, a first
  entry without "id"), and formatting a list of records up to the first
  record that raises.
- `Dedup`: the filter against the snapshot.
- `Sheet`: the worksheet as a class over a grid of text cells, with the
  gspread reads. Column and row reads drop trailing blank cells, and
  appends go after the last stored row. It also holds the header-if-empty
  upload.
- `Etl`: the run itself. The backfill loop, the forecast loop and the
  upload are methods proved against specification functions:
  `PlannedCalls`, `BackfillRows`, `ForecastRows`, `RowsToAdd` and
  `SheetAfterRun`.

The model represents the outside world as follows:

- The provider is an oracle from the `dt` argument of `fetch_hourly_weather`
  (`None` for the forecast) to either a list of hourly records or a failure.
- The clock is given as `now` (Unix seconds) and as the text of the
  fetched-at cell.
- The run-level functions take the row format as a parameter. A run uses
  `FormatAt(fetchedAt)`, which is `format_row`.

## Model

| member | source | states |
|---|---|---|
| `CivilTime.DateOfDay` | weather_etl.py:72 | The date for a day count is a valid Gregorian date whose count of days since 1970-01-01 is exactly that day count. |
| `CivilTime.StampOf` | weather_etl.py:72 | The UTC stamp of t has a valid date, hour < 24 and minute < 60, and recomposes to t without its seconds. |
| `CivilTime.Render` | weather_etl.py:72 | The rendered key has the `YYYY-MM-DDTHH:MM` form (16 characters, `-`, `-`, `T`, `:` at positions 4, 7, 10, 13 and a decimal digit everywhere else), and reading its fields back gives the stamp again. |
| `CivilTime.ParseStampInjective` | weather_etl.py:72 | Two strings of the `YYYY-MM-DDTHH:MM` form that read back the same fields are the same text, so the form and the read-back fix the zero-padded key. |
| `CivilTime.TimeKey` | weather_etl.py:72 | A key exists exactly when t's UTC year is in 1..9999, and otherwise the failure is YearOutOfRange; a key has the `YYYY-MM-DDTHH:MM` form (digits and the four separators) and reads back as t's UTC date, hour and minute. |
| `CivilTime.TimeKeyDomain` | weather_etl.py:72 | A timestamp converts exactly when -62135596800 <= t <= 253402300799 (0001-01-01T00:00:00 to 9999-12-31T23:59:59 UTC). |
| `CivilTime.SameKeyIffSameMinute` | weather_etl.py:72 | Two timestamps in -62135596800..253402300799 both convert, and get the same key if and only if they lie in the same UTC minute (`t1 / 60 == t2 / 60`, floor division). |
| `CivilTime.DayNumberInjective` | weather_etl.py:72 | Two valid dates with the same day count are the same date. |
| `CivilTime.DaysBeforeYearStep` | weather_etl.py:72 | The day count to January 1st of year y+1 is the count to year y plus the length of year y (366 in leap years). |
| `Outcomes.OrBlank` | weather_etl.py:75-77 | An absent field gives the empty cell, and a present one gives its value. |
| `Endpoint.HourlyRequest` | weather_etl.py:53-65 | The URL is the timemachine endpoint, and "dt" is present with value dt, exactly when dt is truthy (present and non-zero). Otherwise the URL is the one-call forecast endpoint. Every other parameter is lat 28.61, lon 77.23, appid, units "metric" and exclude "minutely,daily,alerts,current". |
| `Endpoint.HistoricalDiffersOnlyInDt` | weather_etl.py:53-65 | For a non-zero dt, the historical parameters are the forecast parameters plus the single entry "dt". |
| `Endpoint.ZeroTimestampFetchesForecast` | weather_etl.py:60-65 | A dt of 0 builds the same request as no dt, because 0 is falsy. |
| `Rows.TimeCell` | weather_etl.py:72 | A missing "dt" fails with MissingTimestamp. A present one gives the time key of its value, which is 16 characters. |
| `Rows.WeatherCode` | weather_etl.py:78 | An absent "weather" gives the empty cell. An empty list fails with NoWeatherEntry, and a first entry without "id" fails with MissingWeatherId. Otherwise the cell is the first entry's id. |
| `Rows.FormatRow` | weather_etl.py:71-80 | A row is produced exactly when "dt" is present and convertible and the weather cell succeeds. The time failure comes first: MissingTimestamp or YearOutOfRange. A produced row is the key, temp, humidity, visibility (each blank when absent), weather code and fetched-at text. |
| `Rows.FormatHours` | weather_etl.py:98-101 | The rows format the leading records one for one. The result is complete exactly when every record formatted. An incomplete result stops at a record that fails. |
| `Rows.FormatHoursUnique` | weather_etl.py:98-101 | Any row list that formats the leading records one for one and ends at the first failure, or at the end of the list, is the result of FormatHours. |
| `Rows.FormatAtKeys` | weather_etl.py:71-80 | Every row format_row produces has a 16-character time key. |
| `Rows.FormattedKeys` | weather_etl.py:98-101 | For a format with 16-character keys, every formatted row has a 16-character key. |
| `Rows.RowKeysMatchIffSameMinute` | weather_etl.py:72 | Two records with convertible "dt" and a well-formed weather field both format, and their rows share a time key if and only if their "dt" lie in the same UTC minute. |
| `Dedup.Keep` | weather_etl.py:100-101 | The filter never lengthens the list. Which rows it keeps is stated by `Dedup.KeepMembers`, and their order by `Dedup.KeepAppend`. |
| `Dedup.KeepMembers` | weather_etl.py:100-101 | A row is kept if and only if it is one of the rows and its key is not in the snapshot. |
| `Dedup.KeepAppend` | weather_etl.py:98-115 | Filtering a concatenation filters each part and keeps their order. |
| `Dedup.KeepAllFresh` | weather_etl.py:92-101 | When no key is in the snapshot, every row is kept, including rows that repeat one another's key. |
| `Dedup.KeepIdempotent` | weather_etl.py:100-101 | Filtering twice against the same snapshot equals filtering once. |
| `Dedup.KeepAbsorbed` | weather_etl.py:100-101 | Once the kept rows' keys join the snapshot, filtering the same rows again keeps nothing. |
| `Dedup.KeepEmptyWhenCovered` | weather_etl.py:100-101 | Nothing is kept when every row's key is in the snapshot. |
| `Dedup.KeepDropsOne` | weather_etl.py:112-115 | When exactly one row's key is in the snapshot, the result is every other row in order, one row fewer. |
| `Sheet.Worksheet.RowCount` | weather_etl.py:126 | The row count is the number of stored rows, and zero exactly for a sheet with no rows. |
| `Sheet.Worksheet.RowValues1` | weather_etl.py:126 | Row 1 reads back as its cells up to its last non-blank cell, with only blank cells cut off, and as nothing for a sheet with no rows. |
| `Sheet.Worksheet.ColValues1` | weather_etl.py:85 | Column 1 reads back as every row's first cell, in row order, up to the last non-blank one, with only blank cells cut off. |
| `Sheet.Worksheet.AppendRow` | weather_etl.py:127 | The row goes after the last stored row, and nothing else changes. |
| `Sheet.Worksheet.AppendRows` | weather_etl.py:128 | The rows go, in order, after the last stored row, and nothing else changes. |
| `Sheet.SnapshotKeys` | weather_etl.py:85 | The snapshot is the set of column-1 values below the first cell, as the column read returns them. |
| `Sheet.SnapshotEmptyIff` | weather_etl.py:85 | The snapshot is empty exactly when every row below the first has a blank first cell. |
| `Sheet.SnapshotMembers` | weather_etl.py:85 | A non-blank key is in the snapshot exactly when some row below the first starts with it. |
| `Sheet.Upload` | weather_etl.py:124-128 | With no rows the sheet is unchanged. Otherwise one header is appended when the sheet has no rows or row 1 reads back empty, then the rows are appended. |
| `Sheet.UploadShape` | weather_etl.py:124-128 | An upload keeps every stored row in place, adds exactly the given rows at the end, and adds one header before them only when the sheet needs one. |
| `Sheet.FilledFirstRowGetsNoHeader` | weather_etl.py:126-128 | A sheet whose first row reads back non-empty receives only the rows. |
| `Sheet.HeaderOnce` | weather_etl.py:124-128 | After a non-empty upload into an empty sheet, or one with a filled first row, a later upload appends only its rows. |
| `Sheet.HeaderRepeatsBelowBlankFirstRow` | weather_etl.py:126-128 | If the sheet has stored rows but row 1 reads back blank (a single blank row included), two successive non-empty uploads each append a header before their rows, because the header is appended, never written into row 1. |
| `Sheet.SnapshotAfterUpload` | weather_etl.py:124-128 | After an upload of rows with non-blank keys, the snapshot still holds every earlier key and also every uploaded key. |
| `Etl.BackfillCalls` | weather_etl.py:94-95 | The historical fetch arguments are, in order, now - d*86400 for d = days down to 1. |
| `Etl.ForecastWindow` | weather_etl.py:112 | The window is a prefix of the forecast of at most 12 hours, and the whole forecast when it has fewer. |
| `Etl.ForecastRows` | weather_etl.py:110-115 | A forecast stage yields at most 12 rows. |
| `Etl.AppendFresh` | weather_etl.py:98-101 | The loop appends, in order, the formatted rows whose key is not in the snapshot. It stops at the first record that fails and keeps the rows appended before it. It reports whether every record formatted. |
| `Etl.BackfillDay` | weather_etl.py:96-104 | One backfill day appends nothing when its fetch failed, and otherwise appends the day's fresh rows up to the first record that fails. |
| `Etl.Backfill` | weather_etl.py:92-105 | The backfill loop fetches days 5 down to 1, in that order. It adds exactly the filtered backfill rows of those days, in order. |
| `Etl.PlanRun` | weather_etl.py:90-119 | A run's fetches are the planned ones. It succeeds exactly when the forecast fetch succeeds and every hour in the window formats. On success its rows are the filtered candidates. |
| `Etl.RunEtl` | weather_etl.py:85-131 | One invocation makes the planned fetches. It exits with 0, after uploading the run's rows, when the forecast stage succeeds. Otherwise it exits with 1 and leaves the sheet untouched. |
| `Etl.RunRequests` | weather_etl.py:92-111 | A non-empty snapshot makes one request, to the forecast endpoint, with no "dt". An empty snapshot makes six: five timemachine requests for the days 5..1 before now (unless that dt is 0), then the forecast. |
| `Etl.RunModes` | weather_etl.py:92-115 | With an empty snapshot, the fetches are days 5, 4, 3, 2, 1 then the forecast, and the rows are all backfill rows then all forecast rows, unfiltered. Otherwise only the forecast is fetched and at most 12 filtered rows are added. |
| `Etl.OneKnownForecastHourSkipped` | weather_etl.py:110-116 | On a sheet holding data, if exactly one forecast hour's key is already stored, every other forecast row is added, in order. |
| `Etl.RowsToAddOrder` | weather_etl.py:90-115 | The rows added are the filtered backfill rows followed by the filtered forecast rows. None of them has a key in the snapshot. |
| `Etl.FailedDaySkipped` | weather_etl.py:96-104 | A backfill day whose fetch fails contributes no rows and does not stop the other days. |
| `Etl.BackfillKeys` | weather_etl.py:96-101 | For a format with 16-character keys, every backfill row has a 16-character key, whichever days failed. |
| `Etl.CandidateKeys` | weather_etl.py:98-115 | Every row a run formats has a 16-character, hence non-blank, time key. |
| `Etl.SecondRunAddsNoKnownKey` | weather_etl.py:85-128 | Whatever a second run fetches, every row it adds has a key that was not in column 1 below the first row before the first run and was not among the first run's rows. |

## Left out

- The HTTP exchange is one oracle outcome per call: `requests.get`, its 30-second timeout, `raise_for_status` and JSON decoding. A reply without "hourly" arrives as an empty list of records. The oracle is keyed by the `dt` argument rather than by the request; `Endpoint.HourlyRequest` states which request each argument makes.
- Credentials, opening the spreadsheet, the API-key environment variable and their `exit(1)` paths (lines 13-36) are not modelled, because they come before the core and involve I/O only.
- Console output (`print`) is left out.
- The clock is read by `datetime.utcnow()` once per formatted row (line 79) and once per backfill day (line 95). The model takes one fetched-at text and one `now` for the whole run.
- The backfill `dt` at line 95 calls `.timestamp()` on a naive UTC datetime, which Python interprets in local time. The model uses `now - d*86400` exactly, as on a host whose local time is UTC.
- Temperature, humidity, visibility and the weather id are JSON numbers that gspread writes as numbers. The model carries them as the text of their cells.
- A "weather" key present with value `null` fails at line 78. The model represents only an absent or present list.
- `strftime("%Y")` pads years below 1000 differently on different platforms. The model always pads the year to four digits.
- `row_count` (line 126) is the worksheet's grid size in gspread. The model uses the number of stored rows. Its column and row reads drop trailing blank cells, but do not model the Sheets API's table detection over blank rows.
- The worksheet reads at lines 85 and 126 and the appends at lines 127-128 are assumed to succeed. In the source they sit outside any `try`, so a failure there ends the script with a traceback and a non-zero status; `Etl.RunEtl` promises exit 0 whenever the forecast stage succeeds. A failure of `append_rows` after `append_row` leaves a header with no data under it, and that partial write is not modelled.
- `Rows.FormatRow`: a "dt" that is not a number (a string or null) raises at line 72, and a "weather" value that is not a list or a first entry that is not a dictionary raises at line 78. A float "dt" converts in the source, and the record type, whose "dt" is an integer, does not represent it. The record type cannot represent the other values either, so the contract covers only the four failures of a well-typed record.
- Concurrent runs against the same sheet are not modelled. Each run is one sequential invocation.
- `weather_etl_openweathermap.py` is not part of this model.
- `Dedup.Keep`: its own contract states only that the result is no longer than the input. Its membership characterisation is `Dedup.KeepMembers` and its order behaviour is `Dedup.KeepAppend`.
