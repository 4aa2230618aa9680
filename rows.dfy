/**
 * Shaping one provider hourly record into a six-cell sheet row, and
 * formatting a list of records until the first one that cannot be shaped.
 */
module Rows {
  import opened Outcomes
  import opened CivilTime

  /** One entry of an hourly record's "weather" list; only its "id" is read. */
  datatype Condition = Condition(id: Option<string>)

  /**
   * An hourly record as decoded from the provider's JSON. Every key may be
   * absent; measurements are carried as the text the sheet will hold.
   */
  datatype Hour = Hour(
    dt: Option<int>,
    temp: Option<string>,
    humidity: Option<string>,
    visibility: Option<string>,
    weather: Option<seq<Condition>>)

  /** Time, temperature, humidity, visibility, weather code, fetched-at. */
  type Row = r: seq<string> | |r| == 6 witness ["", "", "", "", "", ""]

  /** The dedup key of a row: its time cell. */
  function Key(r: Row): string {
    r[0]
  }

  /** The weather-code cell: the id of the first "weather" entry, blank without "weather". */
  function WeatherCode(weather: Option<seq<Condition>>): (r: Result<string>)
    ensures weather.None? ==> r == Ok("")
    ensures weather.Some? && weather.value == [] ==> r == Err(NoWeatherEntry)
    ensures weather.Some? && weather.value != [] ==>
              r == (if weather.value[0].id.Some? then Ok(weather.value[0].id.value) else Err(MissingWeatherId))
  {
    match weather
    case None => Ok("")
    case Some(entries) =>
      if entries == [] then Err(NoWeatherEntry)
      else if entries[0].id.None? then Err(MissingWeatherId)
      else Ok(entries[0].id.value)
  }

  /** The time cell: the minute key of "dt", which must be present. */
  function TimeCell(dt: Option<int>): (r: Result<string>)
    ensures dt.None? ==> r == Err(MissingTimestamp)
    ensures dt.Some? ==> r == TimeKey(dt.value)
    ensures r.Ok? ==> |r.value| == 16
  {
    match dt
    case None => Err(MissingTimestamp)
    case Some(t) => TimeKey(t)
  }

  /**
   * The sheet row for hourly record h, stamped with the clock text
   * fetchedAt. The time cell is evaluated first, so a missing or
   * unconvertible "dt" is the failure reported even when "weather" is bad.
   */
  function FormatRow(h: Hour, fetchedAt: string): (r: Result<Row>)
    ensures r.Ok? <==> TimeCell(h.dt).Ok? && WeatherCode(h.weather).Ok?
    ensures TimeCell(h.dt).Err? ==> r == Err(TimeCell(h.dt).error)
    ensures TimeCell(h.dt).Ok? && WeatherCode(h.weather).Err? ==> r == Err(WeatherCode(h.weather).error)
    ensures r.Ok? ==>
              r.value == [TimeCell(h.dt).value, OrBlank(h.temp), OrBlank(h.humidity), OrBlank(h.visibility),
                          WeatherCode(h.weather).value, fetchedAt]
  {
    match TimeCell(h.dt)
    case Err(e) => Err(e)
    case Ok(key) =>
      match WeatherCode(h.weather)
      case Err(e) => Err(e)
      case Ok(code) =>
        Ok([key, OrBlank(h.temp), OrBlank(h.humidity), OrBlank(h.visibility), code, fetchedAt])
  }

  /** How records are shaped: any function from a record to a row or a failure. */
  type RowFormat = Hour -> Result<Row>

  /** The shaping a run uses: FormatRow with the run's fetched-at text. */
  function FormatAt(fetchedAt: string): RowFormat {
    h => FormatRow(h, fetchedAt)
  }

  /** Rows of a record list up to the first record that fails, and whether none failed. */
  datatype Formatted = Formatted(rows: seq<Row>, complete: bool)

  /**
   * Formats hours in order and stops at the first record the format
   * rejects: the rows formatted before it are kept.
   */
  function FormatHours(format: RowFormat, hours: seq<Hour>): (f: Formatted)
    ensures |f.rows| <= |hours|
    ensures f.complete <==> |f.rows| == |hours|
    ensures forall i :: 0 <= i < |f.rows| ==> format(hours[i]) == Ok(f.rows[i])
    ensures !f.complete ==> format(hours[|f.rows|]).Err?
  {
    if hours == [] then Formatted([], true)
    else
      match format(hours[0])
      case Err(_) => Formatted([], false)
      case Ok(row) =>
        var rest := FormatHours(format, hours[1..]);
        Formatted([row] + rest.rows, rest.complete)
  }

  /**
   * FormatHours is determined by its contract: rows that format the
   * leading records one for one and end at the first failure or at the
   * end of the list are its result.
   */
  lemma {:induction false} FormatHoursUnique(format: RowFormat, hours: seq<Hour>, rows: seq<Row>)
    requires |rows| <= |hours|
    requires forall j :: 0 <= j < |rows| ==> format(hours[j]) == Ok(rows[j])
    requires |rows| < |hours| ==> format(hours[|rows|]).Err?
    ensures FormatHours(format, hours) == Formatted(rows, |rows| == |hours|)
  {
    if hours == [] {
    } else if rows == [] {
      assert format(hours[0]).Err?;
    } else {
      assert format(hours[0]) == Ok(rows[0]);
      forall j | 0 <= j < |rows| - 1
        ensures format(hours[1..][j]) == Ok(rows[1..][j])
      {
        assert hours[1..][j] == hours[j + 1];
      }
      FormatHoursUnique(format, hours[1..], rows[1..]);
      assert [rows[0]] + rows[1..] == rows;
    }
  }

  /** A format whose every row has a sixteen-character time key. */
  ghost predicate KeysFixedWidth(format: RowFormat) {
    forall h :: format(h).Ok? ==> |Key(format(h).value)| == 16
  }

  /** FormatRow's keys are sixteen characters wide. */
  lemma FormatAtKeys(fetchedAt: string)
    ensures KeysFixedWidth(FormatAt(fetchedAt))
  {
    forall h | FormatAt(fetchedAt)(h).Ok? ensures |Key(FormatAt(fetchedAt)(h).value)| == 16 {
      assert FormatAt(fetchedAt)(h) == FormatRow(h, fetchedAt);
    }
  }

  /** Every row formatted from a record list has a sixteen-character time key. */
  lemma FormattedKeys(format: RowFormat, hours: seq<Hour>)
    requires KeysFixedWidth(format)
    ensures forall r :: r in FormatHours(format, hours).rows ==> |Key(r)| == 16
  {
    var rows := FormatHours(format, hours).rows;
    forall r | r in rows ensures |Key(r)| == 16 {
      var i :| 0 <= i < |rows| && rows[i] == r;
      assert format(hours[i]) == Ok(r);
    }
  }

  /** Two shaped rows share a key exactly when their records' timestamps share a UTC minute. */
  lemma RowKeysMatchIffSameMinute(h1: Hour, h2: Hour, fetchedAt: string)
    requires h1.dt.Some? && MinTimestamp <= h1.dt.value <= MaxTimestamp && WeatherCode(h1.weather).Ok?
    requires h2.dt.Some? && MinTimestamp <= h2.dt.value <= MaxTimestamp && WeatherCode(h2.weather).Ok?
    ensures FormatRow(h1, fetchedAt).Ok? && FormatRow(h2, fetchedAt).Ok?
    ensures Key(FormatRow(h1, fetchedAt).value) == Key(FormatRow(h2, fetchedAt).value)
        <==> h1.dt.value / 60 == h2.dt.value / 60
  {
    SameKeyIffSameMinute(h1.dt.value, h2.dt.value);
  }
}
