/**
 * One invocation of the job, weather_etl.py lines 85-131: snapshot the keys
 * already in the sheet, backfill five days when the snapshot is empty,
 * take the first twelve forecast hours, keep the rows whose key is not in
 * the snapshot, and upload them under a header when the sheet needs one.
 *
 * The provider is a fetch oracle from fetch arguments to outcomes; the
 * clock is given as `now` (Unix seconds) and as the text of the
 * fetched-at cell. The run-level functions are stated for any row format;
 * a run uses FormatAt(fetchedAt), that is FormatRow.
 */
module Etl {
  import opened Outcomes
  import opened CivilTime
  import opened Endpoint
  import opened Rows
  import opened Dedup
  import opened Sheet

  const BackfillDays := 5
  const ForecastHours := 12

  /**
   * The provider as the script sees it through fetch_hourly_weather: the
   * outcome for a dt argument (None for the forecast). The argument fixes
   * the request, HourlyRequest(apiKey, dt). A failed fetch is any Err: the
   * script catches every exception alike, so the kind of a fetch's failure
   * (RequestFailed in practice) is not distinguished.
   */
  type Fetcher = Option<int> -> Result<seq<Hour>>

  /** The dt argument for the day daysAgo days before now. */
  function HistoryDt(now: int, daysAgo: int): Option<int> {
    Some(now - daysAgo * SecondsPerDay)
  }

  /** The historical fetch arguments, from `days` days ago down to one day ago. */
  function BackfillCalls(now: int, days: nat): (cs: seq<Option<int>>)
    ensures |cs| == days
    ensures forall i :: 0 <= i < days ==> cs[i] == HistoryDt(now, days - i)
  {
    if days == 0 then [] else [HistoryDt(now, days)] + BackfillCalls(now, days - 1)
  }

  /** Every fetch of a run, in the order issued. They do not depend on any fetch outcome. */
  function PlannedCalls(snapshot: set<string>, now: int): seq<Option<int>> {
    (if snapshot == {} then BackfillCalls(now, BackfillDays) else []) + [None]
  }

  /** The rows one historical day contributes: none when its fetch failed. */
  function DayRows(outcome: Result<seq<Hour>>, format: RowFormat): seq<Row> {
    match outcome
    case Err(_) => []
    case Ok(hours) => FormatHours(format, hours).rows
  }

  /** The backfill rows of days `days` days ago down to one day ago, in that order. */
  function BackfillRows(fetch: Fetcher, now: int, format: RowFormat, days: nat): seq<Row> {
    if days == 0 then []
    else DayRows(fetch(HistoryDt(now, days)), format)
         + BackfillRows(fetch, now, format, days - 1)
  }

  /** The forecast hours a run looks at: the first twelve, or all when fewer. */
  function ForecastWindow(hours: seq<Hour>): (w: seq<Hour>)
    ensures |w| <= ForecastHours && |w| <= |hours| && w == hours[..|w|]
    ensures |w| == ForecastHours || w == hours
  {
    if |hours| < ForecastHours then hours else hours[..ForecastHours]
  }

  /** The forecast stage succeeds when the fetch succeeds and every hour in the window formats. */
  predicate ForecastOk(fetch: Fetcher, format: RowFormat) {
    var outcome := fetch(None);
    outcome.Ok? && FormatHours(format, ForecastWindow(outcome.value)).complete
  }

  /** The forecast rows of a successful forecast stage. */
  function ForecastRows(fetch: Fetcher, format: RowFormat): (rows: seq<Row>)
    ensures |rows| <= ForecastHours
  {
    var outcome := fetch(None);
    if outcome.Ok? then FormatHours(format, ForecastWindow(outcome.value)).rows else []
  }

  /** All rows a run formats, before the dedup filter. */
  function Candidates(snapshot: set<string>, fetch: Fetcher, now: int, format: RowFormat): seq<Row> {
    (if snapshot == {} then BackfillRows(fetch, now, format, BackfillDays) else [])
    + ForecastRows(fetch, format)
  }

  /** The rows a successful run uploads. */
  function RowsToAdd(snapshot: set<string>, fetch: Fetcher, now: int, format: RowFormat): seq<Row> {
    Keep(Candidates(snapshot, fetch, now, format), snapshot)
  }

  /** The sheet after a run: uploaded rows on success, untouched on failure. */
  function SheetAfterRun(cells: seq<seq<string>>, fetch: Fetcher, now: int,
                         format: RowFormat): seq<seq<string>>
  {
    if ForecastOk(fetch, format)
    then Uploaded(cells, RowsToAdd(ExistingTimes(cells), fetch, now, format))
    else cells
  }

  // ---------------------------------------------------------------------
  // The run

  /**
   * Formats hours in order, appending each row whose key is not in the
   * snapshot to rowsToAdd, and stops at the first record that cannot be
   * formatted; rows appended before it stay.
   */
  method AppendFresh(rowsToAdd: seq<Row>, hours: seq<Hour>, snapshot: set<string>, format: RowFormat)
    returns (rows: seq<Row>, complete: bool)
    ensures complete == FormatHours(format, hours).complete
    ensures rows == rowsToAdd + Keep(FormatHours(format, hours).rows, snapshot)
  {
    rows, complete := rowsToAdd, true;
    var i := 0;
    ghost var done: seq<Row> := [];
    while i < |hours| && complete
      invariant 0 <= i <= |hours| && |done| == i
      invariant forall j :: 0 <= j < i ==> format(hours[j]) == Ok(done[j])
      invariant !complete ==> i < |hours| && format(hours[i]).Err?
      invariant rows == rowsToAdd + Keep(done, snapshot)
      decreases |hours| - i, complete
    {
      match format(hours[i]) {
        case Err(_) =>
          complete := false;
        case Ok(row) =>
          KeepAppend(done, [row], snapshot);
          if Key(row) !in snapshot {
            rows := rows + [row];
          }
          done := done + [row];
          i := i + 1;
      }
    }
    FormatHoursUnique(format, hours, done);
  }

  /**
   * Plans one run against a snapshot: makes the fetches, gathers the rows
   * to add, and reports whether the forecast stage succeeded (the script
   * exits with status 1 when it does not).
   */
  method PlanRun(snapshot: set<string>, fetch: Fetcher, now: int, format: RowFormat)
    returns (ok: bool, rowsToAdd: seq<Row>, calls: seq<Option<int>>)
    ensures calls == PlannedCalls(snapshot, now)
    ensures ok == ForecastOk(fetch, format)
    ensures ok ==> rowsToAdd == RowsToAdd(snapshot, fetch, now, format)
  {
    rowsToAdd, calls := [], [];
    if snapshot == {} {
      rowsToAdd, calls := Backfill(snapshot, fetch, now, format);
    }
    ghost var backfill := if snapshot == {} then BackfillRows(fetch, now, format, BackfillDays) else [];
    assert rowsToAdd == Keep(backfill, snapshot);
    calls := calls + [None];
    match fetch(None) {
      case Err(_) =>
        ok := false;
      case Ok(forecast) =>
        rowsToAdd, ok := AppendFresh(rowsToAdd, ForecastWindow(forecast), snapshot, format);
        KeepAppend(backfill, ForecastRows(fetch, format), snapshot);
    }
  }

  /**
   * The backfill loop: for days five down to one, fetch the day's hours
   * and append its fresh rows; a day whose fetch fails is skipped.
   */
  method Backfill(snapshot: set<string>, fetch: Fetcher, now: int, format: RowFormat)
    returns (rowsToAdd: seq<Row>, calls: seq<Option<int>>)
    ensures calls == BackfillCalls(now, BackfillDays)
    ensures rowsToAdd == Keep(BackfillRows(fetch, now, format, BackfillDays), snapshot)
  {
    rowsToAdd, calls := [], [];
    var daysAgo := BackfillDays;
    while daysAgo > 0
      invariant 0 <= daysAgo <= BackfillDays
      invariant calls == BackfillCalls(now, BackfillDays)[..BackfillDays - daysAgo]
      invariant rowsToAdd + Keep(BackfillRows(fetch, now, format, daysAgo), snapshot)
                == Keep(BackfillRows(fetch, now, format, BackfillDays), snapshot)
    {
      var dt := HistoryDt(now, daysAgo);
      CallsStep(now, BackfillDays - daysAgo);
      calls := calls + [dt];
      ghost var before := rowsToAdd;
      rowsToAdd := BackfillDay(rowsToAdd, fetch(dt), snapshot, format);
      BackfillStep(before, rowsToAdd, fetch, now, format, snapshot, daysAgo);
      daysAgo := daysAgo - 1;
    }
    assert rowsToAdd + [] == rowsToAdd;
    assert calls == BackfillCalls(now, BackfillDays);
  }

  lemma CallsStep(now: int, k: nat)
    requires k < BackfillDays
    ensures BackfillCalls(now, BackfillDays)[..k + 1]
         == BackfillCalls(now, BackfillDays)[..k] + [HistoryDt(now, BackfillDays - k)]
  {
    var cs := BackfillCalls(now, BackfillDays);
    assert cs[..k + 1] == cs[..k] + [cs[k]];
  }

  /**
   * One backfill day: a failed fetch adds nothing; otherwise the day's
   * hours are formatted in order, their fresh rows appended, and a record
   * that cannot be formatted ends the day.
   */
  method BackfillDay(rowsToAdd: seq<Row>, outcome: Result<seq<Hour>>, snapshot: set<string>, format: RowFormat)
    returns (rows: seq<Row>)
    ensures rows == rowsToAdd + Keep(DayRows(outcome, format), snapshot)
  {
    match outcome {
      case Err(_) =>
        rows := rowsToAdd;
        assert rows == rowsToAdd + [];
      case Ok(hours) =>
        var dayComplete;
        rows, dayComplete := AppendFresh(rowsToAdd, hours, snapshot, format);
    }
  }

  /** One pass of the backfill loop keeps its invariant. */
  lemma BackfillStep(before: seq<Row>, after: seq<Row>, fetch: Fetcher, now: int, format: RowFormat,
                     snapshot: set<string>, daysAgo: nat)
    requires daysAgo > 0
    requires after == before + Keep(DayRows(fetch(HistoryDt(now, daysAgo)), format), snapshot)
    ensures before + Keep(BackfillRows(fetch, now, format, daysAgo), snapshot)
         == after + Keep(BackfillRows(fetch, now, format, daysAgo - 1), snapshot)
  {
    var day := DayRows(fetch(HistoryDt(now, daysAgo)), format);
    var rest := BackfillRows(fetch, now, format, daysAgo - 1);
    assert BackfillRows(fetch, now, format, daysAgo) == day + rest;
    KeepAppend(day, rest, snapshot);
    calc {
      before + Keep(day + rest, snapshot);
      before + (Keep(day, snapshot) + Keep(rest, snapshot));
      (before + Keep(day, snapshot)) + Keep(rest, snapshot);
    }
  }

  /**
   * One invocation against the worksheet. Exit status 0 after an upload
   * (possibly of nothing), 1 when the forecast stage failed, in which case
   * the sheet is not touched. `calls` are the fetch arguments in order.
   */
  method RunEtl(sheet: Worksheet, fetch: Fetcher, now: int, fetchedAt: string)
    returns (exitStatus: int, calls: seq<Option<int>>)
    modifies sheet
    ensures calls == PlannedCalls(ExistingTimes(old(sheet.cells)), now)
    ensures exitStatus == (if ForecastOk(fetch, FormatAt(fetchedAt)) then 0 else 1)
    ensures sheet.cells == SheetAfterRun(old(sheet.cells), fetch, now, FormatAt(fetchedAt))
  {
    var snapshot := SnapshotKeys(sheet);
    var ok, rowsToAdd;
    ok, rowsToAdd, calls := PlanRun(snapshot, fetch, now, FormatAt(fetchedAt));
    if !ok {
      return 1, calls;
    }
    Upload(sheet, rowsToAdd);
    exitStatus := 0;
  }

  // ---------------------------------------------------------------------
  // Properties of a run

  /**
   * The requests of a run. With a non-empty snapshot the only request is
   * the forecast one, with no "dt". With an empty snapshot there are six:
   * five for the days five down to one before now, each on the timemachine
   * endpoint with that day's dt (unless the dt is 0, which is falsy), then
   * the forecast.
   */
  lemma RunRequests(snapshot: set<string>, apiKey: string, now: int)
    ensures snapshot != {} ==> PlannedCalls(snapshot, now) == [None]
    ensures forall c :: c in PlannedCalls(snapshot, now) && c.None? ==>
              HourlyRequest(apiKey, c).url == ForecastUrl && "dt" !in HourlyRequest(apiKey, c).params
    ensures snapshot == {} ==>
              |PlannedCalls(snapshot, now)| == BackfillDays + 1
              && PlannedCalls(snapshot, now)[BackfillDays] == None
              && forall i :: 0 <= i < BackfillDays && now != (BackfillDays - i) * SecondsPerDay ==>
                   var r := HourlyRequest(apiKey, PlannedCalls(snapshot, now)[i]);
                   r.url == TimemachineUrl && r.params["dt"] == Integer(now - (BackfillDays - i) * SecondsPerDay)
  {
  }

  /**
   * The two run modes. With an empty snapshot nothing is filtered: the
   * rows are the five backfill days, oldest first, then the forecast
   * window. Otherwise no historical fetch is made and at most twelve
   * rows, all from the forecast, are added.
   */
  lemma RunModes(snapshot: set<string>, fetch: Fetcher, now: int, format: RowFormat)
    ensures snapshot == {} ==>
              && PlannedCalls(snapshot, now)
                 == [HistoryDt(now, 5), HistoryDt(now, 4), HistoryDt(now, 3), HistoryDt(now, 2), HistoryDt(now, 1), None]
              && RowsToAdd(snapshot, fetch, now, format)
                 == BackfillRows(fetch, now, format, BackfillDays) + ForecastRows(fetch, format)
    ensures snapshot != {} ==>
              && PlannedCalls(snapshot, now) == [None]
              && RowsToAdd(snapshot, fetch, now, format) == Keep(ForecastRows(fetch, format), snapshot)
              && |RowsToAdd(snapshot, fetch, now, format)| <= ForecastHours
  {
    var candidates := Candidates(snapshot, fetch, now, format);
    if snapshot == {} {
      KeepAllFresh(candidates, snapshot);
      BackfillModeCalls(now);
    } else {
      var forecast := ForecastRows(fetch, format);
      assert [] + forecast == forecast;
      assert candidates == forecast;
    }
  }

  lemma BackfillModeCalls(now: int)
    ensures PlannedCalls({}, now)
         == [HistoryDt(now, 5), HistoryDt(now, 4), HistoryDt(now, 3), HistoryDt(now, 2), HistoryDt(now, 1), None]
  {
    var cs := BackfillCalls(now, BackfillDays);
    assert cs == [cs[0], cs[1], cs[2], cs[3], cs[4]];
  }

  /**
   * On a sheet that already holds data, a forecast window in which exactly
   * one hour's key is already stored adds every other forecast row, in
   * order: one row fewer than the window formatted.
   */
  lemma OneKnownForecastHourSkipped(snapshot: set<string>, fetch: Fetcher, now: int, format: RowFormat, j: int)
    requires snapshot != {}
    requires 0 <= j < |ForecastRows(fetch, format)| && Key(ForecastRows(fetch, format)[j]) in snapshot
    requires forall i :: 0 <= i < |ForecastRows(fetch, format)| && i != j ==>
               Key(ForecastRows(fetch, format)[i]) !in snapshot
    ensures var rows := ForecastRows(fetch, format);
      RowsToAdd(snapshot, fetch, now, format) == rows[..j] + rows[j + 1..]
      && |RowsToAdd(snapshot, fetch, now, format)| == |rows| - 1
  {
    RunModes(snapshot, fetch, now, format);
    KeepDropsOne(ForecastRows(fetch, format), snapshot, j);
  }

  /**
   * The rows of a run are the candidates it formats, in order, minus those
   * whose key the start-of-run snapshot holds: backfill rows (when
   * backfilling) first, then forecast rows.
   */
  lemma RowsToAddOrder(snapshot: set<string>, fetch: Fetcher, now: int,
                       format: RowFormat)
    ensures RowsToAdd(snapshot, fetch, now, format)
         == Keep(if snapshot == {} then BackfillRows(fetch, now, format, BackfillDays) else [], snapshot)
            + Keep(ForecastRows(fetch, format), snapshot)
    ensures forall r :: r in RowsToAdd(snapshot, fetch, now, format) ==> Key(r) !in snapshot
  {
    KeepAppend(if snapshot == {} then BackfillRows(fetch, now, format, BackfillDays) else [],
               ForecastRows(fetch, format), snapshot);
    KeepMembers(Candidates(snapshot, fetch, now, format), snapshot);
  }

  /**
   * A failed backfill day contributes nothing and does not stop the
   * others: the backfill equals the rows of the remaining days.
   */
  lemma {:induction false} FailedDaySkipped(fetch: Fetcher, now: int,
                                            format: RowFormat, days: nat, failed: nat)
    requires fetch(HistoryDt(now, failed)).Err?
    ensures BackfillRows(fetch, now, format, days) == OtherDays(fetch, now, format, days, failed)
  {
    if days > 0 {
      FailedDaySkipped(fetch, now, format, days - 1, failed);
    }
  }

  /** The backfill rows of days `days` down to 1 with day `skipped` left out. */
  function OtherDays(fetch: Fetcher, now: int, format: RowFormat,
                     days: nat, skipped: nat): seq<Row>
  {
    if days == 0 then []
    else (if days == skipped then [] else DayRows(fetch(HistoryDt(now, days)), format))
         + OtherDays(fetch, now, format, days - 1, skipped)
  }

  /**
   * Across runs no key is uploaded twice: whatever a second run fetches,
   * each row it adds has a key that was neither in the sheet before the
   * first run nor among the rows the first run added.
   */
  lemma SecondRunAddsNoKnownKey(cells: seq<seq<string>>,
                                fetch1: Fetcher, now1: int, fetchedAt1: string,
                                fetch2: Fetcher, now2: int, fetchedAt2: string)
    ensures var before := ExistingTimes(cells);
      var format1, format2 := FormatAt(fetchedAt1), FormatAt(fetchedAt2);
      var first := if ForecastOk(fetch1, format1)
                   then RowsToAdd(before, fetch1, now1, format1) else [];
      var cells1 := SheetAfterRun(cells, fetch1, now1, format1);
      forall r :: r in RowsToAdd(ExistingTimes(cells1), fetch2, now2, format2) ==>
        Key(r) !in before && Key(r) !in Keys(first)
  {
    var before := ExistingTimes(cells);
    var format1 := FormatAt(fetchedAt1);
    var first := if ForecastOk(fetch1, format1) then RowsToAdd(before, fetch1, now1, format1) else [];
    var cells1 := SheetAfterRun(cells, fetch1, now1, format1);
    assert cells1 == Uploaded(cells, first);
    CandidateKeys(before, fetch1, now1, fetchedAt1);
    SnapshotAfterUpload(cells, first);
    var after := ExistingTimes(cells1);
    KeepMembers(Candidates(after, fetch2, now2, FormatAt(fetchedAt2)), after);
  }

  /** Every row a run formats with FormatRow has a sixteen-character key. */
  lemma CandidateKeys(snapshot: set<string>, fetch: Fetcher, now: int, fetchedAt: string)
    ensures forall r :: r in Candidates(snapshot, fetch, now, FormatAt(fetchedAt)) ==> |Key(r)| == 16
    ensures forall r :: r in RowsToAdd(snapshot, fetch, now, FormatAt(fetchedAt)) ==> Key(r) != ""
  {
    var format := FormatAt(fetchedAt);
    FormatAtKeys(fetchedAt);
    BackfillKeys(fetch, now, format, BackfillDays);
    KeepMembers(Candidates(snapshot, fetch, now, format), snapshot);
    var outcome := fetch(None);
    if outcome.Ok? {
      FormattedKeys(format, ForecastWindow(outcome.value));
    }
  }

  lemma {:induction false} BackfillKeys(fetch: Fetcher, now: int, format: RowFormat, days: nat)
    requires KeysFixedWidth(format)
    ensures forall r :: r in BackfillRows(fetch, now, format, days) ==> |Key(r)| == 16
  {
    if days > 0 {
      BackfillKeys(fetch, now, format, days - 1);
      var outcome := fetch(HistoryDt(now, days));
      if outcome.Ok? {
        FormattedKeys(format, outcome.value);
      }
    }
  }
}
