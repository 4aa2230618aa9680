/** Optional values, the failures a run can meet, and results that carry either. */
module Outcomes {

  datatype Option<+T> = None | Some(value: T)

  /** Why an operation of the job did not produce a value. */
  datatype Failure =
    | RequestFailed      // HTTP error status, transport failure or undecodable JSON
    | MissingTimestamp   // an hourly record without a "dt" key
    | YearOutOfRange     // a timestamp whose UTC year lies outside 1..9999
    | NoWeatherEntry     // a "weather" list with no first entry
    | MissingWeatherId   // a first "weather" entry without an "id" key

  datatype Result<+T> = Ok(value: T) | Err(error: Failure)

  /** The value of an optional field, or the empty cell when it is absent. */
  function OrBlank(o: Option<string>): (s: string)
    ensures o.None? ==> s == ""
    ensures o.Some? ==> s == o.value
  {
    match o
    case None => ""
    case Some(v) => v
  }
}
