/**
 * Choosing the provider request for an hourly fetch: the timemachine
 * endpoint with a "dt" parameter for a truthy timestamp, the one-call
 * forecast endpoint otherwise. The HTTP exchange itself is not modelled:
 * a run passes the dt argument to an oracle that stands for the whole of
 * the fetch, request and response.
 */
module Endpoint {
  import opened Outcomes

  const ForecastUrl := "https://api.openweathermap.org/data/2.5/onecall"
  const TimemachineUrl := "https://api.openweathermap.org/data/2.5/onecall/timemachine"
  const Latitude: real := 28.61
  const Longitude: real := 77.23
  const Units := "metric"
  const Exclude := "minutely,daily,alerts,current"

  /** A query-string value as the request library receives it. */
  datatype Param = Text(text: string) | Decimal(number: real) | Integer(whole: int)

  datatype Request = Request(url: string, params: map<string, Param>)

  /** The parameters every hourly request carries. */
  function BaseParams(apiKey: string): map<string, Param> {
    map["lat" := Decimal(Latitude), "lon" := Decimal(Longitude), "appid" := Text(apiKey),
        "units" := Text(Units), "exclude" := Text(Exclude)]
  }

  /** Python truthiness of the optional dt argument: None and 0 are false. */
  predicate Truthy(dt: Option<int>) {
    dt.Some? && dt.value != 0
  }

  /**
   * The request for the hours of dt's day when dt is truthy, and for the
   * current forecast otherwise.
   */
  function HourlyRequest(apiKey: string, dt: Option<int>): (r: Request)
    ensures r.url == TimemachineUrl <==> Truthy(dt)
    ensures r.url == ForecastUrl <==> !Truthy(dt)
    ensures "dt" in r.params <==> Truthy(dt)
    ensures Truthy(dt) ==> r.params["dt"] == Integer(dt.value)
    ensures forall k :: k != "dt" ==> (k in r.params <==> k in BaseParams(apiKey))
    ensures forall k :: k != "dt" && k in r.params ==> r.params[k] == BaseParams(apiKey)[k]
  {
    var params := BaseParams(apiKey);
    if Truthy(dt) then Request(TimemachineUrl, params["dt" := Integer(dt.value)])
    else Request(ForecastUrl, params)
  }

  /** The forecast request and a historical request differ only in the URL and the "dt" entry. */
  lemma HistoricalDiffersOnlyInDt(apiKey: string, dt: int)
    requires dt != 0
    ensures HourlyRequest(apiKey, Some(dt)).params - {"dt"} == HourlyRequest(apiKey, None).params
    ensures HourlyRequest(apiKey, Some(dt)).params
         == HourlyRequest(apiKey, None).params["dt" := Integer(dt)]
  {
    var h, f := HourlyRequest(apiKey, Some(dt)).params, HourlyRequest(apiKey, None).params;
    assert "dt" !in f;
  }

  /** A zero timestamp is falsy, so it asks for the forecast, exactly as no timestamp does. */
  lemma ZeroTimestampFetchesForecast(apiKey: string)
    ensures HourlyRequest(apiKey, Some(0)) == HourlyRequest(apiKey, None)
  {
  }
}
