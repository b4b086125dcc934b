/** `WeatherFlow` (libs/weatherflow.py): the API-key guard, the wind-direction banding
    and the decisions of `get_wf_weather`. The HTTP request is a parameter, and the
    observation values other than the wind direction arrive already rendered as text. */
module WeatherFlow {
  import opened Wrappers
  import Text

  datatype Client = Client(apiKey: string)

  const MissingKey: string := "Missing WeatherFlow API key"

  /** The constructor: a key that is `None` or empty raises. */
  function Create(apiKey: Option<string>): (r: Result<Client, string>)
    ensures r.Failure? <==> apiKey.None? || apiKey.value == ""
    ensures r.Failure? ==> r.error == MissingKey
    ensures r.Success? ==> r.value.apiKey == apiKey.value
  {
    if apiKey.None? || apiKey.value == "" then Failure(MissingKey)
    else Success(Client(apiKey.value))
  }

  // ---------------------------------------------------------------------------
  // convert_degrees_to_cardinal
  // ---------------------------------------------------------------------------

  /** The eight labels, clockwise from north. */
  const Directions: seq<string> := ["N", "NE", "E", "SE", "S", "SW", "W", "NW"]

  /** `convert_degrees_to_cardinal`: half-open bands of 45 degrees, each closed at its lower
      bound, with north covering everything below 22.5 and from 337.5 up. */
  function ConvertDegreesToCardinal(degrees: real): (dir: string)
    ensures dir in Directions
    ensures degrees < 22.5 || degrees >= 337.5 ==> dir == "N"
  {
    if degrees < 22.5 then "N"
    else if degrees < 67.5 then "NE"
    else if degrees < 112.5 then "E"
    else if degrees < 157.5 then "SE"
    else if degrees < 202.5 then "S"
    else if degrees < 247.5 then "SW"
    else if degrees < 292.5 then "W"
    else if degrees < 337.5 then "NW"
    else "N"
  }

  /** The position of a direction's label in `Directions`, by arithmetic: within
      [22.5, 337.5) it is one more than the number of whole 45-degree steps above 22.5. */
  function BandIndex(degrees: real): (i: nat)
    ensures i < |Directions|
  {
    if degrees < 22.5 || degrees >= 337.5 then 0
    else
      var k := ((degrees - 22.5) / 45.0).Floor;
      assert 0 <= k < 7 by {
        assert 0.0 <= (degrees - 22.5) / 45.0 < 7.0;
      }
      k + 1
  }

  /** The chain of comparisons agrees with the arithmetic banding everywhere. */
  lemma CardinalByBand(degrees: real)
    ensures ConvertDegreesToCardinal(degrees) == Directions[BandIndex(degrees)]
  {
    if 22.5 <= degrees < 337.5 {
      var x := (degrees - 22.5) / 45.0;
      assert degrees == 22.5 + 45.0 * x;
      var k := x.Floor;
      assert k as real <= x < k as real + 1.0;
      if degrees < 67.5 { assert k == 0; }
      else if degrees < 112.5 { assert k == 1; }
      else if degrees < 157.5 { assert k == 2; }
      else if degrees < 202.5 { assert k == 3; }
      else if degrees < 247.5 { assert k == 4; }
      else if degrees < 292.5 { assert k == 5; }
      else { assert k == 6; }
    }
  }

  /** Every boundary belongs to the band above it. */
  lemma BoundariesGoUp()
    ensures ConvertDegreesToCardinal(22.5) == "NE" && ConvertDegreesToCardinal(67.5) == "E"
    ensures ConvertDegreesToCardinal(112.5) == "SE" && ConvertDegreesToCardinal(157.5) == "S"
    ensures ConvertDegreesToCardinal(202.5) == "SW" && ConvertDegreesToCardinal(247.5) == "W"
    ensures ConvertDegreesToCardinal(292.5) == "NW" && ConvertDegreesToCardinal(337.5) == "N"
  {
  }

  /** Within [22.5, 337.5) a larger angle never gets an earlier label. */
  lemma BandMonotone(d1: real, d2: real)
    requires 22.5 <= d1 <= d2 < 337.5
    ensures BandIndex(d1) <= BandIndex(d2)
  {
    var x1 := (d1 - 22.5) / 45.0;
    var x2 := (d2 - 22.5) / 45.0;
    assert x1 <= x2;
  }

  // ---------------------------------------------------------------------------
  // get_wf_weather
  // ---------------------------------------------------------------------------

  /** The request `requests.get` is given: the URL and the Authorization header. */
  datatype Request = Request(url: string, authorization: string)

  /** The fields of the observation the report uses; the wind direction is a number, the
      others are the text Python would print for them. */
  datatype Observation = Observation(
    publicName: string, temperature: string, feelsLike: string, humidity: string,
    windGust: string, windDirection: real, pressure: string, rainRate: string,
    rainAccumulated: string, solarRadiation: string, uv: string, lightningDistance: string)

  datatype Response = Response(statusCode: int, body: Observation)

  const StationEndpoint: string := "https://swd.weatherflow.com/swd/rest/observations/station/"
  const NoStation: string := "WeatherFlow station ID not provided."
  const NoData: string := "Could not retrieve weather data from WeatherFlow API."

  /** The request for one station: the station in the path, the key as a query parameter and as a bearer
      token. */
  function StationRequest(c: Client, station: string): (r: Request)
    ensures |r.url| == |StationEndpoint| + |station| + |"?api_key="| + |c.apiKey|
    ensures r.url[..|StationEndpoint|] == StationEndpoint
    ensures r.url[|StationEndpoint|..|StationEndpoint| + |station|] == station
    ensures r.url[|r.url| - |c.apiKey|..] == c.apiKey
    ensures r.authorization == "Bearer " + c.apiKey
  {
    Request(StationEndpoint + station + "?api_key=" + c.apiKey, "Bearer " + c.apiKey)
  }

  /** The report text `get_wf_weather` builds from an observation. */
  function Report(o: Observation): (r: string)
    ensures |r| > |o.publicName| + 2 && r[..|o.publicName| + 2] == "\n*" + o.publicName
    ensures Text.Contains(r, "km/h - " + ConvertDegreesToCardinal(o.windDirection) + " | ")
  {
    var head := "\n*" + o.publicName;
    var wind := "km/h - " + ConvertDegreesToCardinal(o.windDirection) + " | ";
    var before := " Weather Report*\n*Temperature/Feels Like:* " + o.temperature + "\U{00B0}C/" + o.feelsLike
      + "\U{00B0}C | *Humidity:* " + o.humidity + "% | *Wind Gust/Direction:* " + o.windGust;
    var after := "*Pressure:* " + o.pressure + " mb | *Rain Rate/Accumulated:* " + o.rainRate + "mm/hr/"
      + o.rainAccumulated + "mm | *Last Lightning Strike Distance:* " + o.lightningDistance
      + "km | *Solar Radiation:* " + o.solarRadiation + "W/m^2 | *UV Index:* " + o.uv + "\n            ";
    var rest := before + wind + after;
    Text.ContainsMiddle(before, wind, after);
    Text.ContainsAfter(head, rest, wind);
    PrefixOfAppend(head, rest);
    head + rest
  }

  lemma PrefixOfAppend(head: string, rest: string)
    requires |rest| > 0
    ensures |head + rest| > |head| && (head + rest)[..|head|] == head
  {
  }

  /** `get_wf_weather`: with no station it answers at once; otherwise it sends the request
      and reports on status 200 only. `fetch` stands for `requests.get`. */
  function GetWfWeather(c: Client, station: Option<string>, fetch: Request -> Response): (r: string)
    ensures station.None? || station.value == "" ==> r == NoStation
    ensures station.Some? && station.value != "" ==>
              var resp := fetch(StationRequest(c, station.value));
              r == if resp.statusCode == 200 then Report(resp.body) else NoData
  {
    if station.None? || station.value == "" then NoStation
    else
      var response := fetch(StationRequest(c, station.value));
      if response.statusCode == 200 then Report(response.body) else NoData
  }

  /** Without a station no request is made: the answer is the same whatever `requests.get`
      would have returned. */
  lemma NoRequestWithoutStation(c: Client, fetch: Request -> Response, other: Request -> Response)
    ensures GetWfWeather(c, None, fetch) == GetWfWeather(c, None, other) == NoStation
    ensures GetWfWeather(c, Some(""), fetch) == GetWfWeather(c, Some(""), other) == NoStation
  {
  }

  /** Different stations give different requests: the station can be read back from the
      URL. */
  lemma StationRequestInjective(c: Client, s1: string, s2: string)
    requires StationRequest(c, s1) == StationRequest(c, s2)
    ensures s1 == s2
  {
    var u := StationRequest(c, s1).url;
    assert |s1| == |s2|;
    assert s1 == u[|StationEndpoint|..|StationEndpoint| + |s1|] == s2;
  }

  /** A report starts with a newline, so it is neither of the fixed messages. */
  lemma ReportNotFixed(o: Observation)
    ensures Report(o) != NoStation && Report(o) != NoData
  {
    var r := Report(o);
    assert r[0] == r[..|o.publicName| + 2][0] == '\n';
  }

  /** The answer tells its case: the no-station message exactly when there is no station,
      the failure message exactly when the request for the station fails, and the
      station's report otherwise. */
  lemma WeatherCases(c: Client, station: Option<string>, fetch: Request -> Response)
    ensures var r := GetWfWeather(c, station, fetch);
            (r == NoStation <==> station.None? || station.value == "") &&
            (r == NoData <==> station.Some? && station.value != "" &&
                              fetch(StationRequest(c, station.value)).statusCode != 200)
    ensures var r := GetWfWeather(c, station, fetch);
            r != NoStation && r != NoData ==> r == Report(fetch(StationRequest(c, station.value)).body)
  {
    if station.Some? && station.value != "" {
      ReportNotFixed(fetch(StationRequest(c, station.value)).body);
    }
  }

  /** Only the answer to the station's own request matters: two `requests.get` that agree
      on it give the same text. */
  lemma OnlyStationRequest(c: Client, station: string, fetch: Request -> Response, other: Request -> Response)
    requires fetch(StationRequest(c, station)) == other(StationRequest(c, station))
    ensures GetWfWeather(c, Some(station), fetch) == GetWfWeather(c, Some(station), other)
  {
  }

  /** A report names the station first and always carries one of the eight labels. */
  lemma ReportShape(c: Client, station: string, fetch: Request -> Response)
    requires station != ""
    ensures var r := GetWfWeather(c, Some(station), fetch);
            r == NoData || exists d :: d in Directions && Text.Contains(r, "km/h - " + d + " | ")
  {
    var resp := fetch(StationRequest(c, station));
    if resp.statusCode == 200 {
      var d := ConvertDegreesToCardinal(resp.body.windDirection);
      assert d in Directions && Text.Contains(Report(resp.body), "km/h - " + d + " | ");
    }
  }
}
