/**
 * The weather endpoints' logic: which provider location an internal city is
 * resolved to, which search hits a free-text search keeps, how provider
 * replies are classified, and which URLs are requested. The HTTP client and
 * the JSON parser are parameters; every outbound request is recorded so that
 * "fails before any request" can be stated.
 */
module WeatherService {
  import opened Wrappers
  import opened JavaText
  import opened Faults
  import opened Hierarchy

  /** One entry of the provider's location search reply. */
  datatype Candidate = Candidate(id: int, region: string, country: string)

  /** What sending one GET request gave: a reply with status and body, or an exception. */
  datatype Exchange =
    | Received(status: int, body: string)
    | ConnectFailed(message: string)   // java.net.ConnectException
    | IoFailed(message: string)        // any other IOException from the client
    | Interrupted                      // InterruptedException

  /**
   * The weather provider as the service sees it: the reply to each URL, the
   * JSON parser (a tree, or the parse error's message), and the entries of a
   * parsed search reply. `J` is the parsed JSON tree, returned to callers as is.
   */
  datatype Provider<!J> = Provider(
    send: string -> Exchange,
    readTree: string -> Result<J, string>,
    candidates: J -> seq<Candidate>)

  /** A service call's outcome together with the URLs it requested, in order. */
  datatype Call<T> = Call(result: Result<T, Fault>, requests: seq<string>)

  const BaseUrl := "http://api.weatherapi.com/v1"

  const ForbiddenMessage := "Weather API key has been disabled. Please check that your API key is correct."
  const UnauthorizedMessage := "Weather API key is invalid or not exists. Please check you API key."
  const TimeoutMessage := "The request timed out. Ensure the Weather API is reachable and try again."
  const InterruptedMessage := "Operation was interrupted"
  const CityNotFound := "City not found"

  // ---------------------------------------------------------------------------
  // Outbound URLs

  /** How a possibly-null `Integer` is printed into a URL. */
  function IdText(id: Option<int>): (s: string)
    ensures |s| > 0
  {
    match id
    case None => "null"
    case Some(n) => DecimalText(n)
  }

  function SearchPrefix(key: string): string {
    BaseUrl + "/search.json?key=" + key + "&q="
  }

  function CurrentPrefix(key: string): string {
    BaseUrl + "/current.json?key=" + key + "&q=id:"
  }

  function ForecastPrefix(key: string): string {
    BaseUrl + "/forecast.json?key=" + key + "&q=id:"
  }

  /** The location search for a city name, appended as is. */
  function SearchUrl(key: string, city: string): (u: string)
    ensures |u| == |SearchPrefix(key)| + |city|
    ensures u[..|SearchPrefix(key)|] == SearchPrefix(key)
    ensures u[|SearchPrefix(key)|..] == city
  {
    SearchPrefix(key) + city
  }

  /** Current weather for a provider location id; a null id is sent as `id:null`. */
  function CurrentUrl(key: string, id: Option<int>): (u: string)
    ensures |u| == |CurrentPrefix(key)| + |IdText(id)|
    ensures u[..|CurrentPrefix(key)|] == CurrentPrefix(key)
    ensures u[|CurrentPrefix(key)|..] == IdText(id)
  {
    CurrentPrefix(key) + IdText(id)
  }

  /** The forecast query after `id:`: the id, then the days parameter. */
  function ForecastQuery(id: Option<int>, days: int): string {
    IdText(id) + "&" + DaysParameters(days)
  }

  /** The days parameter, then `hour=25`, which asks for no hourly data. */
  function DaysParameters(days: int): string {
    "days=" + DecimalText(days) + "&hour=25"
  }

  /** The forecast for a provider location id and number of days. */
  function ForecastUrl(key: string, id: Option<int>, days: int): (u: string)
    ensures |u| == |ForecastPrefix(key)| + |ForecastQuery(id, days)|
    ensures u[..|ForecastPrefix(key)|] == ForecastPrefix(key)
    ensures u[|ForecastPrefix(key)|..] == ForecastQuery(id, days)
  {
    ForecastPrefix(key) + ForecastQuery(id, days)
  }

  /** Printed ids consist of an optional '-' and digits, or are "null"; none contains '&'. */
  lemma IdTextHasNoAmpersand(id: Option<int>)
    ensures forall i :: 0 <= i < |IdText(id)| ==> IdText(id)[i] != '&'
  {
    if id.Some? && id.value < 0 {
      var t := NatText(-id.value);
      assert IdText(id) == "-" + t;
      forall i | 1 <= i < |IdText(id)|
        ensures IdText(id)[i] != '&'
      {
        assert IdText(id)[i] == t[i - 1];
      }
    }
  }

  /** Only the null id prints starting with 'n'. */
  lemma IdTextStart(id: Option<int>)
    ensures IdText(id)[0] == 'n' <==> id.None?
  {
    if id.Some? && id.value >= 0 {
      assert IsDigit(IdText(id)[0]);
    }
  }

  /** Distinct ids, null included, print differently. */
  lemma IdTextInjective(a: Option<int>, b: Option<int>)
    requires IdText(a) == IdText(b)
    ensures a == b
  {
    IdTextStart(a);
    IdTextStart(b);
    if a.Some? && b.Some? {
      DecimalTextInjective(a.value, b.value);
    }
  }

  /** The position of the first `c` in `s`, or `|s|` when there is none. */
  function IndexOf(s: string, c: char): (i: nat)
    ensures i <= |s|
  {
    if |s| == 0 || s[0] == c then 0 else 1 + IndexOf(s[1..], c)
  }

  lemma {:induction false} IndexOfSeparator(x: string, y: string, sep: char)
    requires forall i :: 0 <= i < |x| ==> x[i] != sep
    ensures IndexOf(x + [sep] + y, sep) == |x|
    decreases |x|
  {
    if |x| > 0 {
      assert (x + [sep] + y)[0] == x[0];
      assert (x + [sep] + y)[1..] == x[1..] + [sep] + y;
      IndexOfSeparator(x[1..], y, sep);
    }
  }

  /** Splitting a text at its first occurrence of a separator that neither left part contains. */
  lemma SplitAtSeparator(x: string, y: string, u: string, v: string, sep: char)
    requires x + [sep] + y == u + [sep] + v
    requires forall i :: 0 <= i < |x| ==> x[i] != sep
    requires forall i :: 0 <= i < |u| ==> u[i] != sep
    ensures x == u && y == v
  {
    var w := x + [sep] + y;
    IndexOfSeparator(x, y, sep);
    IndexOfSeparator(u, v, sep);
    assert x == w[..|x|];
    assert u == w[..|u|];
    assert y == w[|x| + 1..];
    assert v == w[|u| + 1..];
  }

  lemma SamePrefixCancels(p: string, a: string, b: string)
    requires p + a == p + b
    ensures a == b
  {
    assert a == (p + a)[|p|..];
    assert b == (p + b)[|p|..];
  }

  lemma SameSuffixCancels(a: string, b: string, q: string)
    requires a + q == b + q
    ensures a == b
  {
    assert a == (a + q)[..|a|];
    assert b == (b + q)[..|b|];
  }

  /** Different cities request different searches. */
  lemma SearchUrlInjective(key: string, a: string, b: string)
    ensures SearchUrl(key, a) == SearchUrl(key, b) <==> a == b
  {
  }

  /** Different provider ids, null included, request different current-weather URLs. */
  lemma CurrentUrlInjective(key: string, a: Option<int>, b: Option<int>)
    ensures CurrentUrl(key, a) == CurrentUrl(key, b) <==> a == b
  {
    if CurrentUrl(key, a) == CurrentUrl(key, b) {
      IdTextInjective(a, b);
    }
  }

  lemma DaysParametersInjective(d: int, e: int)
    requires DaysParameters(d) == DaysParameters(e)
    ensures d == e
  {
    SameSuffixCancels("days=" + DecimalText(d), "days=" + DecimalText(e), "&hour=25");
    SamePrefixCancels("days=", DecimalText(d), DecimalText(e));
    DecimalTextInjective(d, e);
  }

  /** The query part of a forecast URL after `id:` determines both id and days. */
  lemma ForecastQueryInjective(a: Option<int>, d: int, b: Option<int>, e: int)
    requires ForecastQuery(a, d) == ForecastQuery(b, e)
    ensures a == b && d == e
  {
    IdTextHasNoAmpersand(a);
    IdTextHasNoAmpersand(b);
    SplitAtSeparator(IdText(a), DaysParameters(d), IdText(b), DaysParameters(e), '&');
    IdTextInjective(a, b);
    DaysParametersInjective(d, e);
  }

  /** The forecast URL determines both the provider id and the number of days. */
  lemma ForecastUrlInjective(key: string, a: Option<int>, d: int, b: Option<int>, e: int)
    ensures ForecastUrl(key, a, d) == ForecastUrl(key, b, e) <==> a == b && d == e
  {
    if ForecastUrl(key, a, d) == ForecastUrl(key, b, e) {
      ForecastQueryInjective(a, d, b, e);
    }
  }

  // ---------------------------------------------------------------------------
  // Sending a request

  /**
   * `processRequest`: provider statuses 403, 401 and 408 become the matching
   * exceptions; any other reply, error statuses included, is handed back with
   * its body. Client exceptions propagate; an interrupt becomes
   * IllegalStateException.
   */
  function ProcessRequest(x: Exchange): (r: Result<string, Fault>)
    ensures r.Ok? <==> x.Received? && x.status != 401 && x.status != 403 && x.status != 408
    ensures r.Ok? ==> r.value == x.body
    ensures x.Received? && x.status == 403 ==> r == Err(ProviderForbidden(ForbiddenMessage))
    ensures x.Received? && x.status == 401 ==> r == Err(ProviderUnauthorized(UnauthorizedMessage))
    ensures x.Received? && x.status == 408 ==> r == Err(ProviderTimeout(TimeoutMessage))
    ensures x.ConnectFailed? ==> r == Err(ConnectFailure(x.message))
    ensures x.IoFailed? ==> r == Err(IoFailure(x.message))
    ensures x.Interrupted? ==> r == Err(IllegalState(InterruptedMessage))
  {
    match x
    case Received(status, body) =>
      if status == 403 then Err(ProviderForbidden(ForbiddenMessage))
      else if status == 401 then Err(ProviderUnauthorized(UnauthorizedMessage))
      else if status == 408 then Err(ProviderTimeout(TimeoutMessage))
      else Ok(body)
    case ConnectFailed(m) => Err(ConnectFailure(m))
    case IoFailed(m) => Err(IoFailure(m))
    case Interrupted => Err(IllegalState(InterruptedMessage))
  }

  /**
   * Composed with the exception handler, the provider's refusals reach the
   * caller with the provider's own status; an unreachable provider is a 503,
   * another I/O failure a 500, and an interrupt is left to the framework.
   */
  lemma ProviderFailureReachesCaller(x: Exchange)
    ensures x.Received? && x.status in {401, 403, 408} ==>
              ProcessRequest(x).Err? && Handle(ProcessRequest(x).error).Some?
              && Handle(ProcessRequest(x).error).value.status == x.status
    ensures x.ConnectFailed? ==> Handle(ProcessRequest(x).error) == Some(Reply(ServiceUnavailable, UnavailableBody))
    ensures x.IoFailed? ==> Handle(ProcessRequest(x).error) == Some(Reply(InternalServerError, UnexpectedPrefix + x.message))
    ensures x.Interrupted? ==> Handle(ProcessRequest(x).error).None?
  {
  }

  /**
   * One GET whose body is returned as a JSON tree: the request's failure, or
   * a body that does not parse (Jackson's parse exception is an IOException).
   */
  function Fetch<J>(p: Provider<J>, url: string): (r: Result<J, Fault>)
    ensures ProcessRequest(p.send(url)).Err? ==> r == Err(ProcessRequest(p.send(url)).error)
    ensures ProcessRequest(p.send(url)).Ok? ==>
              match p.readTree(ProcessRequest(p.send(url)).value)
              case Ok(tree) => r == Ok(tree)
              case Err(m) => r == Err(IoFailure(m))
  {
    var body :- ProcessRequest(p.send(url));
    match p.readTree(body)
    case Ok(tree) => Ok(tree)
    case Err(m) => Err(IoFailure(m))
  }

  // ---------------------------------------------------------------------------
  // Resolving an internal city to a provider location

  /** A search entry that lies in the given country and region, both compared exactly. */
  predicate Matches(c: Candidate, country: string, region: string) {
    c.country == country && c.region == region
  }

  /** The position of the last matching entry, if any. */
  function LastMatchIndex(cs: seq<Candidate>, country: string, region: string): (r: Option<nat>)
    ensures r.None? <==> forall i :: 0 <= i < |cs| ==> !Matches(cs[i], country, region)
    ensures r.Some? ==> r.value < |cs| && Matches(cs[r.value], country, region)
    ensures r.Some? ==> forall j :: r.value < j < |cs| ==> !Matches(cs[j], country, region)
  {
    if |cs| == 0 then None
    else if Matches(cs[|cs| - 1], country, region) then Some(|cs| - 1)
    else LastMatchIndex(cs[..|cs| - 1], country, region)
  }

  /**
   * The provider id a search reply resolves to: none for an empty reply;
   * otherwise the first entry's, unless some entry matches both country and
   * region, in which case the last such entry's.
   */
  function ChosenId(cs: seq<Candidate>, country: string, region: string): (r: Option<int>)
    ensures r.None? <==> |cs| == 0
    ensures |cs| == 1 ==> r == Some(cs[0].id)
    ensures |cs| > 0 && (forall i :: 0 <= i < |cs| ==> !Matches(cs[i], country, region)) ==> r == Some(cs[0].id)
    ensures forall i ::
              (0 <= i < |cs| && Matches(cs[i], country, region)
               && (forall j :: i < j < |cs| ==> !Matches(cs[j], country, region)))
              ==> r == Some(cs[i].id)
    ensures r.Some? ==> exists i :: 0 <= i < |cs| && cs[i].id == r.value
  {
    if |cs| == 0 then None
    else
      match LastMatchIndex(cs, country, region)
      case None => Some(cs[0].id)
      case Some(i) => Some(cs[i].id)
  }

  /**
   * The selection loop of `getIdFromSearchAPI` as written: take the first
   * entry, and only when there are several, scan them all without stopping,
   * overwriting the choice at every match. It always agrees with `ChosenId`,
   * so the size guard changes nothing.
   */
  method PickProviderId(cs: seq<Candidate>, country: string, region: string) returns (result: Option<int>)
    ensures result == ChosenId(cs, country, region)
  {
    result := None;
    if |cs| > 0 {
      result := Some(cs[0].id);
      if |cs| > 1 {
        var i := 0;
        while i < |cs|
          invariant 0 <= i <= |cs|
          invariant result == match LastMatchIndex(cs[..i], country, region)
                              case None => Some(cs[0].id)
                              case Some(j) => Some(cs[j].id)
        {
          assert cs[..i + 1][..i] == cs[..i];
          if Matches(cs[i], country, region) {
            result := Some(cs[i].id);
          }
          i := i + 1;
        }
        assert cs[..i] == cs;
      } else {
        assert LastMatchIndex(cs, country, region) == LastMatchIndex(cs[..0], country, region) || Matches(cs[0], country, region);
      }
    }
  }

  /**
   * `getIdFromSearchAPI`: one search request for the city's name. A failed
   * request propagates; a reply that does not parse yields no id; otherwise
   * the id `ChosenId` picks.
   */
  function IdFromSearch<J>(p: Provider<J>, key: string, country: string, region: string, city: string)
    : (r: Call<Option<int>>)
    ensures r.requests == [SearchUrl(key, city)]
    ensures r.result.Err? <==> ProcessRequest(p.send(SearchUrl(key, city))).Err?
    ensures r.result.Err? ==> r.result.error == ProcessRequest(p.send(SearchUrl(key, city))).error
    ensures r.result.Ok? ==>
              match p.readTree(ProcessRequest(p.send(SearchUrl(key, city))).value)
              case Err(_) => r.result.value.None?
              case Ok(tree) => r.result.value == ChosenId(p.candidates(tree), country, region)
  {
    var url := SearchUrl(key, city);
    match ProcessRequest(p.send(url))
    case Err(e) => Call(Err(e), [url])
    case Ok(body) =>
      match p.readTree(body)
      case Err(_) => Call(Ok(None), [url])
      case Ok(tree) => Call(Ok(ChosenId(p.candidates(tree), country, region)), [url])
  }

  /** `getCurrentWeatherByWeatherApiCityId`: one request, whatever the id, null included. */
  function CurrentByProviderId<J>(p: Provider<J>, key: string, id: Option<int>): (r: Call<J>)
    ensures r.requests == [CurrentUrl(key, id)]
    ensures r.result == Fetch(p, CurrentUrl(key, id))
  {
    Call(Fetch(p, CurrentUrl(key, id)), [CurrentUrl(key, id)])
  }

  /** `getWeatherForecastByWeatherApiCityId`: one request, whatever the id, null included. */
  function ForecastByProviderId<J>(p: Provider<J>, key: string, id: Option<int>, days: int): (r: Call<J>)
    ensures r.requests == [ForecastUrl(key, id, days)]
    ensures r.result == Fetch(p, ForecastUrl(key, id, days))
  {
    Call(Fetch(p, ForecastUrl(key, id, days)), [ForecastUrl(key, id, days)])
  }

  /** The search for an internal city: by its name, matched against its region and country names. */
  function SearchForCity<J>(s: Store, p: Provider<J>, key: string, id: Id): Call<Option<int>>
    requires Linked(s) && id in s.cities
  {
    var g := s.regions[s.cities[id].region];
    IdFromSearch(p, key, s.countries[g.country].name, g.name, s.cities[id].name)
  }

  /**
   * `getCurrentWeatherByCityId`: an unknown city fails with "City not found"
   * before any request. Otherwise the city's name is searched, and unless the
   * search request fails, current weather is requested for the resolved id,
   * even when there is none.
   */
  function CurrentWeatherByCityId<J>(s: Store, p: Provider<J>, key: string, id: Id): (r: Call<J>)
    requires Linked(s)
    ensures id !in s.cities ==> r == Call(Err(RuntimeFailure(CityNotFound)), [])
    ensures id in s.cities ==> |r.requests| >= 1 && r.requests[0] == SearchUrl(key, s.cities[id].name)
    ensures id in s.cities ==> (|r.requests| == 2 <==> SearchForCity(s, p, key, id).result.Ok?)
    ensures id in s.cities && SearchForCity(s, p, key, id).result.Err? ==>
              r == Call(Err(SearchForCity(s, p, key, id).result.error), [SearchUrl(key, s.cities[id].name)])
    ensures id in s.cities && SearchForCity(s, p, key, id).result.Ok? ==>
              var pid := SearchForCity(s, p, key, id).result.value;
              r.requests[1] == CurrentUrl(key, pid) && r.result == Fetch(p, CurrentUrl(key, pid))
  {
    if id !in s.cities then Call(Err(RuntimeFailure(CityNotFound)), [])
    else
      var search := SearchForCity(s, p, key, id);
      match search.result
      case Err(e) => Call(Err(e), search.requests)
      case Ok(pid) =>
        var w := CurrentByProviderId(p, key, pid);
        Call(w.result, search.requests + w.requests)
  }

  /** `getWeatherForecastByCityId`: as `CurrentWeatherByCityId`, ending with a forecast request. */
  function WeatherForecastByCityId<J>(s: Store, p: Provider<J>, key: string, id: Id, days: int): (r: Call<J>)
    requires Linked(s)
    ensures id !in s.cities ==> r == Call(Err(RuntimeFailure(CityNotFound)), [])
    ensures id in s.cities ==> |r.requests| >= 1 && r.requests[0] == SearchUrl(key, s.cities[id].name)
    ensures id in s.cities ==> (|r.requests| == 2 <==> SearchForCity(s, p, key, id).result.Ok?)
    ensures id in s.cities && SearchForCity(s, p, key, id).result.Err? ==>
              r == Call(Err(SearchForCity(s, p, key, id).result.error), [SearchUrl(key, s.cities[id].name)])
    ensures id in s.cities && SearchForCity(s, p, key, id).result.Ok? ==>
              var pid := SearchForCity(s, p, key, id).result.value;
              r.requests[1] == ForecastUrl(key, pid, days) && r.result == Fetch(p, ForecastUrl(key, pid, days))
  {
    if id !in s.cities then Call(Err(RuntimeFailure(CityNotFound)), [])
    else
      var search := SearchForCity(s, p, key, id);
      match search.result
      case Err(e) => Call(Err(e), search.requests)
      case Ok(pid) =>
        var w := ForecastByProviderId(p, key, pid, days);
        Call(w.result, search.requests + w.requests)
  }

  /**
   * A search reply with no entries, or one that does not parse, leaves no
   * provider id, and the weather request still goes out, for `id:null`.
   */
  lemma NoProviderIdStillRequested<J>(s: Store, p: Provider<J>, key: string, id: Id)
    requires Linked(s) && id in s.cities
    requires ProcessRequest(p.send(SearchUrl(key, s.cities[id].name))).Ok?
    requires var body := ProcessRequest(p.send(SearchUrl(key, s.cities[id].name))).value;
             p.readTree(body).Err? || p.candidates(p.readTree(body).value) == []
    ensures CurrentWeatherByCityId(s, p, key, id).requests
            == [SearchUrl(key, s.cities[id].name), BaseUrl + "/current.json?key=" + key + "&q=id:null"]
  {
    var r := CurrentWeatherByCityId(s, p, key, id);
    assert SearchForCity(s, p, key, id).result == Ok(None);
    assert r.requests[1] == CurrentUrl(key, None);
    assert CurrentUrl(key, None) == BaseUrl + "/current.json?key=" + key + ("&q=id:" + "null");
    assert "&q=id:" + "null" == "&q=id:null";
  }

  /** A provider refusing the search with 403 makes the caller's answer a 403 with the key message, after one request. */
  lemma SearchRefusalReachesCaller<J>(s: Store, p: Provider<J>, key: string, id: Id)
    requires Linked(s) && id in s.cities
    requires p.send(SearchUrl(key, s.cities[id].name)).Received?
    requires p.send(SearchUrl(key, s.cities[id].name)).status == 403
    ensures var r := CurrentWeatherByCityId(s, p, key, id);
            r.requests == [SearchUrl(key, s.cities[id].name)]
            && Handle(r.result.error) == Some(Reply(Forbidden, ForbiddenMessage))
  {
  }

  // ---------------------------------------------------------------------------
  // Free-text search

  /**
   * The branch `getCurrentWeatherForCitySearch` takes for one entry: no
   * filters keep it; region and country must both match when both are
   * given; otherwise the one given must match.
   */
  predicate Keep(c: Candidate, region: Option<string>, country: Option<string>) {
    if region.None? && country.None? then true
    else if region.Some? then
      if country.Some? then c.country == country.value && c.region == region.value
      else c.region == region.value
    else c.country == country.value
  }

  /** The four branches are one rule: each filter that is given must match. */
  lemma KeepIsConjunction(c: Candidate, region: Option<string>, country: Option<string>)
    ensures Keep(c, region, country) <==>
              (region.None? || c.region == region.value) && (country.None? || c.country == country.value)
  {
  }

  /** The entries the search keeps, in the provider's order. */
  function Kept(cs: seq<Candidate>, region: Option<string>, country: Option<string>): (r: seq<Candidate>)
    ensures |r| <= |cs|
    ensures forall c :: c in r <==> c in cs && Keep(c, region, country)
  {
    if |cs| == 0 then []
    else (if Keep(cs[0], region, country) then [cs[0]] else []) + Kept(cs[1..], region, country)
  }

  /** Filtering a concatenation filters each part in place: the provider's order is kept. */
  lemma {:induction false} KeptOfConcat(a: seq<Candidate>, b: seq<Candidate>, region: Option<string>, country: Option<string>)
    ensures Kept(a + b, region, country) == Kept(a, region, country) + Kept(b, region, country)
    decreases |a|
  {
    if |a| == 0 {
      assert a + b == b;
    } else {
      assert (a + b)[0] == a[0];
      assert (a + b)[1..] == a[1..] + b;
      KeptOfConcat(a[1..], b, region, country);
    }
  }

  /** With neither region nor country, every entry is kept. */
  lemma {:induction false} KeptWithoutFilters(cs: seq<Candidate>)
    ensures Kept(cs, None, None) == cs
    decreases |cs|
  {
    if |cs| > 0 {
      KeptWithoutFilters(cs[1..]);
      assert [cs[0]] + cs[1..] == cs;
    }
  }

  /** Filtering twice by the same filters changes nothing. */
  lemma {:induction false} KeptIdempotent(cs: seq<Candidate>, region: Option<string>, country: Option<string>)
    ensures Kept(Kept(cs, region, country), region, country) == Kept(cs, region, country)
    decreases |cs|
  {
    if |cs| > 0 {
      var head := if Keep(cs[0], region, country) then [cs[0]] else [];
      var tail := Kept(cs[1..], region, country);
      KeptOfConcat(head, tail, region, country);
      KeptIdempotent(cs[1..], region, country);
      if Keep(cs[0], region, country) {
        assert Kept(head, region, country) == [cs[0]] + Kept([], region, country);
      }
    }
  }

  /** The current-weather request for one search entry. */
  function EntryUrl(key: string, c: Candidate): string {
    CurrentUrl(key, Some(c.id))
  }

  /** The outcomes of the current-weather requests for the entries, in order. */
  function EntryOutcomes<J>(p: Provider<J>, key: string, cs: seq<Candidate>): (r: seq<Result<J, Fault>>)
    ensures |r| == |cs|
  {
    seq(|cs|, i requires 0 <= i < |cs| => Fetch(p, EntryUrl(key, cs[i])))
  }

  /** The current-weather requests for the entries, in order. */
  function EntryUrls(key: string, cs: seq<Candidate>): (r: seq<string>)
    ensures |r| == |cs|
  {
    seq(|cs|, i requires 0 <= i < |cs| => EntryUrl(key, cs[i]))
  }

  /** The position of the first failed outcome, or `|rs|` when none failed. */
  function FirstFailure<T>(rs: seq<Result<T, Fault>>): (n: nat)
    ensures n <= |rs|
    ensures forall i :: 0 <= i < n ==> rs[i].Ok?
    ensures n < |rs| ==> rs[n].Err?
  {
    if |rs| == 0 || rs[0].Err? then 0
    else
      var n := FirstFailure(rs[1..]);
      assert forall i :: 1 <= i < n + 1 ==> rs[i] == rs[1..][i - 1];
      1 + n
  }

  /** The values of outcomes that all succeeded, in order. */
  function Replies<T>(rs: seq<Result<T, Fault>>): (r: seq<T>)
    requires forall i :: 0 <= i < |rs| ==> rs[i].Ok?
    ensures |r| == |rs|
    ensures forall i :: 0 <= i < |rs| ==> rs[i] == Ok(r[i])
  {
    seq(|rs|, i requires 0 <= i < |rs| => rs[i].value)
  }

  /**
   * One request per entry, in order, stopping at the first failure, which
   * becomes the result: the requests made are those up to and including the
   * failing one. `rs[i]` is the outcome of the request `urls[i]`.
   */
  function FetchEach<T>(rs: seq<Result<T, Fault>>, urls: seq<string>): (r: Call<seq<T>>)
    requires |rs| == |urls|
    ensures r.result.Ok? <==> forall i :: 0 <= i < |rs| ==> rs[i].Ok?
    ensures r.result.Ok? ==> |r.result.value| == |rs| == |r.requests|
    ensures r.result.Ok? ==> forall i :: 0 <= i < |rs| ==> rs[i] == Ok(r.result.value[i])
    ensures |r.requests| <= |urls| && r.requests == urls[..|r.requests|]
    ensures r.result.Err? ==>
              && |r.requests| > 0
              && rs[|r.requests| - 1] == Err(r.result.error)
              && forall i :: 0 <= i < |r.requests| - 1 ==> rs[i].Ok?
  {
    var n := FirstFailure(rs);
    if n < |rs| then Call(Err(rs[n].error), urls[..n + 1])
    else Call(Ok(Replies(rs)), urls)
  }

  /**
   * `getCurrentWeatherForCitySearch`: one search request; a failed request or
   * an unparsable reply fails the call; otherwise one current-weather request
   * per kept entry, in the provider's order, and their replies in that order.
   */
  function CurrentWeatherForCitySearch<J>(p: Provider<J>, key: string, city: string,
                                          region: Option<string>, country: Option<string>): (r: Call<seq<J>>)
    ensures |r.requests| >= 1 && r.requests[0] == SearchUrl(key, city)
    ensures Fetch(p, SearchUrl(key, city)).Err? ==>
              r == Call(Err(Fetch(p, SearchUrl(key, city)).error), [SearchUrl(key, city)])
    ensures Fetch(p, SearchUrl(key, city)).Ok? ==>
              var kept := Kept(p.candidates(Fetch(p, SearchUrl(key, city)).value), region, country);
              var rest := FetchEach(EntryOutcomes(p, key, kept), EntryUrls(key, kept));
              r.result == rest.result && r.requests[1..] == rest.requests
  {
    var url := SearchUrl(key, city);
    match Fetch(p, url)
    case Err(e) => Call(Err(e), [url])
    case Ok(tree) =>
      var kept := Kept(p.candidates(tree), region, country);
      var rest := FetchEach(EntryOutcomes(p, key, kept), EntryUrls(key, kept));
      Call(rest.result, [url] + rest.requests)
  }

  /**
   * When every request succeeds, the free-text search answers with one
   * current-weather reply per kept entry, in the provider's order, after
   * exactly one request more than there are kept entries.
   */
  lemma CitySearchAnswersPerKeptEntry<J>(p: Provider<J>, key: string, city: string,
                                         region: Option<string>, country: Option<string>, tree: J)
    requires Fetch(p, SearchUrl(key, city)) == Ok(tree)
    requires CurrentWeatherForCitySearch(p, key, city, region, country).result.Ok?
    ensures var kept := Kept(p.candidates(tree), region, country);
            var r := CurrentWeatherForCitySearch(p, key, city, region, country);
            && |r.result.value| == |kept|
            && |r.requests| == |kept| + 1
            && (forall i :: 0 <= i < |kept| ==>
                  Keep(kept[i], region, country)
                  && r.requests[i + 1] == CurrentUrl(key, Some(kept[i].id))
                  && Fetch(p, r.requests[i + 1]) == Ok(r.result.value[i]))
  {
    var kept := Kept(p.candidates(tree), region, country);
    var r := CurrentWeatherForCitySearch(p, key, city, region, country);
    forall i | 0 <= i < |kept|
      ensures Keep(kept[i], region, country)
    {
      assert kept[i] in kept;
    }
  }
}
