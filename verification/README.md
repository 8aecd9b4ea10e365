# Weather-by-city service: a Dafny model

This project models the core of a small Spring service. The service stores a
Country → Region → City hierarchy and answers weather requests for stored
cities by asking an external weather provider (weatherapi.com). Four things
are modelled:

- **The hierarchy store.**
  - The three tables are maps from surrogate id to record (`Hierarchy.Store`).
  - The entity mappings' constraints form one invariant, `Hierarchy.Valid`:
    - country names are unique;
    - (region name, country) pairs are unique;
    - every region has its country and every city its region;
    - names are non-null and non-empty;
    - identity counters run ahead of every id in use.
- **The repository queries and the country, region and city services.** Every
  mutating operation returns its result together with the store afterwards.
  - A failed `@Transactional` call returns the store it was given, which is
    how rollback is modelled.
  - Java `null` is `Option.None`.
  - Bean-validation failures are `ConstraintViolations` faults carrying the
    entity's messages.
  - Deletes cascade as the `CascadeType.ALL` mappings declare.
- **The weather service.** The following are parameters of type
  `WeatherService.Provider`:
  - the HTTP client: the reply or exception for each URL;
  - Jackson's `readTree`;
  - the reading of search entries.

  Every service call returns the list of URLs it requested, so the model can
  state "fails before any request" and "one request per kept entry". The
  selection of a provider location id is given by two definitions:
  - a declarative reference, `ChosenId`;
  - the source's loop, `PickProviderId`, which is proved equal to it.
- **The global exception handler.** `Faults.Handle` maps a fault kind to the
  status and body it is answered with. Status codes follow section 15 of
  RFC 9110. It returns `None` for kinds the handler declares nothing for:
  - `RuntimeException` ("... not found");
  - `IllegalArgumentException`;
  - `IllegalStateException`;
  - multi-row results;
  - integrity violations on update.

  A fault is answered by the endpoint's own catch block when one matches
  it, and otherwise by `Faults.Handle`, or for the kinds it leaves
  unhandled by the framework's default error reply. The catch blocks are
  these:
  - `GET /country/{id}` and `PUT /country/{id}` catch every
    `RuntimeException` and answer 404 with its message. That includes the
    already-exists and validation faults of `CountryService.UpdateCountry`,
    which `Faults.Handle` would answer with 400.
  - `GET /region/all` and `GET /region/{id}` catch
    `IllegalArgumentException` and answer 404 with its message; this covers
    the unknown-country faults of `RegionService.ResolveCountry`.
  - `PUT /region/{id}` catches `IllegalArgumentException` and answers 422.
  - `GET /city/{id}` and `PUT /city/{id}` catch `IllegalArgumentException`
    and answer 404. "City not found" and a multi-row region lookup in
    `PUT /city/{id}` escape it.
  - Nothing else catches: the weather endpoints, `GET /city/all`, and the
    create and delete endpoints. So no endpoint that can raise
    `IllegalStateException` (only the weather ones can) catches it.

  The controllers are not part of this model.

Files, one module each:
- `wrappers.dfy`: `Option`, `Result`.
- `java_text.dfy`: Java number printing, `Long.parseLong`, commons-lang
  `isNumeric`.
- `faults.dfy`: exception kinds and the handler.
- `hierarchy.dfy`: entities, store and invariant.
- `repositories.dfy`: queries and cascading deletes.
- `country_service.dfy`, `region_service.dfy`, `city_service.dfy`: the three
  services.
- `weather_service.dfy`: the weather service.

## Model

| member | source | states |
|---|---|---|
| JavaText.DecimalText | src/main/java/kz/hustle/service/CountryService.java:28 | a printed long is non-empty, starts with '-' exactly for negatives and is all digits otherwise |
| JavaText.NatTextRoundTrip | src/main/java/kz/hustle/service/RegionService.java:37 | reading back the digits printed for a natural number gives that number |
| JavaText.ParseLong | src/main/java/kz/hustle/service/RegionService.java:108-115 | `Long.parseLong` accepts only non-empty text and only values in the 64-bit range |
| JavaText.ParseLongOfDecimalText | src/main/java/kz/hustle/service/RegionService.java:108-115 | every printed long parses back to itself |
| JavaText.DecimalTextInjective | src/main/java/kz/hustle/service/CountryService.java:28 | distinct ids print differently, so the "not found" messages identify the id |
| JavaText.ShortDigitRunsAreLongs | src/main/java/kz/hustle/service/CityService.java:36 | on digit runs of at most 18 characters, the commons-lang test and `Long.parseLong` agree and give the digits' value |
| JavaText.SignedLongIsNotCommonsNumeric | src/main/java/kz/hustle/service/CityService.java:36 | a negative id passes the region service's numeric test but not the city service's one |
| Faults.Handle | src/main/java/kz/hustle/controller/GlobalExceptionHandler.java:17-68 | every handled fault gets a 4xx or 5xx status; the status is 5xx exactly for connect and other I/O failures; exactly the not-found, illegal-state, multi-row and integrity kinds are unhandled; provider faults answer with their own message and status 403, 401 or 408, already-exists faults with their own message; validation, bind and already-exists faults answer 400, constraint violations with the joined messages and bind failures with the joined field errors |
| Faults.ViolationTextConcat | src/main/java/kz/hustle/controller/GlobalExceptionHandler.java:42-47 | the validation body lists the violations in order: the text of a concatenation is the concatenation of the texts |
| Faults.SingleViolationText | src/main/java/kz/hustle/controller/GlobalExceptionHandler.java:42-47 | a single violation is answered 400 with its message followed by "; " |
| Hierarchy.CountryOfCity | src/main/java/kz/hustle/entity/City.java:21-24 | a city's country is its region's country, and it exists in a linked store |
| Hierarchy.NameViolations | src/main/java/kz/hustle/entity/Country.java:20-22 | no violation exactly when the name is present and non-empty; null breaks both constraints, empty breaks only @NotEmpty |
| Repositories.CountryByName | src/main/java/kz/hustle/service/CountryService.java:32-34 | the answer holds the asked name; none exactly when no country holds it |
| Repositories.RegionByName | src/main/java/kz/hustle/repository/RegionRepository.java:11 | the answer is the only region with that name; empty exactly when none has it; a failure exactly when two regions share it |
| Repositories.RegionByNameAndCountry | src/main/java/kz/hustle/repository/RegionRepository.java:13 | the answer is the region of that country with that name; none exactly when no such region exists |
| Repositories.RegionsOfCountry | src/main/java/kz/hustle/repository/RegionRepository.java:15 | exactly the stored regions whose country is the given one |
| Repositories.CitiesOfCountryName | src/main/java/kz/hustle/repository/CityRepository.java:13-14 | exactly the stored cities whose region's country has the given name |
| Repositories.CitiesOfCountryId | src/main/java/kz/hustle/repository/CityRepository.java:16-17 | exactly the stored cities whose region's country has the given id |
| Repositories.CityQueriesAgree | src/main/java/kz/hustle/repository/CityRepository.java:13-17 | asking by a country's name and asking by its id select the same cities |
| Repositories.CityQueriesOfUnknownCountry | src/main/java/kz/hustle/repository/CityRepository.java:13-17 | an unknown country name or id selects no city |
| Repositories.CitiesPartitionedByCountry | src/main/java/kz/hustle/repository/CityRepository.java:16-17 | each city is selected by its own country's id and by no other |
| Repositories.DeleteCountryRow | src/main/java/kz/hustle/entity/Country.java:24 | deleting a country removes exactly its regions and their cities, keeps every other row unchanged and preserves the invariant |
| Repositories.DeleteRegionRow | src/main/java/kz/hustle/entity/Region.java:29 | deleting a region removes exactly its cities, keeps every other row unchanged and preserves the invariant |
| Repositories.DeleteRegionRows | src/main/java/kz/hustle/entity/Region.java:29 | removing a set of regions removes exactly the cities in them and preserves the invariant |
| Repositories.DeleteCityRow | src/main/java/kz/hustle/service/CityService.java:101-107 | deleting a city removes only that city and preserves the invariant |
| CountryService.GetCountryById | src/main/java/kz/hustle/service/CountryService.java:27-29 | succeeds exactly for a stored id and returns that row; otherwise fails with "Country with id N not found" |
| CountryService.InsertCountry | src/main/java/kz/hustle/entity/Country.java:14-16 | an insert uses a fresh id and preserves the invariant |
| CountryService.SaveCountry | src/main/java/kz/hustle/service/CountryService.java:42-48 | succeeds exactly for a present, non-empty, unused name and then adds exactly that country; validation fails first, then a used name fails with CountryAlreadyExists; a failure changes nothing |
| CountryService.FindOrCreateCountry | src/main/java/kz/hustle/service/CityService.java:61-66 | reuses the country with the name, leaving the store alone; otherwise adds exactly one country with that name and no code; fails validation exactly for a null or empty name |
| CountryService.UpdateCountry | src/main/java/kz/hustle/service/CountryService.java:51-67 | an unknown id fails; each null field keeps the stored value and each non-null one overwrites it; for a known id it succeeds exactly when no name is given or the name is non-empty and held by no other country; an empty name or one held by another country fails with the matching fault; failures change nothing |
| CountryService.DeleteCountry | src/main/java/kz/hustle/service/CountryService.java:70-76 | true exactly when the country existed; afterwards it is gone with exactly its regions and their cities, and every surviving region and city row is unchanged; an absent id changes nothing |
| CountryService.SaveThenGet | src/test/java/kz/hustle/controller/CountryControllerIntegrationTest.java:46-66 | a saved country reads back under its new id with the code and name it was saved with |
| CountryService.SaveTwiceConflicts | src/main/java/kz/hustle/service/CountryService.java:45-46 | saving a name a second time fails with CountryAlreadyExists and changes nothing |
| CountryService.DeleteTwice | src/main/java/kz/hustle/service/CountryService.java:70-76 | a second delete of the same id answers false and changes nothing |
| CountryService.UpdateThenGet | src/main/java/kz/hustle/service/CountryService.java:54-63 | after an update the stored row is the request merged over the old row |
| CountryService.RenameThenGet | src/test/java/kz/hustle/controller/CountryControllerIntegrationTest.java:68-80 | renaming a country to a non-empty name no other country holds succeeds, and the country reads back with the new code and name |
| CountryService.EmptyUpdateChangesNothing | src/main/java/kz/hustle/service/CountryService.java:56-61 | an update with both fields null returns the stored row and leaves the store as it was |
| RegionService.PrintedIdsAreNumeric | src/main/java/kz/hustle/service/RegionService.java:35-38 | every printed long is numeric to the region service and is looked up as that id |
| RegionService.GetAllRegions | src/main/java/kz/hustle/service/RegionService.java:26-30 | exactly one projected entry per stored region |
| RegionService.AllRegionsListedByCountryId | src/main/java/kz/hustle/service/RegionService.java:26-47 | asking by a stored country's printed id lists exactly the entries of the full listing whose region lies in that country |
| RegionService.EveryRegionListedUnderItsCountry | src/main/java/kz/hustle/service/RegionService.java:26-47 | every entry of the full listing is listed under its own country's id |
| RegionService.ResolveCountry | src/main/java/kz/hustle/service/RegionService.java:34-43 | a parseable text is a country id and anything else a country name; an unknown one fails with the matching IllegalArgument message; a success is a stored country |
| RegionService.GetRegionsByCountry | src/main/java/kz/hustle/service/RegionService.java:33-49 | fails exactly when the country does not resolve; otherwise lists exactly the regions of that country |
| RegionService.GetRegionById | src/main/java/kz/hustle/service/RegionService.java:52-56 | succeeds exactly for a stored id, with its name and its country's name; otherwise fails with "Region with id N not found" |
| RegionService.InsertRegion | src/main/java/kz/hustle/entity/Region.java:13-27 | an insert of a linked, named, not yet used (name, country) pair uses a fresh id and preserves the invariant |
| RegionService.FindOrCreateRegion | src/main/java/kz/hustle/service/CityService.java:69-75 | reuses the region with that name in that country, leaving the store alone; otherwise adds exactly one region of that country; fails validation exactly for a null or empty name |
| RegionService.CreateRegion | src/main/java/kz/hustle/service/RegionService.java:64-84 | succeeds exactly when both names are present and non-empty and the pair is unused; then adds exactly one region, leaving every other region row as it was, and either keeps the countries or adds exactly one new country with that name and no code, and echoes both names; a null or empty country name, and otherwise a null or empty region name, fails with that name's constraint violations; a used pair fails with RegionAlreadyExists; failures change nothing |
| RegionService.TargetCountry | src/main/java/kz/hustle/service/RegionService.java:88-94 | a null country name keeps the region's country; otherwise the stored country with that name, failing with the "Please create the country first" message exactly when none has it |
| RegionService.UpdateRegion | src/main/java/kz/hustle/service/RegionService.java:87-97 | an unknown id or an unknown country fails with its message; a null country keeps the region's country and a known one moves it; the name is overwritten; only that region changes; failures change nothing |
| RegionService.DeleteRegion | src/main/java/kz/hustle/service/RegionService.java:100-106 | true exactly when the region existed; afterwards it is gone with exactly its cities, and every surviving city row is unchanged |
| RegionService.UpdateRegionMovesCities | src/main/java/kz/hustle/service/RegionService.java:90-96 | after moving a region, each of its cities lies in the country the reply names |
| RegionService.CreateRegionTwice | src/main/java/kz/hustle/service/RegionService.java:79-83 | creating the same region twice fails the second time with RegionAlreadyExists and changes nothing |
| RegionService.CreatedRegionListedByCountryName | src/test/java/kz/hustle/controller/RegionControllerIntegrationTest.java:57-78 | a created region is listed under its country's name, unless that name is numeric |
| RegionService.DeleteThenGet | src/main/java/kz/hustle/service/RegionService.java:100-106 | a deleted region can no longer be read |
| CityService.GetCities | src/main/java/kz/hustle/service/CityService.java:32-44 | no country lists every city; an all-digit text lists the cities of the country with that id; any other text lists those of the country with that name |
| CityService.GetCitiesOfUnknownCountry | src/main/java/kz/hustle/service/CityService.java:36-42 | an unknown country id or name lists nothing instead of failing |
| CityService.GetCityById | src/main/java/kz/hustle/service/CityService.java:47-51 | succeeds exactly for a stored id, with its own, its region's and its country's names; otherwise fails with "City with id N not found" |
| CityService.InsertCity | src/main/java/kz/hustle/entity/City.java:17-24 | an insert of a named city in a stored region uses a fresh id and preserves the invariant |
| CityService.CreateCity | src/main/java/kz/hustle/service/CityService.java:59-83 | succeeds exactly when all three names are present and non-empty; reuses or adds the country, then reuses or adds the region in it; adds exactly one city there and echoes the names; the first null or empty name, in the order country, region, city, fails with that name's constraint violations; failures change nothing |
| CityService.TargetRegion | src/main/java/kz/hustle/service/CityService.java:91-95 | the current region when no region name or the current one is given; otherwise the region found by that name alone: it succeeds exactly when exactly one region has that name and returns it, an unknown name fails with IllegalArgumentException and a name several regions share with a non-unique-result failure |
| CityService.UpdateCity | src/main/java/kz/hustle/service/CityService.java:86-98 | an unknown id fails with "City not found"; the name is overwritten; the region is kept when no region name or the current one is given, and otherwise becomes the region with that name; it succeeds exactly when the target region is found and the city name is non-empty, and a failed region lookup is the call's failure; failures change nothing |
| CityService.MoveThenGet | src/main/java/kz/hustle/service/CityService.java:86-98 | moving a city to the one region with a given name succeeds for a non-empty city name, and the city reads back in that region and its country |
| CityService.DeleteCity | src/main/java/kz/hustle/service/CityService.java:101-107 | true exactly when the city existed; afterwards only that city is gone |
| CityService.RegionForCity | src/main/java/kz/hustle/service/CityService.java:110-114 | the city's region, or "City not found" exactly for an unknown id |
| CityService.CountryForCity | src/main/java/kz/hustle/service/CityService.java:116-121 | the country of the city's region, or "City not found" exactly for an unknown id |
| CityService.CityNamesNeedNotBeUnique | src/main/java/kz/hustle/entity/City.java:10-19 | creating the same city twice gives two distinct cities with equal rows |
| CityService.CreateThenGet | src/test/java/kz/hustle/controller/CityControllerIntegrationTest.java:63-74 | a created city reads back by its id with the names it was created with |
| CityService.DeleteThenGet | src/main/java/kz/hustle/service/CityService.java:101-107 | a deleted city can no longer be read |
| CityService.CreatedCityListedByCountryName | src/main/java/kz/hustle/service/CityService.java:36-42 | a created city is listed under its country's name, unless that name is all digits |
| CityService.AncestorsAgreeWithProjection | src/main/java/kz/hustle/service/CityService.java:110-141 | the region and country reported for a city are the ones its projection names |
| WeatherService.IdText | src/main/java/kz/hustle/service/WeatherService.java:115 | a printed id, null included, is never empty |
| WeatherService.SearchUrl | src/main/java/kz/hustle/service/WeatherService.java:49 | the search URL is the search prefix followed by the city name as is |
| WeatherService.CurrentUrl | src/main/java/kz/hustle/service/WeatherService.java:115 | the current-weather URL is the prefix followed by the printed id, "null" for no id |
| WeatherService.ForecastUrl | src/main/java/kz/hustle/service/WeatherService.java:124-128 | the forecast URL is the prefix followed by the id, the days and `hour=25` |
| WeatherService.IdTextHasNoAmpersand | src/main/java/kz/hustle/service/WeatherService.java:126 | a printed id cannot end the `q` parameter early |
| WeatherService.IdTextStart | src/main/java/kz/hustle/service/WeatherService.java:115 | only a null id prints starting with 'n' |
| WeatherService.IdTextInjective | src/main/java/kz/hustle/service/WeatherService.java:115 | distinct ids, null included, print differently |
| WeatherService.SearchUrlInjective | src/main/java/kz/hustle/service/WeatherService.java:49 | different cities request different search URLs |
| WeatherService.CurrentUrlInjective | src/main/java/kz/hustle/service/WeatherService.java:115 | the current-weather URL determines the id, and different ids give different URLs |
| WeatherService.ForecastUrlInjective | src/main/java/kz/hustle/service/WeatherService.java:124-128 | the forecast URL determines both the id and the number of days |
| WeatherService.ProcessRequest | src/main/java/kz/hustle/service/WeatherService.java:135-150 | 403, 401 and 408 replies become Forbidden, Unauthorized and Timeout with their messages; any other reply passes its body through; client exceptions propagate; an interrupt becomes IllegalState |
| WeatherService.ProviderFailureReachesCaller | src/main/java/kz/hustle/controller/GlobalExceptionHandler.java:17-40 | provider statuses 401, 403 and 408 reach the caller as the same status; an unreachable provider is a 503 and another I/O failure a 500; an interrupt is unhandled |
| WeatherService.Fetch | src/main/java/kz/hustle/service/WeatherService.java:118-119 | a failed request propagates; an unparsable body is an I/O failure; otherwise the parsed tree |
| WeatherService.LastMatchIndex | src/main/java/kz/hustle/service/WeatherService.java:60-64 | the position of the last entry matching both country and region; none exactly when no entry matches |
| WeatherService.ChosenId | src/main/java/kz/hustle/service/WeatherService.java:45-71 | none exactly for an empty list; a single entry's id whether or not it matches; the first id when nothing matches; otherwise the last match's id; always the id of some entry |
| WeatherService.PickProviderId | src/main/java/kz/hustle/service/WeatherService.java:55-66 | the source's loop, with its size guard, always chooses what `ChosenId` chooses |
| WeatherService.IdFromSearch | src/main/java/kz/hustle/service/WeatherService.java:45-71 | exactly one search request; a failed request propagates; an unparsable reply gives no id; otherwise `ChosenId` of the entries |
| WeatherService.CurrentByProviderId | src/main/java/kz/hustle/service/WeatherService.java:113-120 | exactly one request, for the given id, null included |
| WeatherService.ForecastByProviderId | src/main/java/kz/hustle/service/WeatherService.java:122-133 | exactly one request, for the given id and days, null included |
| WeatherService.CurrentWeatherByCityId | src/main/java/kz/hustle/service/WeatherService.java:35-43 | an unknown city fails with "City not found" before any request; otherwise the city's name is searched, and unless that fails, current weather is requested for the resolved id |
| WeatherService.WeatherForecastByCityId | src/main/java/kz/hustle/service/WeatherService.java:103-111 | the same, ending with a forecast request |
| WeatherService.NoProviderIdStillRequested | src/main/java/kz/hustle/service/WeatherService.java:37-42 | an empty or unparsable search reply still leads to a request for `id:null` |
| WeatherService.SearchRefusalReachesCaller | src/main/java/kz/hustle/service/WeatherService.java:139-140 | a provider 403 on the search makes the caller's answer a 403 with the key message, after one request |
| WeatherService.KeepIsConjunction | src/main/java/kz/hustle/service/WeatherService.java:84-98 | the four-way branch keeps an entry exactly when each filter given matches |
| WeatherService.Kept | src/main/java/kz/hustle/service/WeatherService.java:82-99 | the kept entries are exactly the entries the branch keeps, no more of them than there were |
| WeatherService.KeptOfConcat | src/main/java/kz/hustle/service/WeatherService.java:82 | filtering keeps the provider's order: the filter of a concatenation is the concatenation of the filters |
| WeatherService.KeptWithoutFilters | src/main/java/kz/hustle/service/WeatherService.java:84-85 | with neither region nor country, every entry is kept |
| WeatherService.KeptIdempotent | src/main/java/kz/hustle/service/WeatherService.java:82-99 | filtering twice by the same filters changes nothing |
| WeatherService.FirstFailure | src/main/java/kz/hustle/service/WeatherService.java:82-99 | the position of the first failed request outcome; every earlier one succeeded |
| WeatherService.Replies | src/main/java/kz/hustle/service/WeatherService.java:85-96 | one reply per request, in order, each the value its successful outcome carries |
| WeatherService.FetchEach | src/main/java/kz/hustle/service/WeatherService.java:82-99 | one request per entry, in order; succeeds exactly when every request does, with the replies in order; otherwise stops at the first failure, which becomes the result |
| WeatherService.CurrentWeatherForCitySearch | src/main/java/kz/hustle/service/WeatherService.java:73-101 | one search request first; a failed request or an unparsable reply fails the call; otherwise one request per kept entry |
| WeatherService.CitySearchAnswersPerKeptEntry | src/main/java/kz/hustle/service/WeatherService.java:82-100 | when all requests succeed, there is one reply per kept entry, in the provider's order, after exactly one request more than there are kept entries |

## Left out

- HTTP transport and JSON parsing are parameters. This covers `HttpClient.send`, Jackson's `readTree`, and reading `id`, `region` and `country` from a search entry.
- Malformed provider replies are not modelled:
  - a search reply that is not an array;
  - entries without the expected fields, which make the source throw `NullPointerException`;
  - `asInt` truncating an id outside the 32-bit range.
- `URI.create` rejects characters such as spaces in the city name and throws `IllegalArgumentException`. `SearchUrl` models only the URL text, not that check.
- The free-text search filters and fetches inside one loop. The model filters first and then fetches in order. Filtering has no effects, so the requests and replies are the same.
- `WeatherService.IdFromSearch` catches only `JsonProcessingException`, as the source does. The parser parameter returning an error stands for exactly that exception.
- Controllers, the DTO classes and Swagger annotations are not modelled. Neither are the endpoints' catch blocks listed above, which answer some faults before the global handler sees them.
- `Faults.Handle` states the global handler's replies only. On `PUT /country/{id}` the already-exists and validation faults are answered 404 by the endpoint's `RuntimeException` catch, not with the 400 `Faults.Handle` gives.
- These operations are not modelled:
  - `saveCity` and `saveRegion`, which persist a raw entity;
  - `getAllCountries`;
  - `getCountryByCode`.

  `saveCountry` with a body that carries an id (a merge into an existing row) is not modelled either: the model always inserts.
- CountryRepository.java is not part of this model. Its `findByName` is modelled from how the services use it, in `Repositories.CountryByName`.
- Id generation is simplified to one counter per table. Lists are modelled as sets, because the source orders them only by the database's retrieval order.
- For a null name, Hibernate reports the two violations in an unspecified set order. `Hierarchy.NameViolations` fixes them as "required", then "cannot be empty".
- `UpdateRegion` and `UpdateCity` report a null or empty new name as `ConstraintViolations`. The source only detects it at commit, where the transaction manager wraps it in a `TransactionSystemException`.
- A duplicate (name, country) pair in `UpdateRegion` is an `IntegrityViolation` fault, which no handler answers.
- Concurrent inserts are not modelled: services run one at a time. This covers `createRegion`'s catch of a unique-name violation when it saves a new country.
- `CityService.GetCities`: does not model how the all-digit text is bound to the `String`-typed `countryId` query parameter. It also does not model digit runs beyond the 64-bit range. The model compares the digits' value with the country ids.
- `Character.isDigit` accepts non-ASCII decimal digits. `JavaText` treats only '0'–'9' as digits.
- `equals`, `hashCode` and `toString` of the entities are not modelled.
- API key configuration is not modelled: the key is an opaque string parameter.
