/**
 * The city operations: listing filtered by country (given by id or by name),
 * lookup, creation with find-or-create of region and country, update and
 * delete.
 */
module CityService {
  import opened Wrappers
  import opened JavaText
  import opened Faults
  import opened Hierarchy
  import opened Repositories
  import opened CountryService
  import opened RegionService

  /** A city as the simple-create and update bodies carry it; any name may be null. */
  datatype CityInput = CityInput(cityName: Option<string>, regionName: Option<string>, countryName: Option<string>)

  /** What the city endpoints return: id, city name, region name and country name. */
  datatype CityDto = CityDto(id: Id, cityName: string, regionName: string, countryName: string)

  /** `createDTO`: the city with the names of its region and of that region's country. */
  function Project(s: Store, c: Id): CityDto
    requires Linked(s) && c in s.cities
  {
    var g := s.regions[s.cities[c].region];
    CityDto(c, s.cities[c].name, g.name, s.countries[g.country].name)
  }

  /**
   * `getCities`: no country means every city; a text of digits only is a
   * country id, anything else a country name. An unknown country gives an
   * empty answer, not a failure.
   */
  function GetCities(s: Store, country: Option<string>): (r: set<CityDto>)
    requires Valid(s)
    ensures country.None? ==> forall d :: d in r <==> d.id in s.cities && d == Project(s, d.id)
    ensures CommonsIsNumeric(country) ==> forall d :: d in r <==>
              d.id in s.cities && CountryOfCity(s, d.id) == DigitsValue(country.value) && d == Project(s, d.id)
    ensures country.Some? && !CommonsIsNumeric(country) ==> forall d :: d in r <==>
              d.id in s.cities && s.countries[CountryOfCity(s, d.id)].name == country.value && d == Project(s, d.id)
  {
    if country.None? then
      set c | c in s.cities :: Project(s, c)
    else if CommonsIsNumeric(country) then
      set c | c in CitiesOfCountryId(s, DigitsValue(country.value)) :: Project(s, c)
    else
      set c | c in CitiesOfCountryName(s, country.value) :: Project(s, c)
  }

  /** A country filter naming no country, or giving an id no country has, lists nothing. */
  lemma GetCitiesOfUnknownCountry(s: Store, country: string)
    requires Valid(s)
    requires CommonsIsNumeric(Some(country)) ==> DigitsValue(country) !in s.countries
    requires !CommonsIsNumeric(Some(country)) ==> CountryByName(s, country).None?
    ensures GetCities(s, Some(country)) == {}
  {
    if CommonsIsNumeric(Some(country)) {
      assert CitiesOfCountryId(s, DigitsValue(country)) == {};
    } else {
      CityQueriesOfUnknownCountry(s, country, s.nextCountry);
    }
  }

  /** `getCityById`: the projected city, or IllegalArgumentException. */
  function GetCityById(s: Store, id: Id): (r: Result<CityDto, Fault>)
    requires Linked(s)
    ensures r.Ok? <==> id in s.cities
    ensures r.Ok? ==> r.value.id == id && r.value.cityName == s.cities[id].name
    ensures r.Ok? ==> r.value.regionName == s.regions[s.cities[id].region].name
    ensures r.Ok? ==> r.value.countryName == s.countries[CountryOfCity(s, id)].name
    ensures r.Err? ==> r.error == IllegalArgument("City with id " + DecimalText(id) + " not found")
  {
    if id in s.cities then Ok(Project(s, id))
    else Err(IllegalArgument("City with id " + DecimalText(id) + " not found"))
  }

  /** Inserts a city under the next identity value. */
  function InsertCity(s: Store, c: City): (r: (Id, Store))
    requires Valid(s) && c.name != "" && c.region in s.regions
    ensures r.0 !in s.cities
    ensures r.1 == s.(cities := s.cities[r.0 := c], nextCity := s.nextCity + 1)
    ensures Valid(r.1)
  {
    (s.nextCity, s.(cities := s.cities[s.nextCity := c], nextCity := s.nextCity + 1))
  }

  /**
   * `createCity`: finds or creates the country by name, then the region by
   * (name, country), then adds exactly one city in that region. It succeeds
   * exactly when all three names are present and non-empty; the reply echoes
   * them. A failure rolls back any ancestor it had created.
   */
  function CreateCity(s: Store, dto: CityInput): (r: Step<CityDto>)
    requires Valid(s)
    ensures Valid(r.store)
    ensures r.result.Err? ==> r.store == s
    ensures r.result.Ok? <==>
              && dto.cityName.Some? && dto.cityName.value != ""
              && dto.regionName.Some? && dto.regionName.value != ""
              && dto.countryName.Some? && dto.countryName.value != ""
    ensures NameViolations(CountryEntity, dto.countryName) != [] ==>
              r.result == Err(ConstraintViolations(NameViolations(CountryEntity, dto.countryName)))
    ensures NameViolations(CountryEntity, dto.countryName) == [] && NameViolations(RegionEntity, dto.regionName) != [] ==>
              r.result == Err(ConstraintViolations(NameViolations(RegionEntity, dto.regionName)))
    ensures NameViolations(CountryEntity, dto.countryName) == [] && NameViolations(RegionEntity, dto.regionName) == []
            && NameViolations(CityEntity, dto.cityName) != [] ==>
              r.result == Err(ConstraintViolations(NameViolations(CityEntity, dto.cityName)))
    ensures r.result.Ok? ==>
              && r.result.value.id !in s.cities
              && r.result.value == CityDto(r.result.value.id, dto.cityName.value, dto.regionName.value, dto.countryName.value)
              && r.store.cities.Keys == s.cities.Keys + {r.result.value.id}
              && (forall c :: c in s.cities ==> r.store.cities[c] == s.cities[c])
              && Project(r.store, r.result.value.id) == r.result.value
    ensures r.result.Ok? && CountryByName(s, dto.countryName.value).Some? ==>
              r.store.countries == s.countries
    ensures r.result.Ok? && CountryByName(s, dto.countryName.value).None? ==>
              exists k :: k !in s.countries && r.store.countries == s.countries[k := Country(None, dto.countryName.value)]
    ensures r.result.Ok? && CountryByName(s, dto.countryName.value).Some?
            && RegionByNameAndCountry(s, dto.regionName.value, CountryByName(s, dto.countryName.value).value).Some? ==>
              r.store.regions == s.regions
              && r.store.cities[r.result.value.id].region
                 == RegionByNameAndCountry(s, dto.regionName.value, CountryByName(s, dto.countryName.value).value).value
    ensures r.result.Ok? && (CountryByName(s, dto.countryName.value).None?
            || RegionByNameAndCountry(s, dto.regionName.value, CountryByName(s, dto.countryName.value).value).None?) ==>
              exists q :: q !in s.regions && q in r.store.regions && r.store.regions == s.regions[q := r.store.regions[q]]
                && r.store.cities[r.result.value.id].region == q
  {
    match FindOrCreateCountry(s, dto.countryName)
    case Err(e) => Step(Err(e), s)
    case Ok((k, t)) =>
      match FindOrCreateRegion(t, dto.regionName, k)
      case Err(e) => Step(Err(e), s)
      case Ok((g, u)) =>
        var violations := NameViolations(CityEntity, dto.cityName);
        if violations != [] then
          Step(Err(ConstraintViolations(violations)), s)
        else
          var (c, v) := InsertCity(u, City(g, dto.cityName.value));
          Step(Ok(Project(v, c)), v)
  }

  /**
   * The region `updateCity` moves the city to: its current one when no region
   * name or the current region's name is given, otherwise the region found by
   * that name alone, whatever its country.
   */
  function TargetRegion(s: Store, id: Id, regionName: Option<string>): (r: Result<Id, Fault>)
    requires Valid(s) && id in s.cities
    ensures r.Ok? ==> r.value in s.regions
    ensures regionName.None? || regionName.value == s.regions[s.cities[id].region].name ==> r == Ok(s.cities[id].region)
    ensures regionName.Some? && regionName.value != s.regions[s.cities[id].region].name ==>
              && (r.Ok? <==> exists g :: RegionsNamed(s, regionName.value) == {g})
              && (r.Ok? ==> RegionsNamed(s, regionName.value) == {r.value})
              && (RegionsNamed(s, regionName.value) == {} ==>
                    r == Err(IllegalArgument("Region " + regionName.value + " not exists. Please create the region first.")))
              && (RegionByName(s, regionName.value).Err? ==> r == Err(NonUniqueResult))
  {
    var current := s.cities[id].region;
    if regionName.Some? && regionName.value != s.regions[current].name then
      match RegionByName(s, regionName.value)
      case Err(e) => Err(e)
      case Ok(None) => Err(IllegalArgument("Region " + regionName.value + " not exists. Please create the region first."))
      case Ok(Some(g)) => Ok(g)
    else
      Ok(current)
  }

  /**
   * `updateCity`: an unknown id fails. The region changes only when a
   * region name is given that differs from the current region's; it is then
   * looked up by name alone, whatever its country, and failing to find it
   * fails the call. The name is always overwritten, so a null or empty one
   * fails validation at commit. Failures leave the store as it was.
   */
  function UpdateCity(s: Store, id: Id, dto: CityInput): (r: Step<CityDto>)
    requires Valid(s)
    ensures Valid(r.store)
    ensures r.result.Err? ==> r.store == s
    ensures id !in s.cities ==> r.result == Err(RuntimeFailure("City not found"))
    ensures id in s.cities && TargetRegion(s, id, dto.regionName).Err? ==>
              r.result == Err(TargetRegion(s, id, dto.regionName).error)
    ensures r.result.Ok? ==>
              && id in s.cities && dto.cityName.Some?
              && r.store.countries == s.countries && r.store.regions == s.regions
              && r.store.cities.Keys == s.cities.Keys
              && (forall c :: c in s.cities && c != id ==> r.store.cities[c] == s.cities[c])
              && r.store.cities[id].name == dto.cityName.value
              && r.result.value == Project(r.store, id)
    ensures id in s.cities ==>
              (r.result.Ok? <==> TargetRegion(s, id, dto.regionName).Ok? && dto.cityName.Some? && dto.cityName.value != "")
    ensures r.result.Ok? ==> r.store.cities[id].region == TargetRegion(s, id, dto.regionName).value
    ensures r.result.Ok? && dto.regionName.Some? ==>
              r.store.regions[r.store.cities[id].region].name == dto.regionName.value
  {
    if id !in s.cities then
      Step(Err(RuntimeFailure("City not found")), s)
    else
      var region := TargetRegion(s, id, dto.regionName);
      if region.Err? then
        Step(Err(region.error), s)
      else
        var violations := NameViolations(CityEntity, dto.cityName);
        if violations != [] then
          Step(Err(ConstraintViolations(violations)), s)
        else
          var t := s.(cities := s.cities[id := City(region.value, dto.cityName.value)]);
          Step(Ok(Project(t, id)), t)
  }

  /** `deleteCity`: true exactly when the city existed; it is then gone and nothing else changes. */
  function DeleteCity(s: Store, id: Id): (r: Deletion)
    requires Valid(s)
    ensures Valid(r.store)
    ensures r.existed <==> id in s.cities
    ensures r.store.cities == s.cities - {id}
    ensures r.store.countries == s.countries && r.store.regions == s.regions
  {
    if id in s.cities then Deletion(true, DeleteCityRow(s, id))
    else Deletion(false, s)
  }

  /** `getRegionForCity`: the city's region, or "City not found". */
  function RegionForCity(s: Store, id: Id): (r: Result<Region, Fault>)
    requires Linked(s)
    ensures r.Ok? <==> id in s.cities
    ensures r.Ok? ==> r.value == s.regions[s.cities[id].region]
    ensures r.Err? ==> r.error == RuntimeFailure("City not found")
  {
    if id in s.cities then Ok(s.regions[s.cities[id].region]) else Err(RuntimeFailure("City not found"))
  }

  /** `getCountryForCity`: the country of the city's region, or "City not found". */
  function CountryForCity(s: Store, id: Id): (r: Result<Country, Fault>)
    requires Linked(s)
    ensures r.Ok? <==> id in s.cities
    ensures r.Ok? ==> r.value == s.countries[s.regions[s.cities[id].region].country]
    ensures r.Err? ==> r.error == RuntimeFailure("City not found")
  {
    if id in s.cities then Ok(s.countries[CountryOfCity(s, id)]) else Err(RuntimeFailure("City not found"))
  }

  /** Creating the same city twice gives two cities with the same name in the same region. */
  lemma CityNamesNeedNotBeUnique(s: Store, dto: CityInput)
    requires Valid(s)
    requires CreateCity(s, dto).result.Ok?
    ensures var r1 := CreateCity(s, dto);
            var r2 := CreateCity(r1.store, dto);
            && r2.result.Ok?
            && r1.result.value.id != r2.result.value.id
            && r2.store.cities[r1.result.value.id] == r2.store.cities[r2.result.value.id]
  {
    var r1 := CreateCity(s, dto);
    var t := r1.store;
    var c1 := r1.result.value.id;
    var k := CountryByName(t, dto.countryName.value).value;
    assert t.countries[CountryOfCity(t, c1)].name == dto.countryName.value;
    assert CountryOfCity(t, c1) == k;
    var g := t.cities[c1].region;
    assert t.regions[g] == Region(k, dto.regionName.value);
  }

  /** A created city reads back by its id with the names it was created with. */
  lemma CreateThenGet(s: Store, dto: CityInput)
    requires Valid(s)
    requires CreateCity(s, dto).result.Ok?
    ensures var r := CreateCity(s, dto);
            GetCityById(r.store, r.result.value.id) == Ok(r.result.value)
  {
  }

  /** A deleted city can no longer be read. */
  lemma DeleteThenGet(s: Store, id: Id)
    requires Valid(s)
    ensures GetCityById(DeleteCity(s, id).store, id) == Err(IllegalArgument("City with id " + DecimalText(id) + " not found"))
  {
  }

  /**
   * A created city is listed under its country's name, unless that name is
   * all digits, in which case the listing reads it as a country id instead.
   */
  lemma CreatedCityListedByCountryName(s: Store, dto: CityInput)
    requires Valid(s)
    requires CreateCity(s, dto).result.Ok?
    requires !CommonsIsNumeric(dto.countryName)
    ensures var r := CreateCity(s, dto);
            r.result.value in GetCities(r.store, dto.countryName)
  {
  }

  /** The region and country a city reports are the ones its projection names. */
  lemma AncestorsAgreeWithProjection(s: Store, id: Id)
    requires Valid(s) && id in s.cities
    ensures RegionForCity(s, id).value.name == GetCityById(s, id).value.regionName
    ensures CountryForCity(s, id).value.name == GetCityById(s, id).value.countryName
  {
  }

  /**
   * Moving a city to the one region with a given name succeeds for a
   * non-empty city name, and the city then reads back in that region.
   */
  lemma MoveThenGet(s: Store, id: Id, name: string, regionName: string, g: Id)
    requires Valid(s) && id in s.cities && name != ""
    requires RegionsNamed(s, regionName) == {g}
    requires regionName != s.regions[s.cities[id].region].name
    ensures var r := UpdateCity(s, id, CityInput(Some(name), Some(regionName), None));
            && r.result.Ok?
            && r.store.cities[id] == City(g, name)
            && GetCityById(r.store, id) == Ok(CityDto(id, name, regionName, s.countries[s.regions[g].country].name))
  {
    assert g in RegionsNamed(s, regionName);
  }
}
