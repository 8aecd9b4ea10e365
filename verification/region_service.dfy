/**
 * The region operations: listing by country (given by id or by name),
 * lookup, creation with find-or-create of the country, update and cascading
 * delete.
 */
module RegionService {
  import opened Wrappers
  import opened JavaText
  import opened Faults
  import opened Hierarchy
  import opened Repositories
  import opened CountryService

  /** A region as a request body carries it; either name may be null. */
  datatype RegionInput = RegionInput(regionName: Option<string>, countryName: Option<string>)

  /** What the region endpoints return: id, region name and country name. */
  datatype RegionDto = RegionDto(id: Id, regionName: string, countryName: string)

  /** `createDTO`: the region with its country's name. */
  function Project(s: Store, r: Id): RegionDto
    requires Linked(s) && r in s.regions
  {
    RegionDto(r, s.regions[r].name, s.countries[s.regions[r].country].name)
  }

  /** The private `isNumeric`: `Long.parseLong` accepts the text. */
  predicate IsNumeric(str: Option<string>) {
    ParseLong(str).Some?
  }

  /** Every id Java prints is numeric to this test, so a printed id is always looked up as an id. */
  lemma PrintedIdsAreNumeric(n: int)
    requires InLongRange(n)
    ensures IsNumeric(Some(DecimalText(n)))
    ensures ParseLong(Some(DecimalText(n))) == Some(n)
  {
    ParseLongOfDecimalText(n);
  }

  /** `getAllRegions`: every region, projected. */
  function GetAllRegions(s: Store): (r: set<RegionDto>)
    requires Linked(s)
    ensures forall d :: d in r <==> d.id in s.regions && d == Project(s, d.id)
  {
    set q | q in s.regions :: Project(s, q)
  }

  /**
   * The country `getRegionsByCountry` lists: a text `Long.parseLong` accepts
   * is a country id, anything else a country name. Either way an unknown
   * country fails with IllegalArgumentException.
   */
  function ResolveCountry(s: Store, param: string): (r: Result<Id, Fault>)
    requires Valid(s)
    ensures IsNumeric(Some(param)) ==>
              if ParseLong(Some(param)).value in s.countries then r == Ok(ParseLong(Some(param)).value)
              else r == Err(IllegalArgument("Country with id " + param + " not found."))
    ensures !IsNumeric(Some(param)) ==>
              if CountryByName(s, param).Some? then r == Ok(CountryByName(s, param).value)
              else r == Err(IllegalArgument("Country " + param + " not found."))
    ensures r.Ok? ==> r.value in s.countries
  {
    if IsNumeric(Some(param)) then
      var k := ParseLong(Some(param)).value;
      if k in s.countries then Ok(k) else Err(IllegalArgument("Country with id " + param + " not found."))
    else
      match CountryByName(s, param)
      case Some(k) => Ok(k)
      case None => Err(IllegalArgument("Country " + param + " not found."))
  }

  /** `getRegionsByCountry`: exactly the regions of the resolved country. */
  function GetRegionsByCountry(s: Store, param: string): (r: Result<set<RegionDto>, Fault>)
    requires Valid(s)
    ensures r.Ok? <==> ResolveCountry(s, param).Ok?
    ensures r.Err? ==> r.error == ResolveCountry(s, param).error
    ensures r.Ok? ==> forall d :: d in r.value <==>
              d.id in s.regions && s.regions[d.id].country == ResolveCountry(s, param).value && d == Project(s, d.id)
  {
    var k :- ResolveCountry(s, param);
    Ok(set q | q in RegionsOfCountry(s, k) :: Project(s, q))
  }

  /**
   * The full listing and the per-country listing agree: asking by a stored
   * country's printed id lists exactly the entries of the full listing whose
   * region lies in that country.
   */
  lemma AllRegionsListedByCountryId(s: Store, k: Id)
    requires Valid(s) && k in s.countries && InLongRange(k)
    ensures GetRegionsByCountry(s, DecimalText(k)).Ok?
    ensures forall d :: d in GetRegionsByCountry(s, DecimalText(k)).value <==>
              d in GetAllRegions(s) && s.regions[d.id].country == k
  {
    PrintedIdsAreNumeric(k);
  }

  /** Every entry of the full listing appears in the listing of its own country, asked by id. */
  lemma EveryRegionListedUnderItsCountry(s: Store, d: RegionDto)
    requires Valid(s) && d in GetAllRegions(s)
    requires InLongRange(s.regions[d.id].country)
    ensures GetRegionsByCountry(s, DecimalText(s.regions[d.id].country)).Ok?
    ensures d in GetRegionsByCountry(s, DecimalText(s.regions[d.id].country)).value
  {
    AllRegionsListedByCountryId(s, s.regions[d.id].country);
  }

  /** `getRegionById`: the projected region, or IllegalArgumentException. */
  function GetRegionById(s: Store, id: Id): (r: Result<RegionDto, Fault>)
    requires Linked(s)
    ensures r.Ok? <==> id in s.regions
    ensures r.Ok? ==> r.value.id == id && r.value.regionName == s.regions[id].name
    ensures r.Ok? ==> r.value.countryName == s.countries[s.regions[id].country].name
    ensures r.Err? ==> r.error == IllegalArgument("Region with id " + DecimalText(id) + " not found")
  {
    if id in s.regions then Ok(Project(s, id))
    else Err(IllegalArgument("Region with id " + DecimalText(id) + " not found"))
  }

  /** Inserts a region under the next identity value. */
  function InsertRegion(s: Store, g: Region): (r: (Id, Store))
    requires Valid(s) && g.name != "" && g.country in s.countries
    requires forall q :: q in s.regions ==> s.regions[q] != g
    ensures r.0 !in s.regions
    ensures r.1 == s.(regions := s.regions[r.0 := g], nextRegion := s.nextRegion + 1)
    ensures Valid(r.1)
  {
    (s.nextRegion, s.(regions := s.regions[s.nextRegion := g], nextRegion := s.nextRegion + 1))
  }

  /**
   * The region lookup `createCity` does: the region named `name` in country
   * `k` if there is one, otherwise a new region of `k` with that name.
   */
  function FindOrCreateRegion(s: Store, name: Option<string>, k: Id): (r: Result<(Id, Store), Fault>)
    requires Valid(s) && k in s.countries
    ensures r.Ok? <==> name.Some? && name.value != ""
    ensures r.Ok? ==> Valid(r.value.1) && r.value.0 in r.value.1.regions
    ensures r.Ok? ==> r.value.1.regions[r.value.0] == Region(k, name.value)
    ensures r.Ok? ==> r.value.1.countries == s.countries && r.value.1.cities == s.cities
    ensures r.Err? ==> r.error == ConstraintViolations(NameViolations(RegionEntity, name))
    ensures name.Some? && RegionByNameAndCountry(s, name.value, k).Some? ==>
              r == Ok((RegionByNameAndCountry(s, name.value, k).value, s))
    ensures r.Ok? && RegionByNameAndCountry(s, name.value, k).None? ==>
              && r.value.0 !in s.regions
              && r.value.1 == s.(regions := s.regions[r.value.0 := Region(k, name.value)], nextRegion := s.nextRegion + 1)
  {
    var found := if name.Some? then RegionByNameAndCountry(s, name.value, k) else None;
    if found.Some? then
      Ok((found.value, s))
    else if NameViolations(RegionEntity, name) != [] then
      Err(ConstraintViolations(NameViolations(RegionEntity, name)))
    else
      Ok(InsertRegion(s, Region(k, name.value)))
  }

  /**
   * The requests `createRegion` accepts: both names present and non-empty,
   * and the region name not yet taken in a country of that name.
   */
  predicate Creatable(s: Store, dto: RegionInput)
    requires Valid(s)
  {
    && dto.countryName.Some? && dto.countryName.value != ""
    && dto.regionName.Some? && dto.regionName.value != ""
    && (CountryByName(s, dto.countryName.value).Some? ==>
          RegionByNameAndCountry(s, dto.regionName.value, CountryByName(s, dto.countryName.value).value).None?)
  }

  /**
   * `createRegion`: finds or creates the country by name, then inserts the
   * region; a (name, country) pair already taken fails with
   * RegionAlreadyExistsException. Any failure rolls the whole call back,
   * including a country it had just created.
   */
  function CreateRegion(s: Store, dto: RegionInput): (r: Step<RegionDto>)
    requires Valid(s)
    ensures Valid(r.store)
    ensures r.result.Err? ==> r.store == s
    ensures r.result.Ok? <==> Creatable(s, dto)
    ensures NameViolations(CountryEntity, dto.countryName) != [] ==>
              r.result == Err(ConstraintViolations(NameViolations(CountryEntity, dto.countryName)))
    ensures NameViolations(CountryEntity, dto.countryName) == [] && NameViolations(RegionEntity, dto.regionName) != [] ==>
              r.result == Err(ConstraintViolations(NameViolations(RegionEntity, dto.regionName)))
    ensures dto.countryName.Some? && dto.regionName.Some? && dto.regionName.value != ""
            && CountryByName(s, dto.countryName.value).Some?
            && RegionByNameAndCountry(s, dto.regionName.value, CountryByName(s, dto.countryName.value).value).Some?
            ==> r.result == Err(RegionAlreadyExists("Region " + dto.regionName.value + " already exists in " + dto.countryName.value))
    ensures r.result.Ok? ==>
              && r.result.value.id !in s.regions
              && r.result.value == RegionDto(r.result.value.id, dto.regionName.value, dto.countryName.value)
              && r.result.value.id in r.store.regions
              && r.store.regions == s.regions[r.result.value.id := Region(r.store.regions[r.result.value.id].country,
                                                                            dto.regionName.value)]
              && r.result.value == Project(r.store, r.result.value.id)
              && r.store.cities == s.cities
              && (CountryByName(s, dto.countryName.value).Some? ==>
                    && r.store.countries == s.countries
                    && r.store.regions[r.result.value.id].country == CountryByName(s, dto.countryName.value).value)
              && (CountryByName(s, dto.countryName.value).None? ==>
                    && r.store.regions[r.result.value.id].country !in s.countries
                    && r.store.countries == s.countries[r.store.regions[r.result.value.id].country
                                                          := Country(None, dto.countryName.value)])
  {
    match FindOrCreateCountry(s, dto.countryName)
    case Err(e) => Step(Err(e), s)
    case Ok((k, t)) =>
      var violations := NameViolations(RegionEntity, dto.regionName);
      if violations != [] then
        Step(Err(ConstraintViolations(violations)), s)
      else if RegionByNameAndCountry(t, dto.regionName.value, k).Some? then
        Step(Err(RegionAlreadyExists("Region " + dto.regionName.value + " already exists in " + t.countries[k].name)), s)
      else
        var (q, u) := InsertRegion(t, Region(k, dto.regionName.value));
        Step(Ok(Project(u, q)), u)
  }

  /**
   * The country `updateRegion` gives the region: its own for a null country
   * name, otherwise the country with that name, which must exist.
   */
  function TargetCountry(s: Store, id: Id, countryName: Option<string>): (r: Result<Id, Fault>)
    requires Valid(s) && id in s.regions
    ensures r.Ok? ==> r.value in s.countries
    ensures countryName.None? ==> r == Ok(s.regions[id].country)
    ensures countryName.Some? ==> (r.Ok? <==> CountryByName(s, countryName.value).Some?)
    ensures countryName.Some? && r.Ok? ==> r.value == CountryByName(s, countryName.value).value
    ensures r.Err? ==> r.error == IllegalArgument("Country " + countryName.value
                                                  + " not found. Please create the country first of check country name.")
  {
    match countryName
    case None => Ok(s.regions[id].country)
    case Some(n) =>
      match CountryByName(s, n)
      case Some(k) => Ok(k)
      case None => Err(IllegalArgument("Country " + n + " not found. Please create the country first of check country name."))
  }

  /**
   * `updateRegion`: an unknown id fails; a null country name keeps the
   * country, an unknown one fails and a known one moves the region there; the
   * name is always overwritten. A null or empty name fails validation and a
   * (name, country) pair held by another region fails the unique constraint
   * at commit. Failures leave the store as it was.
   */
  function UpdateRegion(s: Store, id: Id, dto: RegionInput): (r: Step<RegionDto>)
    requires Valid(s)
    ensures Valid(r.store)
    ensures r.result.Err? ==> r.store == s
    ensures id !in s.regions ==> r.result == Err(IllegalArgument("Region with " + DecimalText(id) + " not found."))
    ensures id in s.regions && TargetCountry(s, id, dto.countryName).Err? ==>
              r.result == Err(TargetCountry(s, id, dto.countryName).error)
    ensures r.result.Ok? ==>
              && id in s.regions
              && dto.regionName.Some?
              && TargetCountry(s, id, dto.countryName).Ok?
              && var g := Region(TargetCountry(s, id, dto.countryName).value, dto.regionName.value);
                 && r.store == s.(regions := s.regions[id := g])
                 && r.result.value == RegionDto(id, g.name, s.countries[g.country].name)
    ensures id in s.regions && TargetCountry(s, id, dto.countryName).Ok? ==>
              (r.result.Ok? <==>
                 && dto.regionName.Some? && dto.regionName.value != ""
                 && forall q :: q in s.regions && q != id ==>
                      s.regions[q] != Region(TargetCountry(s, id, dto.countryName).value, dto.regionName.value))
  {
    if id !in s.regions then
      Step(Err(IllegalArgument("Region with " + DecimalText(id) + " not found.")), s)
    else
      match TargetCountry(s, id, dto.countryName)
      case Err(e) => Step(Err(e), s)
      case Ok(k) =>
        var violations := NameViolations(RegionEntity, dto.regionName);
        if violations != [] then
          Step(Err(ConstraintViolations(violations)), s)
        else if exists q :: q in s.regions && q != id && s.regions[q] == Region(k, dto.regionName.value) then
          Step(Err(IntegrityViolation), s)
        else
          var t := s.(regions := s.regions[id := Region(k, dto.regionName.value)]);
          Step(Ok(Project(t, id)), t)
  }

  /**
   * `deleteRegion`: true exactly when the region existed; it is then gone
   * with all its cities, and nothing else changes.
   */
  function DeleteRegion(s: Store, id: Id): (r: Deletion)
    requires Valid(s)
    ensures Valid(r.store)
    ensures r.existed <==> id in s.regions
    ensures !r.existed ==> r.store == s
    ensures id !in r.store.regions
    ensures r.store.countries == s.countries
    ensures r.store.regions == s.regions - {id}
    ensures forall c :: c in r.store.cities <==> c in s.cities && s.cities[c].region != id
    ensures forall c :: c in r.store.cities ==> r.store.cities[c] == s.cities[c]
  {
    if id in s.regions then Deletion(true, DeleteRegionRow(s, id))
    else Deletion(false, s)
  }

  /** Moving a region to another country moves all of its cities with it. */
  lemma UpdateRegionMovesCities(s: Store, id: Id, dto: RegionInput, c: Id)
    requires Valid(s)
    requires UpdateRegion(s, id, dto).result.Ok?
    requires c in s.cities && s.cities[c].region == id
    ensures var t := UpdateRegion(s, id, dto).store;
            c in t.cities && Linked(t)
            && t.countries[CountryOfCity(t, c)].name == UpdateRegion(s, id, dto).result.value.countryName
  {
  }

  /** Creating the same region twice: the second call fails and changes nothing. */
  lemma CreateRegionTwice(s: Store, dto: RegionInput)
    requires Valid(s)
    requires Creatable(s, dto)
    ensures var t := CreateRegion(s, dto).store;
            CreateRegion(t, dto) == Step(Err(RegionAlreadyExists("Region " + dto.regionName.value
                                                                + " already exists in " + dto.countryName.value)), t)
  {
    var r := CreateRegion(s, dto);
    var t := r.store;
    var k := CountryByName(t, dto.countryName.value).value;
    assert t.regions[r.result.value.id] == Region(k, dto.regionName.value);
  }

  /**
   * A created region is listed under its country's name, unless that name is
   * itself numeric, in which case the listing reads it as an id instead.
   */
  lemma CreatedRegionListedByCountryName(s: Store, dto: RegionInput)
    requires Valid(s)
    requires Creatable(s, dto)
    requires !IsNumeric(dto.countryName)
    ensures var r := CreateRegion(s, dto);
            GetRegionsByCountry(r.store, dto.countryName.value).Ok?
            && r.result.value in GetRegionsByCountry(r.store, dto.countryName.value).value
  {
    var r := CreateRegion(s, dto);
    var t := r.store;
    var name := dto.countryName.value;
    var q := r.result.value.id;
    var k := t.regions[q].country;
    assert t.countries[k].name == name;
    assert CountryByName(t, name) == Some(k);
    assert ResolveCountry(t, name) == Ok(k);
    assert q in RegionsOfCountry(t, k);
  }

  /** A deleted region can no longer be read. */
  lemma DeleteThenGet(s: Store, id: Id)
    requires Valid(s)
    ensures GetRegionById(DeleteRegion(s, id).store, id).Err?
  {
  }
}
