/**
 * The repository queries the services use, as filters over the store, and
 * `deleteById` with the cascades the entity mappings declare.
 */
module Repositories {
  import opened Wrappers
  import opened Faults
  import opened Hierarchy

  /**
   * `CountryRepository.findByName`: the country holding `name`. The name
   * column is unique, so there is at most one.
   */
  function CountryByName(s: Store, name: string): (r: Option<Id>)
    requires UniqueCountryNames(s.countries)
    ensures r.Some? ==> r.value in s.countries && s.countries[r.value].name == name
    ensures r.None? <==> forall k :: k in s.countries ==> s.countries[k].name != name
  {
    if exists k :: k in s.countries && s.countries[k].name == name then
      var k :| k in s.countries && s.countries[k].name == name;
      Some(k)
    else
      None
  }

  /** The ids of the regions named `name`, whatever their country. */
  function RegionsNamed(s: Store, name: string): set<Id> {
    set r | r in s.regions && s.regions[r].name == name
  }

  /**
   * `RegionRepository.findByName`: a single-result query on a column with no
   * unique constraint. No match is an empty answer, one match is that region,
   * and several matches make the query throw.
   */
  function RegionByName(s: Store, name: string): (r: Result<Option<Id>, Fault>)
    ensures r.Ok? && r.value.Some? ==> RegionsNamed(s, name) == {r.value.value}
    ensures r == Ok(None) <==> RegionsNamed(s, name) == {}
    ensures r.Err? <==> exists a, b :: a in RegionsNamed(s, name) && b in RegionsNamed(s, name) && a != b
    ensures r.Err? ==> r.error == NonUniqueResult
  {
    if exists a, b :: a in RegionsNamed(s, name) && b in RegionsNamed(s, name) && a != b then
      Err(NonUniqueResult)
    else if exists a :: a in RegionsNamed(s, name) then
      var a :| a in RegionsNamed(s, name);
      assert forall q :: q in RegionsNamed(s, name) <==> q == a;
      Ok(Some(a))
    else
      Ok(None)
  }

  /**
   * `RegionRepository.findByNameAndCountry`: the region of country `k` named
   * `name`; at most one exists, by the (name, country) unique constraint.
   */
  function RegionByNameAndCountry(s: Store, name: string, k: Id): (r: Option<Id>)
    requires UniqueRegionPairs(s.regions)
    ensures r.Some? ==> r.value in s.regions && s.regions[r.value] == Region(k, name)
    ensures r.None? <==> forall q :: q in s.regions ==> s.regions[q] != Region(k, name)
  {
    if exists q :: q in s.regions && s.regions[q] == Region(k, name) then
      var q :| q in s.regions && s.regions[q] == Region(k, name);
      Some(q)
    else
      None
  }

  /** `RegionRepository.findByCountry`: the ids of the regions of country `k`. */
  function RegionsOfCountry(s: Store, k: Id): (rs: set<Id>)
    ensures rs <= s.regions.Keys
    ensures forall q :: q in rs <==> q in s.regions && s.regions[q].country == k
  {
    set r | r in s.regions && s.regions[r].country == k
  }

  /** `CityRepository.findByCountryName`: the cities whose region's country is named `name`. */
  function CitiesOfCountryName(s: Store, name: string): (cs: set<Id>)
    requires Linked(s)
    ensures cs <= s.cities.Keys
    ensures forall c :: c in cs <==> c in s.cities && s.countries[CountryOfCity(s, c)].name == name
  {
    set c | c in s.cities && s.countries[CountryOfCity(s, c)].name == name
  }

  /** `CityRepository.findByCountryId`: the cities whose region's country has id `k`. */
  function CitiesOfCountryId(s: Store, k: Id): (cs: set<Id>)
    requires Linked(s)
    ensures cs <= s.cities.Keys
    ensures forall c :: c in cs <==> c in s.cities && CountryOfCity(s, c) == k
  {
    set c | c in s.cities && CountryOfCity(s, c) == k
  }

  /** Asking by a country's name and asking by its id give the same cities, because names are unique. */
  lemma CityQueriesAgree(s: Store, k: Id)
    requires Valid(s) && k in s.countries
    ensures CitiesOfCountryName(s, s.countries[k].name) == CitiesOfCountryId(s, k)
  {
  }

  /** A name no country holds, or an id no country has, selects no city. */
  lemma CityQueriesOfUnknownCountry(s: Store, name: string, k: Id)
    requires Linked(s)
    requires forall q :: q in s.countries ==> s.countries[q].name != name
    requires k !in s.countries
    ensures CitiesOfCountryName(s, name) == {}
    ensures CitiesOfCountryId(s, k) == {}
  {
  }

  /** Every city is selected by its own country's id and by no other. */
  lemma CitiesPartitionedByCountry(s: Store, c: Id, k: Id)
    requires Linked(s) && c in s.cities
    ensures c in CitiesOfCountryId(s, k) <==> k == CountryOfCity(s, c)
  {
  }

  /**
   * `CountryRepository.deleteById` with the cascades: the country goes, and
   * with it every region that references it and every city of those regions.
   */
  function DeleteCountryRow(s: Store, k: Id): (t: Store)
    requires Linked(s)
    ensures t.countries == s.countries - {k}
    ensures forall r :: r in t.regions <==> r in s.regions && s.regions[r].country != k
    ensures forall c :: c in t.cities <==> c in s.cities && CountryOfCity(s, c) != k
    ensures forall r :: r in t.regions ==> t.regions[r] == s.regions[r]
    ensures forall c :: c in t.cities ==> t.cities[c] == s.cities[c]
    ensures Valid(s) ==> Valid(t)
  {
    var doomed := RegionsOfCountry(s, k);
    var t := DeleteRegionRows(s, doomed);
    t.(countries := s.countries - {k})
  }

  /** `RegionRepository.deleteById` with the cascade: the region goes, and every city in it. */
  function DeleteRegionRow(s: Store, r: Id): (t: Store)
    ensures t.countries == s.countries
    ensures t.regions == s.regions - {r}
    ensures forall c :: c in t.cities <==> c in s.cities && s.cities[c].region != r
    ensures forall c :: c in t.cities ==> t.cities[c] == s.cities[c]
    ensures Valid(s) ==> Valid(t)
  {
    DeleteRegionRows(s, {r})
  }

  function DeleteRegionRows(s: Store, rs: set<Id>): (t: Store)
    ensures t.countries == s.countries
    ensures t.regions == s.regions - rs
    ensures forall c :: c in t.cities <==> c in s.cities && s.cities[c].region !in rs
    ensures forall c :: c in t.cities ==> t.cities[c] == s.cities[c]
    ensures t.nextCountry == s.nextCountry && t.nextRegion == s.nextRegion && t.nextCity == s.nextCity
    ensures Valid(s) ==> Valid(t)
  {
    s.(regions := s.regions - rs,
       cities := map c | c in s.cities && s.cities[c].region !in rs :: s.cities[c])
  }

  /** `CityRepository.deleteById`: cities own nothing, so only the city goes. */
  function DeleteCityRow(s: Store, c: Id): (t: Store)
    ensures t == s.(cities := s.cities - {c})
    ensures Valid(s) ==> Valid(t)
  {
    s.(cities := s.cities - {c})
  }
}
