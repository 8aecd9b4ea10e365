/**
 * The Country -> Region -> City entities and the store that holds them: one
 * table per entity, keyed by surrogate id, with the constraints the entity
 * mappings declare.
 */
module Hierarchy {
  import opened Wrappers
  import opened Faults

  /** A surrogate key (a Java `Long`). */
  type Id = int

  /** A country row: optional country code and its name. */
  datatype Country = Country(code: Option<string>, name: string)

  /** A region row: the country it belongs to and its name. */
  datatype Region = Region(country: Id, name: string)

  /** A city row: the region it belongs to and its name. */
  datatype City = City(region: Id, name: string)

  /**
   * The three tables, plus each table's identity counter: the id the next
   * inserted row receives.
   */
  datatype Store = Store(
    countries: map<Id, Country>,
    regions: map<Id, Region>,
    cities: map<Id, City>,
    nextCountry: Id,
    nextRegion: Id,
    nextCity: Id)

  /**
   * A transactional service call: what it returned or threw, and the store
   * once the transaction has committed or, after a throw, rolled back.
   */
  datatype Step<T> = Step(result: Result<T, Fault>, store: Store)

  /** A delete-by-id service call: whether the row was there, and the store afterwards. */
  datatype Deletion = Deletion(existed: bool, store: Store)

  /** The unique constraint on the country name column. */
  ghost predicate UniqueCountryNames(countries: map<Id, Country>) {
    forall a, b :: a in countries && b in countries && countries[a].name == countries[b].name ==> a == b
  }

  /** The unique constraint on the (name, country_id) columns of the region table. */
  ghost predicate UniqueRegionPairs(regions: map<Id, Region>) {
    forall a, b ::
      a in regions && b in regions && regions[a].name == regions[b].name && regions[a].country == regions[b].country
      ==> a == b
  }

  /** The non-null foreign keys: every region has its country, every city its region. */
  ghost predicate Linked(s: Store) {
    && (forall r :: r in s.regions ==> s.regions[r].country in s.countries)
    && (forall c :: c in s.cities ==> s.cities[c].region in s.regions)
  }

  /** The @NotNull/@NotEmpty name constraints of the three entities. */
  ghost predicate NamesPresent(s: Store) {
    && (forall k :: k in s.countries ==> s.countries[k].name != "")
    && (forall r :: r in s.regions ==> s.regions[r].name != "")
    && (forall c :: c in s.cities ==> s.cities[c].name != "")
  }

  /** Identity counters run ahead of every id in use. */
  ghost predicate CountersAhead(s: Store) {
    && (forall k :: k in s.countries ==> k < s.nextCountry)
    && (forall r :: r in s.regions ==> r < s.nextRegion)
    && (forall c :: c in s.cities ==> c < s.nextCity)
  }

  ghost predicate Valid(s: Store) {
    && UniqueCountryNames(s.countries)
    && UniqueRegionPairs(s.regions)
    && Linked(s)
    && NamesPresent(s)
    && CountersAhead(s)
  }

  /** The empty database; identity columns start at 1. */
  const Empty: Store := Store(map[], map[], map[], 1, 1, 1)

  /** The empty database satisfies every invariant. */
  lemma EmptyValid()
    ensures Valid(Empty)
  {
  }

  /** The country a city lies in: its region's country, never stored on the city itself. */
  function CountryOfCity(s: Store, c: Id): (k: Id)
    requires Linked(s) && c in s.cities
    ensures k in s.countries
  {
    s.regions[s.cities[c].region].country
  }

  /** The three entities, for naming their validation messages. */
  datatype Entity = CountryEntity | RegionEntity | CityEntity

  /** The @NotNull message of an entity's name field. */
  function RequiredMessage(e: Entity): string {
    match e
    case CountryEntity => "Country name is required"
    case RegionEntity => "Region name is required"
    case CityEntity => "City name is required"
  }

  /** The @NotEmpty message of an entity's name field. */
  function EmptyMessage(e: Entity): string {
    match e
    case CountryEntity => "Country name cannot be empty"
    case RegionEntity => "Region name cannot be empty"
    case CityEntity => "City name cannot be empty"
  }

  /**
   * Bean-validation messages for a name field carrying @NotNull and
   * @NotEmpty; empty exactly when the name is present and non-empty. A null
   * name breaks both constraints, an empty one only the second.
   */
  function NameViolations(e: Entity, name: Option<string>): (ms: seq<string>)
    ensures ms == [] <==> name.Some? && name.value != ""
    ensures name.None? ==> ms == [RequiredMessage(e), EmptyMessage(e)]
    ensures name == Some("") ==> ms == [EmptyMessage(e)]
  {
    match name
    case None => [RequiredMessage(e), EmptyMessage(e)]
    case Some(n) => if n == "" then [EmptyMessage(e)] else []
  }
}
