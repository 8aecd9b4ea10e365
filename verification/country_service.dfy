/** The country operations: lookup by id, insert, partial update and cascading delete. */
module CountryService {
  import opened Wrappers
  import opened JavaText
  import opened Faults
  import opened Hierarchy
  import opened Repositories

  /** A country as a request body carries it; either field may be null. */
  datatype CountryInput = CountryInput(code: Option<string>, name: Option<string>)

  /** `getCountryById`: the stored row, or a "not found" failure. */
  function GetCountryById(s: Store, id: Id): (r: Result<Country, Fault>)
    ensures r.Ok? <==> id in s.countries
    ensures r.Ok? ==> r.value == s.countries[id]
    ensures r.Err? ==> r.error == RuntimeFailure("Country with id " + DecimalText(id) + " not found")
  {
    if id in s.countries then Ok(s.countries[id])
    else Err(RuntimeFailure("Country with id " + DecimalText(id) + " not found"))
  }

  /** Inserts `c` under the next identity value. */
  function InsertCountry(s: Store, c: Country): (r: (Id, Store))
    requires Valid(s) && c.name != ""
    requires forall k :: k in s.countries ==> s.countries[k].name != c.name
    ensures r.0 !in s.countries
    ensures r.1 == s.(countries := s.countries[r.0 := c], nextCountry := s.nextCountry + 1)
    ensures Valid(r.1)
  {
    (s.nextCountry, s.(countries := s.countries[s.nextCountry := c], nextCountry := s.nextCountry + 1))
  }

  /**
   * `saveCountry`: the name is validated first, then the unique name
   * constraint is checked; either failure leaves the store as it was.
   * Otherwise exactly one country is added, with the given code and name.
   */
  function SaveCountry(s: Store, c: CountryInput): (r: Step<Id>)
    requires Valid(s)
    ensures Valid(r.store)
    ensures r.result.Ok? <==> c.name.Some? && c.name.value != "" && CountryByName(s, c.name.value).None?
    ensures r.result.Err? ==> r.store == s
    ensures NameViolations(CountryEntity, c.name) != [] ==> r.result == Err(ConstraintViolations(NameViolations(CountryEntity, c.name)))
    ensures c.name.Some? && c.name.value != "" && CountryByName(s, c.name.value).Some?
            ==> r.result == Err(CountryAlreadyExists("Country " + c.name.value + " already exists."))
    ensures r.result.Ok? ==>
              && r.result.value !in s.countries
              && r.store.countries == s.countries[r.result.value := Country(c.code, c.name.value)]
              && r.store.regions == s.regions
              && r.store.cities == s.cities
  {
    var violations := NameViolations(CountryEntity, c.name);
    if violations != [] then
      Step(Err(ConstraintViolations(violations)), s)
    else if CountryByName(s, c.name.value).Some? then
      Step(Err(CountryAlreadyExists("Country " + c.name.value + " already exists.")), s)
    else
      var (k, t) := InsertCountry(s, Country(c.code, c.name.value));
      Step(Ok(k), t)
  }

  /**
   * The country lookup `createCity` and `createRegion` start with: the
   * country named `name` if there is one, otherwise a new country with that
   * name and no code. A null or empty name finds nothing and the new row fails
   * validation. The store is returned as the caller's transaction sees it.
   */
  function FindOrCreateCountry(s: Store, name: Option<string>): (r: Result<(Id, Store), Fault>)
    requires Valid(s)
    ensures r.Ok? ==> Valid(r.value.1) && r.value.0 in r.value.1.countries
    ensures r.Ok? <==> name.Some? && name.value != ""
    ensures r.Ok? ==> r.value.1.countries[r.value.0].name == name.value
    ensures r.Err? ==> r.error == ConstraintViolations(NameViolations(CountryEntity, name))
    ensures name.Some? && CountryByName(s, name.value).Some? ==> r == Ok((CountryByName(s, name.value).value, s))
    ensures r.Ok? && CountryByName(s, name.value).None? ==>
              && r.value.0 !in s.countries
              && r.value.1 == s.(countries := s.countries[r.value.0 := Country(None, name.value)],
                                 nextCountry := s.nextCountry + 1)
  {
    var found := if name.Some? then CountryByName(s, name.value) else None;
    if found.Some? then
      Ok((found.value, s))
    else if NameViolations(CountryEntity, name) != [] then
      Err(ConstraintViolations(NameViolations(CountryEntity, name)))
    else
      Ok(InsertCountry(s, Country(None, name.value)))
  }

  /** The row `updateCountry` writes: each null field of the request keeps the stored value. */
  function Merged(stored: Country, c: CountryInput): Country {
    Country(if c.code.Some? then c.code else stored.code, if c.name.Some? then c.name.value else stored.name)
  }

  /**
   * `updateCountry`: an unknown id fails; a null field keeps the stored value
   * and a non-null one overwrites it; an empty name fails validation and a
   * name held by another country fails the unique constraint, both leaving
   * the store as it was. Regions and cities are never touched.
   */
  function UpdateCountry(s: Store, id: Id, c: CountryInput): (r: Step<Country>)
    requires Valid(s)
    ensures Valid(r.store)
    ensures id !in s.countries ==> r.result == Err(RuntimeFailure("Country with id " + DecimalText(id) + " not found"))
    ensures r.result.Err? ==> r.store == s
    ensures r.result.Ok? ==>
              && id in s.countries
              && r.store == s.(countries := s.countries[id := r.result.value])
              && r.result.value.name == (if c.name.Some? then c.name.value else s.countries[id].name)
              && r.result.value.code == (if c.code.Some? then c.code else s.countries[id].code)
    ensures id in s.countries && c.name == Some("") ==> r.result == Err(ConstraintViolations([EmptyMessage(CountryEntity)]))
    ensures id in s.countries && c.name.Some? && c.name.value != ""
            && (exists k :: k in s.countries && k != id && s.countries[k].name == c.name.value)
            ==> r.result == Err(CountryAlreadyExists("Country " + c.name.value + " already exists."))
    ensures id in s.countries ==>
              (r.result.Ok? <==>
                 c.name.None?
                 || (c.name.value != "" && forall k :: k in s.countries && k != id ==> s.countries[k].name != c.name.value))
  {
    if id !in s.countries then
      Step(Err(RuntimeFailure("Country with id " + DecimalText(id) + " not found")), s)
    else
      var updated := Merged(s.countries[id], c);
      if updated.name == "" then
        Step(Err(ConstraintViolations(NameViolations(CountryEntity, Some("")))), s)
      else if exists k :: k in s.countries && k != id && s.countries[k].name == updated.name then
        Step(Err(CountryAlreadyExists("Country " + NullableText(c.name) + " already exists.")), s)
      else
        Step(Ok(updated), s.(countries := s.countries[id := updated]))
  }

  /**
   * `deleteCountry`: true exactly when the country existed; it is then gone,
   * and with it every region of it and every city of those regions. Nothing
   * else changes. An unknown id changes nothing.
   */
  function DeleteCountry(s: Store, id: Id): (r: Deletion)
    requires Valid(s)
    ensures Valid(r.store)
    ensures r.existed <==> id in s.countries
    ensures !r.existed ==> r.store == s
    ensures id !in r.store.countries
    ensures r.store.countries == s.countries - {id}
    ensures forall q :: q in r.store.regions <==> q in s.regions && s.regions[q].country != id
    ensures forall c :: c in r.store.cities <==> c in s.cities && CountryOfCity(s, c) != id
    ensures forall q :: q in r.store.regions ==> r.store.regions[q] == s.regions[q]
    ensures forall c :: c in r.store.cities ==> r.store.cities[c] == s.cities[c]
  {
    if id in s.countries then Deletion(true, DeleteCountryRow(s, id))
    else Deletion(false, s)
  }

  /** A saved country reads back by its new id with the code and name it was saved with. */
  lemma SaveThenGet(s: Store, c: CountryInput)
    requires Valid(s)
    requires SaveCountry(s, c).result.Ok?
    ensures var r := SaveCountry(s, c);
            GetCountryById(r.store, r.result.value) == Ok(Country(c.code, c.name.value))
  {
  }

  /** Saving the same name twice: the second save fails and changes nothing. */
  lemma SaveTwiceConflicts(s: Store, c: CountryInput, d: CountryInput)
    requires Valid(s)
    requires SaveCountry(s, c).result.Ok? && d.name == c.name
    ensures var t := SaveCountry(s, c).store;
            SaveCountry(t, d) == Step(Err(CountryAlreadyExists("Country " + c.name.value + " already exists.")), t)
  {
    var r := SaveCountry(s, c);
    assert r.store.countries[r.result.value].name == c.name.value;
  }

  /** A second delete of the same id reports absence and changes nothing. */
  lemma DeleteTwice(s: Store, id: Id)
    requires Valid(s)
    ensures var t := DeleteCountry(s, id).store;
            DeleteCountry(t, id) == Deletion(false, t)
  {
  }

  /** An update reads back: the stored country is the request merged over the old row. */
  lemma UpdateThenGet(s: Store, id: Id, c: CountryInput)
    requires Valid(s)
    requires UpdateCountry(s, id, c).result.Ok?
    ensures GetCountryById(UpdateCountry(s, id, c).store, id) == Ok(Merged(s.countries[id], c))
  {
  }

  /** An update with both fields null changes nothing and returns the stored row. */
  lemma EmptyUpdateChangesNothing(s: Store, id: Id)
    requires Valid(s) && id in s.countries
    ensures UpdateCountry(s, id, CountryInput(None, None)) == Step(Ok(s.countries[id]), s)
  {
    assert s.countries[id := s.countries[id]] == s.countries;
  }

  /**
   * A rename to a non-empty name no other country holds succeeds, and the
   * country then reads back with the new code and name.
   */
  lemma RenameThenGet(s: Store, id: Id, code: string, name: string)
    requires Valid(s) && id in s.countries && name != ""
    requires forall k :: k in s.countries && k != id ==> s.countries[k].name != name
    ensures var r := UpdateCountry(s, id, CountryInput(Some(code), Some(name)));
            r.result.Ok? && GetCountryById(r.store, id) == Ok(Country(Some(code), name))
  {
  }
}
