/** `CountryService` (src/countries): the `countries` table. The database enforces a unique
    `iso2`; a unique `name` is enforced only by the service's own look-up. */
module Countries {
  import opened Common
  import opened Text
  import opened Table
  import opened CountryEntity
  import opened CountryDto

  datatype Country = Country(id: nat, iso2: string, name: string)

  predicate IsoUsedByOther(countries: map<nat, Country>, iso2: string, self: int)
  {
    exists id :: id in countries && id != self && countries[id].iso2 == iso2
  }

  predicate NameUsedByOther(countries: map<nat, Country>, name: string, self: int)
  {
    exists id :: id in countries && id != self && countries[id].name == name
  }

  /** The `uq_countries_iso2` constraint. */
  predicate IsosUnique(countries: map<nat, Country>)
  {
    forall a, b :: a in countries && b in countries && a != b ==> countries[a].iso2 != countries[b].iso2
  }

  /** What the service's checks aim at: no two countries share a name. */
  predicate NamesUnique(countries: map<nat, Country>)
  {
    forall a, b :: a in countries && b in countries && a != b ==> countries[a].name != countries[b].name
  }

  /** Every stored row went through the `normalize` hook and fits its columns. */
  predicate RowsNormalized(countries: map<nat, Country>)
  {
    forall id :: id in countries ==>
      && IsTrimmed(countries[id].iso2) && NoLowerAscii(countries[id].iso2)
      && IsTrimmed(countries[id].name)
      && |countries[id].iso2| <= Iso2Width && |countries[id].name| <= NameWidth
      && id <= IdMax
  }

  /** The database accepts writing `c`: its code is free and its id and both values fit their
      columns. */
  predicate StorageAccepts(countries: map<nat, Country>, c: Country)
  {
    && !IsoUsedByOther(countries, c.iso2, c.id)
    && |c.iso2| <= Iso2Width && |c.name| <= NameWidth && c.id <= IdMax
  }

  /** An update's name is absent, or non-empty and already trimmed, as a validated DTO's is. */
  predicate NameInNormalForm(name: Option<string>)
  {
    name.Some? ==> name.value != "" && IsTrimmed(name.value)
  }

  /** The row the `normalize` hook produces before the insert or update. */
  function Normalized(id: nat, iso2: string, name: string): (c: Country)
    ensures c.id == id
    ensures IsTrimmed(c.iso2) && NoLowerAscii(c.iso2) && IsTrimmed(c.name)
  {
    Country(id, NormalizeIso2(iso2), NormalizeName(name))
  }

  lemma {:induction false} WriteKeepsIsosUnique(countries: map<nat, Country>, c: Country)
    requires IsosUnique(countries) && !IsoUsedByOther(countries, c.iso2, c.id)
    ensures IsosUnique(countries[c.id := c])
  {
    var after := countries[c.id := c];
    forall a, b | a in after && b in after && a != b ensures after[a].iso2 != after[b].iso2 {
      if a == c.id {
        assert b in countries && b != c.id && after[b] == countries[b];
      } else if b == c.id {
        assert a in countries && a != c.id && after[a] == countries[a];
      }
    }
  }

  lemma {:induction false} WriteKeepsNamesUnique(countries: map<nat, Country>, c: Country)
    requires NamesUnique(countries) && !NameUsedByOther(countries, c.name, c.id)
    ensures NamesUnique(countries[c.id := c])
  {
    var after := countries[c.id := c];
    forall a, b | a in after && b in after && a != b ensures after[a].name != after[b].name {
      if a == c.id {
        assert b in countries && b != c.id && after[b] == countries[b];
      } else if b == c.id {
        assert a in countries && a != c.id && after[a] == countries[a];
      }
    }
  }

  lemma WriteKeepsNormalized(countries: map<nat, Country>, c: Country)
    requires RowsNormalized(countries)
    requires IsTrimmed(c.iso2) && NoLowerAscii(c.iso2) && IsTrimmed(c.name)
    requires |c.iso2| <= Iso2Width && |c.name| <= NameWidth && c.id <= IdMax
    ensures RowsNormalized(countries[c.id := c])
  {
  }

  /** An update whose name passed the service's check keeps names unique, provided the name
      given is in normal form and the stored one already was. */
  lemma UpdateKeepsNamesUnique(countries: map<nat, Country>, id: nat, name: Option<string>, v: Country)
    requires id in countries && NamesUnique(countries) && NameInNormalForm(name)
    requires IsTrimmed(countries[id].name)
    requires v.id == id && v.name == NormalizeName(OrElse(name, countries[id].name))
    requires !(Truthy(name) && name.value != countries[id].name && NameUsedByOther(countries, name.value, id))
    ensures NamesUnique(countries[id := v])
  {
    var c := countries[id];
    TrimOfTrimmed(OrElse(name, c.name));
    assert v.name == OrElse(name, c.name);
    if v.name == c.name {
      forall k | k in countries && k != id ensures countries[k].name != v.name {
      }
    }
    WriteKeepsNamesUnique(countries, v);
  }

  /** An insert whose name passed the service's check, and is stored as given, keeps names
      unique. */
  lemma InsertKeepsNamesUnique(countries: map<nat, Country>, name: string, c: Country)
    requires NamesUnique(countries) && !NameUsedByOther(countries, name, -1)
    requires c.name == name && c.id !in countries
    ensures NamesUnique(countries[c.id := c])
  {
    assert !NameUsedByOther(countries, c.name, c.id) by {
      forall k | k in countries && k != c.id ensures countries[k].name != c.name {
        assert k != -1;
      }
    }
    WriteKeepsNamesUnique(countries, c);
  }

  /** The hook stores a trimmed name unchanged. */
  lemma NameStoredAsGiven(name: string, c: Country)
    requires IsTrimmed(name) && c.name == NormalizeName(name)
    ensures c.name == name
  {
    TrimOfTrimmed(name);
  }

  class CountryService {
    var countries: map<nat, Country>
    var nextId: nat

    ghost predicate Valid()
      reads this
    {
      && (forall id :: id in countries ==> countries[id].id == id && id < nextId)
      && IsosUnique(countries)
      && RowsNormalized(countries)
    }

    constructor()
      ensures Valid() && countries == map[] && nextId == 1
    {
      countries := map[];
      nextId := 1;
    }

    /** `create`: both fields are required; a code, then a name, already stored is Conflict.
        The hook then normalizes the row, and a clash or an over-long value the service did not
        look for is the storage error it rethrows. Names stay unique when the given name is
        already in normal form, as every validated DTO's is. */
    method Create(iso2: Option<string>, name: Option<string>) returns (r: Result<Country, HttpError>)
      requires Valid()
      modifies this
      ensures Valid()
      ensures !Truthy(iso2) || !Truthy(name) ==> r == Err(BadRequest)
      ensures Truthy(iso2) && Truthy(name) ==>
        var c := Normalized(old(nextId), iso2.value, name.value);
        r == (if IsoUsedByOther(old(countries), iso2.value, -1) then Err(Conflict)
              else if NameUsedByOther(old(countries), name.value, -1) then Err(Conflict)
              else if !StorageAccepts(old(countries), c) then Err(InternalServerError)
              else Ok(c))
      ensures r.Ok? ==> countries == old(countries)[r.value.id := r.value] && nextId == old(nextId) + 1
      ensures r.Err? ==> countries == old(countries) && nextId == old(nextId)
      ensures r.Ok? && NamesUnique(old(countries)) && IsTrimmed(name.value) ==>
        NamesUnique(countries)
    {
      if !Truthy(iso2) || !Truthy(name) {
        return Err(BadRequest);
      }
      if IsoUsedByOther(countries, iso2.value, -1) {
        return Err(Conflict);
      }
      if NameUsedByOther(countries, name.value, -1) {
        return Err(Conflict);
      }
      var c := Normalized(nextId, iso2.value, name.value);
      if !StorageAccepts(countries, c) {
        return Err(InternalServerError);
      }
      WriteKeepsIsosUnique(countries, c);
      WriteKeepsNormalized(countries, c);
      if NamesUnique(countries) && IsTrimmed(name.value) {
        NameStoredAsGiven(name.value, c);
        InsertKeepsNamesUnique(countries, name.value, c);
      }
      countries := countries[c.id := c];
      nextId := nextId + 1;
      r := Ok(c);
    }

    /** `findAll`: every country, newest first. */
    method FindAll() returns (r: seq<Country>)
      requires forall id :: id in countries ==> countries[id].id == id
      ensures r == RowsDescending(countries, (c: Country) => c.id)
    {
      r := RowsDescending(countries, (c: Country) => c.id);
    }

    /** `findOne(where)`: some country satisfying `where`, or none. */
    method FindOne(where: Country -> bool) returns (r: Option<Country>)
      ensures r.None? <==> forall id :: id in countries ==> !where(countries[id])
      ensures r.Some? ==> r.value in countries.Values && where(r.value)
    {
      if id :| id in countries && where(countries[id]) {
        r := Some(countries[id]);
      } else {
        r := None;
      }
    }

    /** `findOneById`: the country, or NotFound. */
    method FindOneById(id: nat) returns (r: Result<Country, HttpError>)
      ensures r.Err? <==> id !in countries
      ensures r.Err? ==> r.error == NotFound
      ensures r.Ok? ==> r.value == countries[id]
    {
      if id !in countries {
        return Err(NotFound);
      }
      r := Ok(countries[id]);
    }

    /** `updateCountry`: NotFound for a missing id; a non-empty new code or name that differs
        from the country's own and belongs to another country is Conflict; an omitted field
        keeps its value; the hook normalizes the row before it is written. */
    method UpdateCountry(id: nat, iso2: Option<string>, name: Option<string>)
      returns (r: Result<Country, HttpError>)
      requires Valid()
      modifies this`countries
      ensures Valid()
      ensures id !in old(countries) ==> r == Err(NotFound)
      ensures id in old(countries) ==>
        var c := old(countries)[id];
        var v := Normalized(id, OrElse(iso2, c.iso2), OrElse(name, c.name));
        r == (if Truthy(iso2) && iso2.value != c.iso2
                 && IsoUsedByOther(old(countries), iso2.value, id) then Err(Conflict)
              else if Truthy(name) && name.value != c.name
                 && NameUsedByOther(old(countries), name.value, id) then Err(Conflict)
              else if !StorageAccepts(old(countries), v) then Err(InternalServerError)
              else Ok(v))
      ensures r.Ok? ==> countries == old(countries)[id := r.value]
      ensures r.Err? ==> countries == old(countries)
      ensures r.Ok? && NamesUnique(old(countries)) && NameInNormalForm(name) ==> NamesUnique(countries)
    {
      if id !in countries {
        return Err(NotFound);
      }
      var c := countries[id];
      if Truthy(iso2) && iso2.value != c.iso2 && IsoUsedByOther(countries, iso2.value, id) {
        return Err(Conflict);
      }
      if Truthy(name) && name.value != c.name && NameUsedByOther(countries, name.value, id) {
        return Err(Conflict);
      }
      var v := Normalized(id, OrElse(iso2, c.iso2), OrElse(name, c.name));
      if !StorageAccepts(countries, v) {
        return Err(InternalServerError);
      }
      WriteKeepsIsosUnique(countries, v);
      WriteKeepsNormalized(countries, v);
      if NamesUnique(countries) && NameInNormalForm(name) {
        UpdateKeepsNamesUnique(countries, id, name, v);
      }
      countries := countries[id := v];
      r := Ok(v);
    }

    /** `deleteCountry`: NotFound when no row has the id; BadRequest, with the row kept, when a
        restricting foreign key still points at it (`referenced`). */
    method DeleteCountry(id: nat, referenced: set<nat>) returns (r: Result<(), HttpError>)
      requires Valid()
      modifies this`countries
      ensures Valid()
      ensures r == (if id !in old(countries) then Err(NotFound)
                    else if id in referenced then Err(BadRequest)
                    else Ok(()))
      ensures r.Ok? ==> countries == old(countries) - {id}
      ensures r.Err? ==> countries == old(countries)
    {
      if id !in countries {
        return Err(NotFound);
      }
      if id in referenced {
        return Err(BadRequest);
      }
      countries := countries - {id};
      r := Ok(());
    }
  }

  /** A validated create whose code is free, made while the id sequence has room, is stored: after the DTO's transform the hook
      changes nothing, the code is two letters and the name fits its column, so the database
      accepts the row that the service's own checks let through. */
  lemma ValidCreateIsStored(countries: map<nat, Country>, dto: CreateCountryDto, id: nat)
    requires ValidCreate(dto)
    requires !IsoUsedByOther(countries, CreateIso2(dto), -1) && id !in countries && id <= IdMax
    ensures var c := Normalized(id, CreateIso2(dto), CreateName(dto));
      && c == Country(id, CreateIso2(dto), CreateName(dto))
      && StorageAccepts(countries, c)
  {
    var c := Normalized(id, CreateIso2(dto), CreateName(dto));
    assert !IsoUsedByOther(countries, c.iso2, c.id) by {
      forall k | k in countries && k != id ensures countries[k].iso2 != c.iso2 {
        assert k != -1;
      }
    }
  }
}
