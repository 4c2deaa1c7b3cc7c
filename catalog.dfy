/** `RoleService` (src/roles) and `PermissionService` (src/permissions): two copies of the same
    code over two tables of named entries, each with a unique `name` column of 100 characters
    and an optional text description. Their updates write only the description. */
module Catalog {
  import opened Common
  import opened Text
  import opened Table

  const NameWidth: nat := 100

  datatype Entry = Entry(id: nat, name: string, description: Option<string>)

  predicate NameUsedByOther(entries: map<nat, Entry>, name: string, self: int)
  {
    exists id :: id in entries && id != self && entries[id].name == name
  }

  /** The unique constraint of the `name` column. */
  predicate NamesUnique(entries: map<nat, Entry>)
  {
    forall a, b :: a in entries && b in entries && a != b ==> entries[a].name != entries[b].name
  }

  /** `dto.description?.trim() || null`: a blank or absent description is stored as null. */
  function CleanDescription(d: Option<string>): (r: Option<string>)
    ensures r.Some? <==> d.Some? && Trim(d.value) != ""
    ensures r.Some? ==> r.value == Trim(d.value) && IsTrimmed(r.value)
  {
    if d.Some? && Trim(d.value) != "" then Some(Trim(d.value)) else None
  }

  lemma CleanDescriptionIdempotent(d: Option<string>)
    ensures CleanDescription(CleanDescription(d)) == CleanDescription(d)
  {
    if d.Some? {
      TrimIdempotent(d.value);
    }
  }

  lemma {:induction false} WriteKeepsNamesUnique(entries: map<nat, Entry>, e: Entry)
    requires NamesUnique(entries) && !NameUsedByOther(entries, e.name, e.id)
    ensures NamesUnique(entries[e.id := e])
  {
    var after := entries[e.id := e];
    forall a, b | a in after && b in after && a != b ensures after[a].name != after[b].name {
      if a == e.id {
        assert b in entries && b != e.id && after[b] == entries[b];
      } else if b == e.id {
        assert a in entries && a != e.id && after[a] == entries[a];
      }
    }
  }

  class CatalogService {
    /** The `role` (or `permission`) table. */
    var entries: map<nat, Entry>
    var nextId: nat

    /** Ids, the unique name, and names as `create` stores them: trimmed, non-empty and
        within the column. */
    ghost predicate Valid()
      reads this
    {
      && (forall id :: id in entries ==> entries[id].id == id && id < nextId)
      && NamesUnique(entries)
      && (forall id :: id in entries ==>
            entries[id].name != "" && IsTrimmed(entries[id].name) && |entries[id].name| <= NameWidth)
    }

    constructor()
      ensures Valid() && entries == map[] && nextId == 1
    {
      entries := map[];
      nextId := 1;
    }

    /** `create`: a missing or blank name is BadRequest; the trimmed name is stored with the
        cleaned description; a name already stored is the unique violation mapped to Conflict,
        and a name too wide for its column is the storage error rethrown. */
    method Create(name: Option<string>, description: Option<string>) returns (r: Result<Entry, HttpError>)
      requires Valid()
      modifies this
      ensures Valid()
      ensures name.None? || Trim(name.value) == "" ==> r == Err(BadRequest)
      ensures name.Some? && Trim(name.value) != "" ==>
        var e := Entry(old(nextId), Trim(name.value), CleanDescription(description));
        r == (if NameUsedByOther(old(entries), e.name, -1) then Err(Conflict)
              else if |e.name| > NameWidth then Err(InternalServerError)
              else Ok(e))
      ensures r.Ok? ==> entries == old(entries)[r.value.id := r.value] && nextId == old(nextId) + 1
      ensures r.Err? ==> entries == old(entries) && nextId == old(nextId)
    {
      if name.None? || Trim(name.value) == "" {
        return Err(BadRequest);
      }
      var e := Entry(nextId, Trim(name.value), CleanDescription(description));
      if NameUsedByOther(entries, e.name, -1) {
        return Err(Conflict);
      }
      if |e.name| > NameWidth {
        return Err(InternalServerError);
      }
      assert !NameUsedByOther(entries, e.name, e.id);
      WriteKeepsNamesUnique(entries, e);
      entries := entries[e.id := e];
      nextId := nextId + 1;
      r := Ok(e);
    }

    /** `findAll`: every entry, newest first. */
    method FindAll() returns (r: seq<Entry>)
      requires forall id :: id in entries ==> entries[id].id == id
      ensures r == RowsDescending(entries, (e: Entry) => e.id)
    {
      r := RowsDescending(entries, (e: Entry) => e.id);
    }

    /** `findOne(where)`: some entry satisfying `where`, or none. */
    method FindOne(where: Entry -> bool) returns (r: Option<Entry>)
      ensures r.None? <==> forall id :: id in entries ==> !where(entries[id])
      ensures r.Some? ==> r.value in entries.Values && where(r.value)
    {
      if id :| id in entries && where(entries[id]) {
        r := Some(entries[id]);
      } else {
        r := None;
      }
    }

    /** `findOneById`: the entry, or NotFound. */
    method FindOneById(id: nat) returns (r: Result<Entry, HttpError>)
      ensures r.Err? <==> id !in entries
      ensures r.Err? ==> r.error == NotFound
      ensures r.Ok? ==> r.value == entries[id]
    {
      if id !in entries {
        return Err(NotFound);
      }
      r := Ok(entries[id]);
    }

    /** `updateRole` / `updatePermission`: NotFound for a missing id; a non-empty new name that
        differs from the entry's own and belongs to another entry is Conflict. Otherwise only
        the description is written (kept when omitted); the name never changes, even when a
        free new name is given. */
    method Update(id: nat, name: Option<string>, description: Option<string>)
      returns (r: Result<Entry, HttpError>)
      requires Valid()
      modifies this`entries
      ensures Valid()
      ensures id !in old(entries) ==> r == Err(NotFound)
      ensures id in old(entries) ==>
        var e := old(entries)[id];
        r == (if Truthy(name) && name.value != e.name && NameUsedByOther(old(entries), name.value, id)
              then Err(Conflict)
              else Ok(e.(description := Coalesce(description, e.description))))
      ensures r.Ok? ==> r.value.name == old(entries)[id].name
      ensures r.Ok? ==> entries == old(entries)[id := r.value]
      ensures r.Err? ==> entries == old(entries)
    {
      if id !in entries {
        return Err(NotFound);
      }
      var e := entries[id];
      if Truthy(name) && name.value != e.name && NameUsedByOther(entries, name.value, id) {
        return Err(Conflict);
      }
      var v := e.(description := Coalesce(description, e.description));
      assert !NameUsedByOther(entries, v.name, id) by {
        forall k | k in entries && k != id ensures entries[k].name != v.name {
        }
      }
      WriteKeepsNamesUnique(entries, v);
      entries := entries[id := v];
      r := Ok(v);
    }

    /** `deleteRole` / `deletePermission`: NotFound when no row has the id; BadRequest, with
        the row kept, when a restricting foreign key still points at it. */
    method Delete(id: nat, referenced: set<nat>) returns (r: Result<(), HttpError>)
      requires Valid()
      modifies this`entries
      ensures Valid()
      ensures r == (if id !in old(entries) then Err(NotFound)
                    else if id in referenced then Err(BadRequest)
                    else Ok(()))
      ensures r.Ok? ==> entries == old(entries) - {id}
      ensures r.Err? ==> entries == old(entries)
    {
      if id !in entries {
        return Err(NotFound);
      }
      if id in referenced {
        return Err(BadRequest);
      }
      entries := entries - {id};
      r := Ok(());
    }
  }
}
