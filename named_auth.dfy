/** `RoleService` (src/role) and `PermissionService` (src/permission): two copies of the same
    code over the `role` and `permission` tables of the `AuthException` family. Every write runs
    in a transaction that is rolled back on any error; the two copies differ only in the codes
    they throw. */
module NamedAuth {
  import opened Common
  import opened Table

  const NameWidth: nat := 100
  const DescriptionWidth: nat := 255

  datatype Entry = Entry(id: nat, name: string, description: Option<string>)

  /** The codes one copy throws: `ROLE_NAME_ALREADY_EXIST` and `ROLE_NOT_FOUND`, or their
      `PERMISSION_` counterparts. */
  datatype Codes = Codes(nameTaken: AuthCode, notFound: AuthCode)

  const RoleCodes := Codes(RoleNameAlreadyExist, RoleNotFound)
  const PermissionCodes := Codes(PermissionNameAlreadyExist, PermissionNotFound)

  predicate NameUsedByOther(entries: map<nat, Entry>, name: string, self: int)
  {
    exists id :: id in entries && id != self && entries[id].name == name
  }

  predicate NameStored(entries: map<nat, Entry>, name: string)
  {
    exists id :: id in entries && entries[id].name == name
  }

  /** The unique constraint of the `name` column. */
  predicate NamesUnique(entries: map<nat, Entry>)
  {
    forall a, b :: a in entries && b in entries && a != b ==> entries[a].name != entries[b].name
  }

  /** The database accepts writing `e`: its name is free and both values fit their columns. */
  predicate StorageAccepts(entries: map<nat, Entry>, e: Entry)
  {
    && !NameUsedByOther(entries, e.name, e.id)
    && |e.name| <= NameWidth
    && (e.description.Some? ==> |e.description.value| <= DescriptionWidth)
  }

  /** The row `update(dto)` writes: every field the dto carries replaces the stored one. */
  function Applied(e: Entry, name: Option<string>, description: Option<string>): (v: Entry)
    ensures v.id == e.id
    ensures name.Some? ==> v.name == name.value
    ensures name.None? ==> v.name == e.name
    ensures description.Some? ==> v.description == description
    ensures description.None? ==> v.description == e.description
  {
    Entry(e.id, OrElse(name, e.name), Coalesce(description, e.description))
  }

  lemma {:induction false} WriteKeepsNamesUnique(entries: map<nat, Entry>, e: Entry)
    requires NamesUnique(entries) && !NameUsedByOther(entries, e.name, e.id)
    ensures NamesUnique(entries[e.id := e])
  {
    var after := entries[e.id := e];
    forall a, b | a in after && b in after && a != b ensures after[a].name != after[b].name {
      if a == e.id {
        assert b in entries && b != e.id && after[b] == entries[b];
      } else if b == e.id {
        assert a in entries && a != e.id && after[a] == entries[a];
      }
    }
  }

  /** What `updateRole` / `updatePermission` answers: the not-found code for a missing id; a
      non-empty name stored anywhere in the table, the entry's own current name included, is
      the name-taken code; a write the database refuses is the storage error; otherwise the
      entry with every field the dto carries applied. */
  function UpdateOutcome(codes: Codes, entries: map<nat, Entry>, id: nat,
                         name: Option<string>, description: Option<string>): (r: Result<Entry, AuthFailure>)
    ensures r.Ok? ==>
              id in entries && r.value == Applied(entries[id], name, description)
              && StorageAccepts(entries, r.value)
    ensures id !in entries ==> r == Err(AuthException(codes.notFound))
  {
    if id !in entries then Err(AuthException(codes.notFound))
    else
      var v := Applied(entries[id], name, description);
      if Truthy(name) && NameStored(entries, name.value) then Err(AuthException(codes.nameTaken))
      else if !StorageAccepts(entries, v) then Err(StorageError)
      else Ok(v)
  }

  /** Updating an entry to its own current name always fails: the name check finds the entry
      itself. */
  lemma OwnNameRejected(codes: Codes, entries: map<nat, Entry>, id: nat, description: Option<string>)
    requires id in entries && entries[id].name != ""
    ensures UpdateOutcome(codes, entries, id, Some(entries[id].name), description)
      == Err(AuthException(codes.nameTaken))
  {
    assert NameStored(entries, entries[id].name) by {
      assert id in entries && entries[id].name == entries[id].name;
    }
  }

  class NamedAuthService {
    /** The codes this copy throws. */
    const codes: Codes
    var entries: map<nat, Entry>
    var nextId: nat

    ghost predicate Valid()
      reads this
    {
      && (forall id :: id in entries ==> entries[id].id == id && id < nextId)
      && NamesUnique(entries)
    }

    constructor(codes: Codes)
      ensures Valid() && this.codes == codes && entries == map[] && nextId == 1
    {
      this.codes := codes;
      entries := map[];
      nextId := 1;
    }

    /** `create`: a non-empty name already stored is the name-taken code. A missing name breaks
        the column's NOT NULL, and a clash the check did not look for (an empty name) or an
        over-long value breaks the table; those storage errors are rethrown. Any error rolls
        the insert back. */
    method Create(name: Option<string>, description: Option<string>) returns (r: Result<Entry, AuthFailure>)
      requires Valid()
      modifies this`entries, this`nextId
      ensures Valid()
      ensures r == (if Truthy(name) && NameStored(old(entries), name.value) then Err(AuthException(codes.nameTaken))
                    else if name.None? then Err(StorageError)
                    else if !StorageAccepts(old(entries), Entry(old(nextId), name.value, description))
                      then Err(StorageError)
                    else Ok(Entry(old(nextId), name.value, description)))
      ensures r.Ok? ==> entries == old(entries)[r.value.id := r.value] && nextId == old(nextId) + 1
      ensures r.Err? ==> entries == old(entries) && nextId == old(nextId)
    {
      if Truthy(name) && NameStored(entries, name.value) {
        return Err(AuthException(codes.nameTaken));
      }
      if name.None? {
        return Err(StorageError);
      }
      var e := Entry(nextId, name.value, description);
      if !StorageAccepts(entries, e) {
        return Err(StorageError);
      }
      WriteKeepsNamesUnique(entries, e);
      entries := entries[e.id := e];
      nextId := nextId + 1;
      r := Ok(e);
    }

    /** `findByPk`: the entry, or the not-found code. */
    method FindByPk(id: nat) returns (r: Result<Entry, AuthFailure>)
      ensures r.Err? <==> id !in entries
      ensures r.Err? ==> r.error == AuthException(codes.notFound)
      ensures r.Ok? ==> r.value == entries[id]
    {
      if id !in entries {
        return Err(AuthException(codes.notFound));
      }
      r := Ok(entries[id]);
    }

    /** `findAll`: every row, in the order the database returns them (no order is asked for). */
    method FindAll() returns (r: seq<Entry>)
      requires forall id :: id in entries ==> entries[id].id == id
      ensures r == RowsDescending(entries, (e: Entry) => e.id)
    {
      r := RowsDescending(entries, (e: Entry) => e.id);
    }

    /** `updateRole` / `updatePermission`: answers `UpdateOutcome` and writes the entry it
        returns; any error rolls back. */
    method Update(id: nat, name: Option<string>, description: Option<string>)
      returns (r: Result<Entry, AuthFailure>)
      requires Valid()
      modifies this`entries
      ensures Valid()
      ensures r == UpdateOutcome(codes, old(entries), id, name, description)
      ensures r.Ok? ==> entries == old(entries)[id := r.value]
      ensures r.Err? ==> entries == old(entries)
    {
      if id !in entries {
        return Err(AuthException(codes.notFound));
      }
      if Truthy(name) && NameStored(entries, name.value) {
        return Err(AuthException(codes.nameTaken));
      }
      var v := Applied(entries[id], name, description);
      if !StorageAccepts(entries, v) {
        return Err(StorageError);
      }
      WriteKeepsNamesUnique(entries, v);
      entries := entries[id := v];
      r := Ok(v);
    }

    /** `deleteRole` / `deletePermission`: destroys the row and returns the count, which the
        primary key makes one; no row is the not-found code; a restricting foreign key is a
        storage error; any error rolls back. */
    method Delete(id: nat, referenced: set<nat>) returns (r: Result<nat, AuthFailure>)
      requires Valid()
      modifies this`entries
      ensures Valid()
      ensures r == (if id !in old(entries) then Err(AuthException(codes.notFound))
                    else if id in referenced then Err(StorageError)
                    else Ok(1))
      ensures r.Ok? ==> entries == old(entries) - {id}
      ensures r.Err? ==> entries == old(entries)
    {
      if id !in entries {
        return Err(AuthException(codes.notFound));
      }
      if id in referenced {
        return Err(StorageError);
      }
      entries := entries - {id};
      r := Ok(1);
    }
  }
}
