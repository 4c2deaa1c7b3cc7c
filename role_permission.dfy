/** `RolePermissionService` (src/role-permission): the role-to-permission junction table with
    single-pair add and remove and a transactional `set` that reconciles a role's permissions. */
module RolePermission {
  import opened Common
  import opened Reconcile

  class RolePermissionService {
    /** Ids of the rows of the `roles` table. */
    var roles: set<int>
    /** Ids of the rows of the `permissions` table. */
    var permissions: set<int>
    /** The `role_permission` table: `Link(role_id, permission_id)`. */
    var rows: seq<Link>

    /** The composite primary key and both foreign keys. */
    ghost predicate Valid()
      reads this
    {
      && UniqueRows(rows)
      && forall l :: l in rows ==> l.owner in roles && l.member in permissions
    }

    constructor(roles: set<int>, permissions: set<int>)
      ensures Valid()
      ensures this.roles == roles && this.permissions == permissions && rows == []
    {
      this.roles := roles;
      this.permissions := permissions;
      rows := [];
    }

    /** `listByRole`: the role's rows, or NotFound for a missing role. */
    method ListByRole(roleId: int) returns (r: Result<seq<Link>, HttpError>)
      ensures r.Err? <==> roleId !in roles
      ensures r.Err? ==> r.error == NotFound
      ensures r.Ok? ==> forall l :: l in r.value <==> l in rows && l.owner == roleId
    {
      if roleId !in roles {
        return Err(NotFound);
      }
      r := Ok(Filter(rows, (l: Link) => l.owner == roleId));
    }

    /** `add`: NotFound for a missing role, then for a missing permission; Conflict when the
        pair is already held (the unique-key violation the service maps); otherwise the pair is
        inserted. */
    method Add(roleId: int, permissionId: int) returns (r: Result<(), HttpError>)
      requires Valid()
      modifies this`rows
      ensures Valid()
      ensures r == Err(NotFound) <==> roleId !in roles || permissionId !in permissions
      ensures r == Err(Conflict) <==>
        roleId in roles && permissionId in permissions && Link(roleId, permissionId) in old(rows)
      ensures r.Ok? ==> rows == old(rows) + [Link(roleId, permissionId)]
      ensures r.Err? ==> rows == old(rows)
    {
      if roleId !in roles || permissionId !in permissions {
        return Err(NotFound);
      }
      var link := Link(roleId, permissionId);
      if link in rows {
        return Err(Conflict);
      }
      AppendNoDuplicates(rows, [link]);
      rows := rows + [link];
      r := Ok(());
    }

    /** `remove`: deletes the `(roleId, permissionId)` row; NotFound when no row matched. */
    method Remove(roleId: int, permissionId: int) returns (r: Result<(), HttpError>)
      requires Valid()
      modifies this`rows
      ensures Valid()
      ensures r.Err? <==> Link(roleId, permissionId) !in old(rows)
      ensures r.Err? ==> r.error == NotFound && rows == old(rows)
      ensures forall l :: l in rows <==> l in old(rows) && l != Link(roleId, permissionId)
    {
      var link := Link(roleId, permissionId);
      var remaining := DeleteLinks(rows, roleId, [permissionId]);
      if link !in rows {
        return Err(NotFound);
      }
      FilterKeepsNoDuplicates(rows, (l: Link) => !(l.owner == roleId && l.member in [permissionId]));
      rows := remaining;
      r := Ok(());
    }

    /** `set`: makes the role's permissions equal to `permissionIds` inside one transaction.
        A non-array list is BadRequest, a missing role NotFound, an unknown or repeated id
        BadRequest (the found count differs from the list length). A storage failure in the
        bulk insert or delete rolls the whole transaction back. */
    method Set(roleId: int, permissionIds: Option<seq<int>>, fault: StorageFault)
      returns (r: Result<Delta, HttpError>)
      requires Valid()
      modifies this`rows
      ensures Valid()
      ensures permissionIds.None? ==> r == Err(BadRequest)
      ensures permissionIds.Some? && roleId !in roles ==> r == Err(NotFound)
      ensures permissionIds.Some? && roleId in roles ==>
        var ids := permissionIds.value;
        && (!(NoDuplicates(ids) && forall id :: id in ids ==> id in permissions) ==> r == Err(BadRequest))
        && (NoDuplicates(ids) && (forall id :: id in ids ==> id in permissions) ==>
              if FaultStrikes(fault, DeltaFor(old(rows), roleId, ids)) then r == Err(InternalServerError)
              else r == Ok(DeltaFor(old(rows), roleId, ids)) && rows == Reconciled(old(rows), roleId, ids))
      ensures r.Err? ==> rows == old(rows)
    {
      if permissionIds.None? {
        return Err(BadRequest);
      }
      var ids := permissionIds.value;
      if roleId !in roles {
        return Err(NotFound);
      }
      var found := Elems(ids) * permissions;
      FoundCountMatches(ids, permissions);
      if |found| != |ids| {
        return Err(BadRequest);
      }
      // transaction: work on a copy, publish it on commit
      var working := rows;
      var current := MembersOf(working, roleId);
      var toAdd := ToAdd(ids, current);
      var toRemove := ToRemove(current, ids);
      ReconcileExact(rows, roleId, ids);
      if |toAdd| > 0 {
        if fault == FailOnInsert {
          return Err(InternalServerError);
        }
        working := InsertLinks(working, roleId, toAdd);
      } else {
        assert InsertLinks(working, roleId, toAdd) == working;
      }
      if |toRemove| > 0 {
        if fault == FailOnDelete {
          return Err(InternalServerError);
        }
        working := DeleteLinks(working, roleId, toRemove);
      } else {
        FilterIdentity(working, (l: Link) => !(l.owner == roleId && l.member in toRemove));
      }
      rows := working;
      r := Ok(Delta(toAdd, toRemove));
    }
  }
}
