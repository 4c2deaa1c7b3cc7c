/** `UserRoleService` (src/user_role): the user-to-role junction table. Its `set` issues the bulk
    insert and the bulk delete as two separate statements, without a transaction. */
module UserRoleJunction {
  import opened Common
  import opened Reconcile

  class UserRoleService {
    /** Ids of the rows of the `users` table. */
    var users: set<int>
    /** Ids of the rows of the `roles` table. */
    var roles: set<int>
    /** The `user_roles` table: `Link(user_id, role_id)`. */
    var rows: seq<Link>

    /** The composite primary key and both foreign keys. */
    ghost predicate Valid()
      reads this
    {
      && UniqueRows(rows)
      && forall l :: l in rows ==> l.owner in users && l.member in roles
    }

    constructor(users: set<int>, roles: set<int>)
      ensures Valid()
      ensures this.users == users && this.roles == roles && rows == []
    {
      this.users := users;
      this.roles := roles;
      rows := [];
    }

    /** `getRolesByUser`: the ids of the roles the user holds, or NotFound for a missing user. */
    method GetRolesByUser(userId: int) returns (r: Result<seq<int>, HttpError>)
      ensures r.Err? <==> userId !in users
      ensures r.Err? ==> r.error == NotFound
      ensures r.Ok? ==> forall roleId :: roleId in r.value <==> Link(userId, roleId) in rows
    {
      if userId !in users {
        return Err(NotFound);
      }
      r := Ok(MembersOf(rows, userId));
    }

    /** `getUsersByRole`: the ids of the users holding the role, or NotFound for a missing role. */
    method GetUsersByRole(roleId: int) returns (r: Result<seq<int>, HttpError>)
      ensures r.Err? <==> roleId !in roles
      ensures r.Err? ==> r.error == NotFound
      ensures r.Ok? ==> forall userId :: userId in r.value <==> Link(userId, roleId) in rows
    {
      if roleId !in roles {
        return Err(NotFound);
      }
      r := Ok(OwnersOf(rows, roleId));
    }

    /** `add`: NotFound for a missing user, then for a missing role; Conflict when the user
        already holds the role; otherwise the pair is inserted. */
    method Add(userId: int, roleId: int) returns (r: Result<(), HttpError>)
      requires Valid()
      modifies this`rows
      ensures Valid()
      ensures r == Err(NotFound) <==> userId !in users || roleId !in roles
      ensures r == Err(Conflict) <==>
        userId in users && roleId in roles && Link(userId, roleId) in old(rows)
      ensures r.Ok? ==> rows == old(rows) + [Link(userId, roleId)]
      ensures r.Err? ==> rows == old(rows)
    {
      if userId !in users || roleId !in roles {
        return Err(NotFound);
      }
      var link := Link(userId, roleId);
      if link in rows {
        return Err(Conflict);
      }
      AppendNoDuplicates(rows, [link]);
      rows := rows + [link];
      r := Ok(());
    }

    /** `remove`: deletes the `(userId, roleId)` row; NotFound when no row matched. */
    method Remove(userId: int, roleId: int) returns (r: Result<(), HttpError>)
      requires Valid()
      modifies this`rows
      ensures Valid()
      ensures r.Err? <==> Link(userId, roleId) !in old(rows)
      ensures r.Err? ==> r.error == NotFound && rows == old(rows)
      ensures forall l :: l in rows <==> l in old(rows) && l != Link(userId, roleId)
    {
      var link := Link(userId, roleId);
      var remaining := DeleteLinks(rows, userId, [roleId]);
      if link !in rows {
        return Err(NotFound);
      }
      FilterKeepsNoDuplicates(rows, (l: Link) => !(l.owner == userId && l.member in [roleId]));
      rows := remaining;
      r := Ok(());
    }

    /** `set`: makes the user's roles equal to `roleIds`. The checks are those of the
        role-permission `set`; a failing bulk delete leaves the rows the bulk insert already
        wrote, since nothing rolls them back. */
    method Set(userId: int, roleIds: Option<seq<int>>, fault: StorageFault)
      returns (r: Result<Delta, HttpError>)
      requires Valid()
      modifies this`rows
      ensures Valid()
      ensures roleIds.None? ==> r == Err(BadRequest) && rows == old(rows)
      ensures roleIds.Some? && userId !in users ==> r == Err(NotFound) && rows == old(rows)
      ensures roleIds.Some? && userId in users ==>
        var ids := roleIds.value;
        var d := DeltaFor(old(rows), userId, ids);
        && (!(NoDuplicates(ids) && forall id :: id in ids ==> id in roles) ==>
              r == Err(BadRequest) && rows == old(rows))
        && (NoDuplicates(ids) && (forall id :: id in ids ==> id in roles) ==>
              if fault == FailOnInsert && |d.added| > 0 then
                r == Err(InternalServerError) && rows == old(rows)
              else if fault == FailOnDelete && |d.removed| > 0 then
                r == Err(InternalServerError) && rows == InsertLinks(old(rows), userId, d.added)
              else
                r == Ok(d) && rows == Reconciled(old(rows), userId, ids))
    {
      if roleIds.None? {
        return Err(BadRequest);
      }
      var ids := roleIds.value;
      if userId !in users {
        return Err(NotFound);
      }
      var found := Elems(ids) * roles;
      FoundCountMatches(ids, roles);
      if |found| != |ids| {
        return Err(BadRequest);
      }
      var current := MembersOf(rows, userId);
      var toAdd := ToAdd(ids, current);
      var toRemove := ToRemove(current, ids);
      ReconcileExact(rows, userId, ids);
      FilterKeepsNoDuplicates(ids, m => m !in current);
      InsertKeepsUnique(rows, userId, toAdd);
      if |toAdd| > 0 {
        if fault == FailOnInsert {
          return Err(InternalServerError);
        }
        rows := InsertLinks(rows, userId, toAdd);
      } else {
        assert InsertLinks(rows, userId, toAdd) == rows;
      }
      if |toRemove| > 0 {
        if fault == FailOnDelete {
          return Err(InternalServerError);
        }
        rows := DeleteLinks(rows, userId, toRemove);
      } else {
        FilterIdentity(rows, (l: Link) => !(l.owner == userId && l.member in toRemove));
      }
      r := Ok(Delta(toAdd, toRemove));
    }
  }
}
