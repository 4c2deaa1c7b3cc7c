/** `UserRoleService` of the auth family (src/user-role): the user-to-role junction table with
    `AuthException` errors, every write inside a transaction that is rolled back on any error. */
module UserRoleAuth {
  import opened Common
  import opened Reconcile

  /** A truthy id: present and not `0` (`!dto.user_id` is true for `undefined` and `0`). */
  predicate IdGiven(id: Option<int>)
  {
    id.Some? && id.value != 0
  }

  class UserRoleService {
    /** Ids of the rows of the `users` table. */
    var users: set<int>
    /** Ids of the rows of the `roles` table. */
    var roles: set<int>
    /** The `user_roles` table: `Link(user_id, role_id)`. */
    var rows: seq<Link>

    /** The composite primary key and both foreign keys. */
    ghost predicate Valid()
      reads this
    {
      && UniqueRows(rows)
      && forall l :: l in rows ==> l.owner in users && l.member in roles
    }

    constructor(users: set<int>, roles: set<int>)
      ensures Valid()
      ensures this.users == users && this.roles == roles && rows == []
    {
      this.users := users;
      this.roles := roles;
      rows := [];
    }

    /** `create`: both ids are required; an existing pair is reported before a missing user,
        and a missing user before a missing role. On success exactly the new row is added and
        returned; on any error the transaction is rolled back. */
    method Create(userId: Option<int>, roleId: Option<int>) returns (r: Result<Link, AuthFailure>)
      requires Valid()
      modifies this`rows
      ensures Valid()
      ensures !IdGiven(roleId) || !IdGiven(userId) ==>
        r == Err(AuthException(UserIdAndRoleIdIsRequired))
      ensures IdGiven(roleId) && IdGiven(userId) ==>
        var link := Link(userId.value, roleId.value);
        r == (if link in old(rows) then Err(AuthException(UserRoleAlreadyExist))
              else if userId.value !in users then Err(AuthException(UserNotFound))
              else if roleId.value !in roles then Err(AuthException(RoleNotFound))
              else Ok(link))
      ensures r.Ok? ==> rows == old(rows) + [r.value]
      ensures r.Err? ==> rows == old(rows)
    {
      if !IdGiven(roleId) || !IdGiven(userId) {
        return Err(AuthException(UserIdAndRoleIdIsRequired));
      }
      var link := Link(userId.value, roleId.value);
      if link in rows {
        return Err(AuthException(UserRoleAlreadyExist));
      }
      if userId.value !in users {
        return Err(AuthException(UserNotFound));
      }
      if roleId.value !in roles {
        return Err(AuthException(RoleNotFound));
      }
      AppendNoDuplicates(rows, [link]);
      rows := rows + [link];
      r := Ok(link);
    }

    /** `findByPk`: both ids are required, and the pair must be present. */
    method FindByPk(userId: Option<int>, roleId: Option<int>) returns (r: Result<Link, AuthFailure>)
      ensures !IdGiven(userId) || !IdGiven(roleId) ==>
        r == Err(AuthException(UserIdAndRoleIdIsRequired))
      ensures IdGiven(userId) && IdGiven(roleId) ==>
        var link := Link(userId.value, roleId.value);
        r == if link in rows then Ok(link) else Err(AuthException(UserRoleIsNotFound))
    {
      if !IdGiven(userId) || !IdGiven(roleId) {
        return Err(AuthException(UserIdAndRoleIdIsRequired));
      }
      var link := Link(userId.value, roleId.value);
      if link !in rows {
        return Err(AuthException(UserRoleIsNotFound));
      }
      r := Ok(link);
    }

    /** `deleteUserRole`: destroys the matching row and returns the number of rows destroyed,
        which the primary key makes exactly one; no match is `USER_ROLE_IS_NOT_FOUND`. */
    method DeleteUserRole(userId: int, roleId: int) returns (r: Result<nat, AuthFailure>)
      requires Valid()
      modifies this`rows
      ensures Valid()
      ensures r.Err? <==> Link(userId, roleId) !in old(rows)
      ensures r.Err? ==> r.error == AuthException(UserRoleIsNotFound) && rows == old(rows)
      ensures r.Ok? ==> r.value == 1 && |rows| == |old(rows)| - 1
      ensures forall l :: l in rows <==> l in old(rows) && l != Link(userId, roleId)
    {
      var link := Link(userId, roleId);
      if link !in rows {
        return Err(AuthException(UserRoleIsNotFound));
      }
      var i :| 0 <= i < |rows| && rows[i] == link;
      var remaining := rows[..i] + rows[i + 1..];
      RemoveAt(rows, i);
      rows := remaining;
      r := Ok(1);
    }
  }
}
