/** `UserService` (src/users): the `user` table with its unique `email` and `phone_number`
    columns, a create that requires an email or a phone, a partial update, and a delete that
    maps a foreign-key violation to BadRequest. */
module Users {
  import opened Common
  import opened Table

  /** A row of the `user` table (timestamps and verification dates left out). */
  datatype User = User(
    id: nat,
    full_name: Option<string>,
    email: Option<string>,
    phone_number: Option<string>,
    password_hash: string,
    avatar_url: Option<string>)

  /** A row as the read queries return it: `attributes: { exclude: ['password_hash'] }`. */
  datatype UserView = UserView(
    id: nat,
    full_name: Option<string>,
    email: Option<string>,
    phone_number: Option<string>,
    avatar_url: Option<string>)

  function View(u: User): (v: UserView)
    ensures v.id == u.id
  {
    UserView(u.id, u.full_name, u.email, u.phone_number, u.avatar_url)
  }

  datatype CreateUserDto = CreateUserDto(
    full_name: Option<string>,
    email: Option<string>,
    phone_number: Option<string>,
    password: string,
    avatar_url: Option<string>)

  datatype UpdateUserDto = UpdateUserDto(
    full_name: Option<string>,
    email: Option<string>,
    phone_number: Option<string>,
    password: Option<string>,
    avatar_url: Option<string>)

  /** Some row other than `self` has this email (`self` is `-1` when there is no such row). */
  predicate EmailUsedByOther(users: map<nat, User>, email: string, self: int)
  {
    exists id :: id in users && id != self && users[id].email == Some(email)
  }

  /** Some row other than `self` has this phone number. */
  predicate PhoneUsedByOther(users: map<nat, User>, phone: string, self: int)
  {
    exists id :: id in users && id != self && users[id].phone_number == Some(phone)
  }

  /** The unique constraints of the `email` and `phone_number` columns: no two rows share a
      non-null value (the empty string included). */
  predicate UniqueContacts(users: map<nat, User>)
  {
    forall a, b :: a in users && b in users && a != b ==>
      && (users[a].email.Some? ==> users[a].email != users[b].email)
      && (users[a].phone_number.Some? ==> users[a].phone_number != users[b].phone_number)
  }

  /** `full_name`, `email`, `password_hash` and `avatar_url` are `STRING(255)`;
      `phone_number` is `STRING(20)`. */
  const TextWidth: nat := 255
  const PhoneWidth: nat := 20

  /** Every value of `u` fits its column. */
  predicate FitsColumns(u: User)
  {
    && (u.full_name.Some? ==> |u.full_name.value| <= TextWidth)
    && (u.email.Some? ==> |u.email.value| <= TextWidth)
    && (u.phone_number.Some? ==> |u.phone_number.value| <= PhoneWidth)
    && |u.password_hash| <= TextWidth
    && (u.avatar_url.Some? ==> |u.avatar_url.value| <= TextWidth)
  }

  /** The database accepts writing `u` under `u.id`: the unique constraints hold and every value
      fits its column. */
  predicate StorageAccepts(users: map<nat, User>, u: User)
  {
    FitsUnique(users, u) && FitsColumns(u)
  }

  /** Writing `u` under `u.id` would not break the unique constraints. */
  predicate FitsUnique(users: map<nat, User>, u: User)
  {
    && (u.email.Some? ==> !EmailUsedByOther(users, u.email.value, u.id))
    && (u.phone_number.Some? ==> !PhoneUsedByOther(users, u.phone_number.value, u.id))
  }

  /** The row `updateUser` writes: each field given in the dto replaces the old one, an omitted
      field keeps it, and the hash changes only for a non-empty new password. */
  function Patched(u: User, dto: UpdateUserDto, hash: string -> string): (v: User)
    ensures v.id == u.id
    ensures v.full_name == (if dto.full_name.Some? then dto.full_name else u.full_name)
    ensures v.email == (if dto.email.Some? then dto.email else u.email)
    ensures v.phone_number == (if dto.phone_number.Some? then dto.phone_number else u.phone_number)
    ensures v.avatar_url == (if dto.avatar_url.Some? then dto.avatar_url else u.avatar_url)
    ensures v.password_hash == (if Truthy(dto.password) then hash(dto.password.value) else u.password_hash)
  {
    u.(full_name := Coalesce(dto.full_name, u.full_name),
       email := Coalesce(dto.email, u.email),
       phone_number := Coalesce(dto.phone_number, u.phone_number),
       avatar_url := Coalesce(dto.avatar_url, u.avatar_url),
       password_hash := if Truthy(dto.password) then hash(dto.password.value) else u.password_hash)
  }

  /** An update with every field omitted writes the row back unchanged. */
  lemma EmptyPatchIsIdentity(u: User, hash: string -> string)
    ensures Patched(u, UpdateUserDto(None, None, None, None, None), hash) == u
  {
  }

  /** Applying the same update twice gives what applying it once gives. */
  lemma PatchIdempotent(u: User, dto: UpdateUserDto, hash: string -> string)
    ensures Patched(Patched(u, dto, hash), dto, hash) == Patched(u, dto, hash)
  {
  }

  /** Replacing one row by a row with the same id that fits the constraints keeps them. */
  lemma {:induction false} WriteKeepsUnique(users: map<nat, User>, u: User)
    requires UniqueContacts(users) && FitsUnique(users, u)
    ensures UniqueContacts(users[u.id := u])
  {
    var after := users[u.id := u];
    forall a, b | a in after && b in after && a != b
      ensures after[a].email.Some? ==> after[a].email != after[b].email
      ensures after[a].phone_number.Some? ==> after[a].phone_number != after[b].phone_number
    {
      if a == u.id {
        assert b in users && b != u.id && after[b] == users[b];
      } else if b == u.id {
        assert a in users && a != u.id && after[a] == users[a];
      }
    }
  }

  /** Views listed in the order of `ids`, a descending listing of the table's ids, are every
      user exactly once, newest first. */
  /** The views of the users stored under `ids`, in the order of `ids`. */
  function ViewsAt(users: map<nat, User>, ids: seq<nat>): (r: seq<UserView>)
    requires forall x :: x in ids ==> x in users
    ensures |r| == |ids| && forall k :: 0 <= k < |ids| ==> r[k] == View(users[ids[k]])
  {
    if ids == [] then [] else [View(users[ids[0]])] + ViewsAt(users, ids[1..])
  }

  lemma ViewsFollowIds(users: map<nat, User>, ids: seq<nat>, r: seq<UserView>)
    requires forall id :: id in users ==> users[id].id == id
    requires forall x :: x in ids <==> x in users
    requires |ids| == |users.Keys| && StrictlyDescending(ids)
    requires |r| == |ids| && forall k :: 0 <= k < |ids| ==> r[k] == View(users[ids[k]])
    ensures |r| == |users|
    ensures forall k :: 0 <= k < |r| ==> r[k].id in users && r[k] == View(users[r[k].id])
    ensures forall i, j :: 0 <= i < j < |r| ==> r[i].id > r[j].id
    ensures forall id :: id in users ==> exists k :: 0 <= k < |r| && r[k].id == id
  {
    forall k | 0 <= k < |r| ensures r[k].id == ids[k] && ids[k] in users {
      assert ids[k] in ids;
    }
    assert |users.Keys| == |users|;
    forall id | id in users ensures exists k :: 0 <= k < |r| && r[k].id == id {
      var k :| 0 <= k < |ids| && ids[k] == id;
      assert r[k].id == id;
    }
  }

  class UserService {
    /** The `user` table, keyed by id. */
    var users: map<nat, User>
    /** The next value of the auto-increment sequence. */
    var nextId: nat

    ghost predicate Valid()
      reads this
    {
      && (forall id :: id in users ==> users[id].id == id && id < nextId)
      && UniqueContacts(users)
    }

    constructor()
      ensures Valid() && users == map[] && nextId == 1
    {
      users := map[];
      nextId := 1;
    }

    /** `create`: an email or a phone number is required; a non-empty email or phone already
        held is Conflict; a clash the service does not look for (an empty string already held)
        or a value wider than its column is the storage error it rethrows. The new row stores `hash(password)`. */
    method Create(dto: CreateUserDto, hash: string -> string) returns (r: Result<User, HttpError>)
      requires Valid()
      modifies this
      ensures Valid()
      ensures var u := User(old(nextId), dto.full_name, dto.email, dto.phone_number,
                            hash(dto.password), dto.avatar_url);
        r == (if !Truthy(dto.email) && !Truthy(dto.phone_number) then Err(BadRequest)
              else if Truthy(dto.email) && EmailUsedByOther(old(users), dto.email.value, -1) then Err(Conflict)
              else if Truthy(dto.phone_number) && PhoneUsedByOther(old(users), dto.phone_number.value, -1)
                then Err(Conflict)
              else if !StorageAccepts(old(users), u) then Err(InternalServerError)
              else Ok(u))
      ensures r.Ok? ==> users == old(users)[r.value.id := r.value] && nextId == old(nextId) + 1
      ensures r.Err? ==> users == old(users) && nextId == old(nextId)
    {
      if !Truthy(dto.email) && !Truthy(dto.phone_number) {
        return Err(BadRequest);
      }
      if Truthy(dto.email) && EmailUsedByOther(users, dto.email.value, -1) {
        return Err(Conflict);
      }
      if Truthy(dto.phone_number) && PhoneUsedByOther(users, dto.phone_number.value, -1) {
        return Err(Conflict);
      }
      var u := User(nextId, dto.full_name, dto.email, dto.phone_number, hash(dto.password), dto.avatar_url);
      if !StorageAccepts(users, u) {
        return Err(InternalServerError);
      }
      WriteKeepsUnique(users, u);
      users := users[u.id := u];
      nextId := nextId + 1;
      r := Ok(u);
    }

    /** `findAll`: every user, newest first, without the hash. */
    method FindAll() returns (r: seq<UserView>)
      requires forall id :: id in users ==> users[id].id == id
      ensures |r| == |users|
      ensures forall k :: 0 <= k < |r| ==> r[k].id in users && r[k] == View(users[r[k].id])
      ensures forall i, j :: 0 <= i < j < |r| ==> r[i].id > r[j].id
      ensures forall id :: id in users ==> exists k :: 0 <= k < |r| && r[k].id == id
    {
      var ids := IdsDescending(users.Keys);
      r := ViewsAt(users, ids);
      ViewsFollowIds(users, ids, r);
    }

    /** `findOne(where)`: some user satisfying `where`, without the hash, or none. */
    method FindOne(where: User -> bool) returns (r: Option<UserView>)
      ensures r.None? <==> forall id :: id in users ==> !where(users[id])
      ensures r.Some? ==> exists id :: id in users && where(users[id]) && r.value == View(users[id])
    {
      if id :| id in users && where(users[id]) {
        r := Some(View(users[id]));
      } else {
        r := None;
      }
    }

    /** `findOneById`: the user without the hash, or NotFound. */
    method FindOneById(id: nat) returns (r: Result<UserView, HttpError>)
      ensures r.Err? <==> id !in users
      ensures r.Err? ==> r.error == NotFound
      ensures r.Ok? ==> r.value == View(users[id])
    {
      if id !in users {
        return Err(NotFound);
      }
      r := Ok(View(users[id]));
    }

    /** `updateUser`: NotFound for a missing id; a non-empty new email or phone that differs
        from the user's own and belongs to another user is Conflict; otherwise the row becomes
        `Patched(...)`, unless that breaks a unique constraint the service does not check or a
        value does not fit its column. */
    method UpdateUser(id: nat, dto: UpdateUserDto, hash: string -> string)
      returns (r: Result<UserView, HttpError>)
      requires Valid()
      modifies this`users
      ensures Valid()
      ensures id !in old(users) ==> r == Err(NotFound)
      ensures id in old(users) ==>
        var u := old(users)[id];
        var v := Patched(u, dto, hash);
        r == (if Truthy(dto.email) && dto.email != u.email
                 && EmailUsedByOther(old(users), dto.email.value, id) then Err(Conflict)
              else if Truthy(dto.phone_number) && dto.phone_number != u.phone_number
                 && PhoneUsedByOther(old(users), dto.phone_number.value, id) then Err(Conflict)
              else if !StorageAccepts(old(users), v) then Err(InternalServerError)
              else Ok(View(v)))
      ensures r.Ok? ==> users == old(users)[id := Patched(old(users)[id], dto, hash)]
      ensures r.Err? ==> users == old(users)
    {
      if id !in users {
        return Err(NotFound);
      }
      var u := users[id];
      if Truthy(dto.email) && dto.email != u.email && EmailUsedByOther(users, dto.email.value, id) {
        return Err(Conflict);
      }
      if Truthy(dto.phone_number) && dto.phone_number != u.phone_number
        && PhoneUsedByOther(users, dto.phone_number.value, id) {
        return Err(Conflict);
      }
      var v := Patched(u, dto, hash);
      if !StorageAccepts(users, v) {
        return Err(InternalServerError);
      }
      WriteKeepsUnique(users, v);
      users := users[id := v];
      r := Ok(View(v));
    }

    /** `deleteUser`: NotFound when no row has the id; BadRequest, with the row kept, when a
        restricting foreign key still points at it (`referenced`). */
    method DeleteUser(id: nat, referenced: set<nat>) returns (r: Result<(), HttpError>)
      requires Valid()
      modifies this`users
      ensures Valid()
      ensures r == (if id !in old(users) then Err(NotFound)
                    else if id in referenced then Err(BadRequest)
                    else Ok(()))
      ensures r.Ok? ==> users == old(users) - {id}
      ensures r.Err? ==> users == old(users)
    {
      if id !in users {
        return Err(NotFound);
      }
      if id in referenced {
        return Err(BadRequest);
      }
      users := users - {id};
      r := Ok(());
    }
  }
}
