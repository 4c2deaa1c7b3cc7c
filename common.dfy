/** Shared result types, error taxonomies and sequence helpers used by every service model. */
module Common {

  datatype Option<+T> = None | Some(value: T)

  datatype Result<+T, +E> = Ok(value: T) | Err(error: E)

  /** The Nest HTTP exceptions thrown by the `src/users`, `src/countries`, `src/roles`,
      `src/permissions`, `src/user_role` and `src/role-permission` services.
      `InternalServerError` stands for any exception the service does not map
      (Nest answers it with status 500). */
  datatype HttpError = BadRequest | NotFound | Conflict | InternalServerError

  /** The `EXCEPTION` codes carried by `AuthException`. */
  datatype AuthCode =
    | RoleNameAlreadyExist
    | RoleNotFound
    | PermissionNameAlreadyExist
    | PermissionNotFound
    | UserIdAndRoleIdIsRequired
    | UserRoleAlreadyExist
    | UserNotFound
    | UserRoleIsNotFound
    | EmailNotFound

  /** What the `AuthException` family of services throws: one of its own codes, or a
      storage error it rethrows unchanged after rolling back. */
  datatype AuthFailure = AuthException(code: AuthCode) | StorageError

  /** JavaScript truthiness of an optional string (`undefined`, `null` and `''` are falsy). */
  predicate Truthy(s: Option<string>)
  {
    s.Some? && s.value != ""
  }

  /** `a ?? b` for an optional field. */
  function OrElse<T>(a: Option<T>, b: T): (r: T)
    ensures a.Some? ==> r == a.value
    ensures a.None? ==> r == b
  {
    if a.Some? then a.value else b
  }

  /** `a ?? b` where both sides may be absent. */
  function Coalesce<T>(a: Option<T>, b: Option<T>): (r: Option<T>)
    ensures a.Some? ==> r == a
    ensures a.None? ==> r == b
  {
    if a.Some? then a else b
  }

  /** No element occurs twice. */
  predicate NoDuplicates<T(==)>(s: seq<T>)
  {
    forall i, j :: 0 <= i < j < |s| ==> s[i] != s[j]
  }

  /** The elements of `s` satisfying `p`, in order (Array.prototype.filter). */
  function Filter<T(==,!new)>(s: seq<T>, p: T -> bool): (r: seq<T>)
    ensures |r| <= |s|
    ensures forall x :: x in r <==> x in s && p(x)
  {
    if s == [] then []
    else if p(s[0]) then [s[0]] + Filter(s[1..], p)
    else Filter(s[1..], p)
  }

  lemma {:induction false} FilterKeepsNoDuplicates<T(!new)>(s: seq<T>, p: T -> bool)
    requires NoDuplicates(s)
    ensures NoDuplicates(Filter(s, p))
  {
    if s != [] {
      FilterKeepsNoDuplicates(s[1..], p);
      var rest := Filter(s[1..], p);
      if p(s[0]) {
        assert s[0] !in s[1..];
        assert s[0] !in rest;
        var r := [s[0]] + rest;
        forall i, j | 0 <= i < j < |r| ensures r[i] != r[j] {
          if i == 0 { assert r[j] == rest[j - 1]; assert r[j] in rest; }
          else { assert r[i] == rest[i - 1] && r[j] == rest[j - 1]; }
        }
      }
    }
  }

  lemma {:induction false} FilterIdentity<T(!new)>(s: seq<T>, p: T -> bool)
    requires forall x :: x in s ==> p(x)
    ensures Filter(s, p) == s
  {
    if s != [] {
      FilterIdentity(s[1..], p);
    }
  }

  lemma {:induction false} FilterEmpty<T(!new)>(s: seq<T>, p: T -> bool)
    requires forall x :: x in s ==> !p(x)
    ensures Filter(s, p) == []
  {
    if s != [] {
      FilterEmpty(s[1..], p);
    }
  }

  /** The set of elements of a sequence (`new Set(xs)` as a set). */
  function Elems<T(==,!new)>(s: seq<T>): (r: set<T>)
    ensures forall x :: x in r <==> x in s
  {
    set x | x in s
  }

  /** A duplicate-free sequence has as many distinct elements as it is long. */
  lemma {:induction false} DistinctCount<T(!new)>(s: seq<T>)
    ensures NoDuplicates(s) ==> |Elems(s)| == |s|
    ensures !NoDuplicates(s) ==> |Elems(s)| < |s|
  {
    if s == [] {
    } else {
      DistinctCount(s[1..]);
      var tail := Elems(s[1..]);
      if s[0] in s[1..] {
        assert Elems(s) == tail;
        assert !NoDuplicates(s) by {
          var k :| 0 <= k < |s[1..]| && s[1..][k] == s[0];
          assert s[0] == s[k + 1];
        }
        assert |tail| <= |s[1..]| by {
          if NoDuplicates(s[1..]) {} else {}
        }
      } else {
        assert Elems(s) == {s[0]} + tail;
        assert |Elems(s)| == 1 + |tail|;
        if NoDuplicates(s[1..]) {
          forall i, j | 0 <= i < j < |s| ensures s[i] != s[j] {
            if i == 0 { assert s[j] == s[1..][j - 1]; }
            else { assert s[i] == s[1..][i - 1] && s[j] == s[1..][j - 1]; }
          }
        } else {
          assert !NoDuplicates(s) by {
            var i, j :| 0 <= i < j < |s[1..]| && s[1..][i] == s[1..][j];
            assert s[i + 1] == s[j + 1];
          }
        }
      }
    }
  }

  /** Removing the element at `i` from a duplicate-free sequence removes exactly that value. */
  lemma RemoveAt<T>(s: seq<T>, i: nat)
    requires NoDuplicates(s) && i < |s|
    ensures var rest := s[..i] + s[i + 1..];
      && NoDuplicates(rest) && |rest| == |s| - 1
      && forall x :: x in rest <==> x in s && x != s[i]
  {
    var rest := s[..i] + s[i + 1..];
    assert s == s[..i] + [s[i]] + s[i + 1..];
    forall k | 0 <= k < |rest| ensures rest[k] == s[if k < i then k else k + 1] {
    }
    forall a, b | 0 <= a < b < |rest| ensures rest[a] != rest[b] {
      assert rest[a] == s[if a < i then a else a + 1];
      assert rest[b] == s[if b < i then b else b + 1];
    }
  }

  /** `xs.map(f)` */
  function Map<T, U>(s: seq<T>, f: T -> U): (r: seq<U>)
    ensures |r| == |s|
    ensures forall i :: 0 <= i < |s| ==> r[i] == f(s[i])
  {
    seq(|s|, i requires 0 <= i < |s| => f(s[i]))
  }
}
