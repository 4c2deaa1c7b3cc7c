/** The request bodies of the junction-table endpoints: `AddUserRoleDto` / `AssignRolesDto`
    (src/user_role), `AddPermissionRoleDto` / `SetPermissionsForRoleDto` (src/role-permission)
    and the three user-role DTOs of src/user-role, whose ids are first coerced with `Number`.
    Each is a predicate over the parsed JSON values, with the ids the services then receive. */
module JunctionDto {
  import opened Common
  import opened JsValue
  import opened Reconcile
  import UserRoleAuth

  /** `@IsInt() @Min(1)`: a number that is an integer of at least one. */
  predicate PositiveInt(v: Value)
  {
    v.Num? && IsInteger(v.n) && v.n >= 1.0
  }

  /** The id a `PositiveInt` value carries. */
  function IdOf(v: Value): (id: int)
    requires PositiveInt(v)
    ensures id >= 1 && id as real == v.n
  {
    v.n.Floor
  }

  /** `@IsArray() @ArrayNotEmpty() @ArrayUnique() @IsInt({each}) @Min(1, {each})`. */
  predicate IdList(v: Value)
  {
    && v.Arr?
    && |v.items| > 0
    && NoDuplicates(v.items)
    && forall i :: 0 <= i < |v.items| ==> PositiveInt(v.items[i])
  }

  /** The ids an `IdList` value carries, in order. */
  function IdsOf(v: Value): (ids: seq<int>)
    requires IdList(v)
    ensures |ids| == |v.items|
    ensures forall i :: 0 <= i < |ids| ==> ids[i] as real == v.items[i].n
  {
    seq(|v.items|, i requires 0 <= i < |v.items| => IdOf(v.items[i]))
  }

  /** An accepted id list reaches the service as a non-empty list of distinct positive ids, so
      the found-count check of `set` can fail only for ids that name no row. */
  lemma {:induction false} IdListIsDistinctPositive(v: Value)
    requires IdList(v)
    ensures var ids := IdsOf(v);
      |ids| > 0 && NoDuplicates(ids) && forall i :: 0 <= i < |ids| ==> ids[i] >= 1
  {
    var ids := IdsOf(v);
    forall i, j | 0 <= i < j < |ids| ensures ids[i] != ids[j] {
      assert PositiveInt(v.items[i]) && PositiveInt(v.items[j]) && v.items[i] != v.items[j];
      assert v.items[i].n != v.items[j].n;
    }
  }

  /** With an accepted list and only known ids, `set` reaches the reconciliation: the found
      count equals the list length. */
  lemma IdListPassesFoundCount(v: Value, existing: set<int>)
    requires IdList(v)
    requires forall id :: id in IdsOf(v) ==> id in existing
    ensures |Elems(IdsOf(v)) * existing| == |IdsOf(v)|
  {
    IdListIsDistinctPositive(v);
    FoundCountMatches(IdsOf(v), existing);
  }

  /** `AddUserRoleDto` (src/user_role) and `AddPermissionRoleDto` (src/role-permission): two
      positive integer ids. */
  predicate ValidAddPair(first: Value, second: Value)
  {
    PositiveInt(first) && PositiveInt(second)
  }

  /** `AssignRolesDto` / `SetPermissionsForRoleDto`. */
  predicate ValidAssign(ids: Value)
  {
    IdList(ids)
  }

  /** `@Type(() => Number) @IsInt() @Min(1) @IsNotEmpty()`: the value is coerced with `Number`
      and the result must be an integer of at least one; the id, or `None` when rejected. */
  function CoercedId(v: Value): (id: Option<int>)
    ensures id.Some? <==> ToNumber(v).Some? && IsInteger(ToNumber(v).value) && ToNumber(v).value >= 1.0
    ensures id.Some? ==> id.value >= 1 && id.value as real == ToNumber(v).value
  {
    match ToNumber(v)
    case Some(x) => if IsInteger(x) && x >= 1.0 then Some(x.Floor) else None
    case None => None
  }

  /** A positive id sent as a plain decimal string is accepted and read back as itself, up to
      2^53, below which every integer is exactly a double. */
  lemma CoercedNumeral(n: nat)
    requires 1 <= n <= 9007199254740992
    ensures CoercedId(Str(NatToString(n))) == Some(n)
  {
    NumeralToNumber(n);
  }

  /** A positive integer sent as a number is accepted as itself; any value the uncoerced rule
      accepts, the coerced rule accepts with the same id. */
  lemma CoercionExtendsPositiveInt(v: Value)
    requires PositiveInt(v)
    ensures CoercedId(v) == Some(IdOf(v))
  {
  }

  /** Missing, null, boolean, zero, negative and fractional ids are rejected. */
  lemma CoercedRejects(x: real)
    requires !(IsInteger(x) && x >= 1.0)
    ensures CoercedId(Undefined) == None && CoercedId(Null) == None
    ensures CoercedId(Bool(false)) == None && CoercedId(Bool(true)) == Some(1)
    ensures CoercedId(Num(x)) == None
  {
  }

  /** `CreateUserRoleDTO`, `DeleteUserRoleDTO` and `FindUserRoleQueryDTO`: both ids pass the
      coerced rule. */
  predicate ValidUserRoleIds(user_id: Value, role_id: Value)
  {
    CoercedId(user_id).Some? && CoercedId(role_id).Some?
  }

  /** An accepted `CreateUserRoleDTO` always passes the service's "both ids required" check. */
  lemma ValidUserRoleIdsAreGiven(user_id: Value, role_id: Value)
    requires ValidUserRoleIds(user_id, role_id)
    ensures UserRoleAuth.IdGiven(CoercedId(user_id)) && UserRoleAuth.IdGiven(CoercedId(role_id))
  {
  }
}
