# RBAC and CRUD core of an e-commerce backend, in Dafny

This project models the service layer of a NestJS/Sequelize backend (users, countries, roles,
permissions and their junction tables, one-time-code password reset), with the database
replaced by Dafny collections held in the fields of one class per service:

- **Junction tables.** `role_permission` and `user_roles` are `seq<Link>` fields. They keep
  the composite primary key (no pair twice) and both foreign keys. `add` and `remove` change
  one pair. `set` makes an owner's associations equal to a target list by applying only the
  delta `toAdd = target − current`, `toRemove = current − target`. The role-permission `set`
  runs in a transaction (all or nothing); the user-role `set` does not, so a failing delete
  leaves the inserted rows behind. The `src/user-role` variant inserts and deletes single
  pairs between an explicit commit and rollback.
- **Entity tables.** These are `map<nat, Record>` fields with an auto-increment counter:
  - users: unique email and phone;
  - countries: unique ISO code, names unique by the service's checks, and the `normalize`
    hook;
  - roles and permissions in two families:
    - the HTTP-exception family (`src/roles`, `src/permissions`) trims names, never renames
      and maps foreign-key violations to BadRequest;
    - the `AuthException` family (`src/role`, `src/permission`) rejects even an entry's own
      name on update and rolls back on every error.

  Every state-changing method states its whole error chain, in the source's order. It also
  states the new table, and that the table is unchanged on error. The class invariant
  (`Valid`) carries the unique constraints.
- **One-time codes.** A keyed cache stores the code under `otp:<email>`. A successful check
  deletes it, so a code verifies at most once. The controller's password reset spends the
  code before it rewrites the hash.
- **Pure helpers.** These are pagination arithmetic, the logging middleware's status colour,
  log level and body redaction, and the request-body validators (integer ≥ 1 ids, unique
  non-empty id lists, `Number` coercion, ISO alpha-2 codes, the phone pattern, password
  length). The validators are tied by lemmas to the services that consume them. Pagination and
  the logging middleware stand alone: no modelled service calls them.

The model stands in for these foreign inputs:

- **Storage failures.**
  - A storage failure inside `set` is a `StorageFault` parameter.
  - A restricting foreign key on delete is a `referenced` set of ids.
  - A unique-constraint hit that the service does not look for (an empty string already
    stored, say) is the unmapped storage error: `InternalServerError` in the HTTP family,
    `StorageError` in the `AuthException` family.
- **Foreign calls.** bcrypt is a `hash: string -> string` parameter. The generated code and
  the mail transport's result are parameters too.

## Model

| member | source | states |
|---|---|---|
| Reconcile.MembersOf | src/role-permission/role-permission.service.ts:79-83 | the ids an owner holds are exactly the members of its rows |
| Reconcile.OwnersOf | src/user_role/user_role.service.ts:25-29 | the users holding a role are exactly the owners of rows with that role |
| Reconcile.MembersOfNoDuplicates | src/role-permission/role-permission.entity.ts:21-29 | under the composite primary key an owner's member list has no repeats |
| Reconcile.ToAdd | src/role-permission/role-permission.service.ts:86 | `toAdd` holds exactly the target ids not currently held |
| Reconcile.ToRemove | src/role-permission/role-permission.service.ts:87 | `toRemove` holds exactly the held ids not in the target |
| Reconcile.InsertLinks | src/role-permission/role-permission.service.ts:89-94 | after the bulk insert a pair is present iff it was, or it is `(owner, m)` for `m` in `toAdd` |
| Reconcile.DeleteLinks | src/role-permission/role-permission.service.ts:95-100 | after the bulk delete a pair is present iff it was and is not `(owner, m)` for `m` in `toRemove` |
| Reconcile.FoundCountMatches | src/role-permission/role-permission.service.ts:69-72 | the found count equals the list length iff the list has no repeats and every id exists |
| Reconcile.DeltaDisjoint | src/role-permission/role-permission.service.ts:86-87 | `added` and `removed` share no id |
| Reconcile.InsertKeepsUnique | src/user_role/user_role.entity.ts:21-29 | inserting distinct pairs not yet present keeps the composite key unique |
| Reconcile.ReconcileExact | src/role-permission/role-permission.service.ts:83-100 | after `set` the owner holds exactly the target ids, other owners' rows are unchanged, and the key stays unique |
| Reconcile.ReconcileIdempotent | src/role-permission/role-permission.service.ts:83-101 | a second `set` with the same list returns empty `added`/`removed` and changes nothing |
| RolePermission.RolePermissionService.ListByRole | src/role-permission/role-permission.service.ts:18-28 | NotFound iff the role is missing; otherwise exactly that role's rows |
| RolePermission.RolePermissionService.Add | src/role-permission/role-permission.service.ts:30-47 | NotFound iff role or permission missing, Conflict iff the pair exists, otherwise exactly that pair is appended; errors change nothing |
| RolePermission.RolePermissionService.Remove | src/role-permission/role-permission.service.ts:49-57 | NotFound iff the pair is absent; afterwards exactly that pair is gone |
| RolePermission.RolePermissionService.Set | src/role-permission/role-permission.service.ts:62-103 | BadRequest for a non-array, NotFound for a missing role, BadRequest for unknown or repeated ids; an insert or delete failure rolls everything back; success returns the delta and stores the reconciled rows |
| UserRoleJunction.UserRoleService.GetRolesByUser | src/user_role/user_role.service.ts:18-22 | NotFound iff the user is missing; otherwise exactly the user's role ids |
| UserRoleJunction.UserRoleService.GetUsersByRole | src/user_role/user_role.service.ts:25-29 | NotFound iff the role is missing; otherwise exactly the role's user ids |
| UserRoleJunction.UserRoleService.Add | src/user_role/user_role.service.ts:32-49 | NotFound iff user or role missing, Conflict iff the pair exists, otherwise the pair is appended |
| UserRoleJunction.UserRoleService.Remove | src/user_role/user_role.service.ts:52-56 | NotFound iff the pair is absent; afterwards exactly that pair is gone |
| UserRoleJunction.UserRoleService.Set | src/user_role/user_role.service.ts:59-87 | same checks as the role-permission `set`, but without a transaction: a failing delete leaves the inserted rows in place |
| UserRoleAuth.UserRoleService.Create | src/user-role/user-role.service.ts:20-68 | required ids, then pair-exists, then user missing, then role missing, each an `AuthException`; otherwise exactly the pair is inserted; errors roll back |
| UserRoleAuth.UserRoleService.FindByPk | src/user-role/user-role.service.ts:70-87 | required ids; the pair, or `USER_ROLE_IS_NOT_FOUND` iff it is absent |
| UserRoleAuth.UserRoleService.DeleteUserRole | src/user-role/user-role.service.ts:98-115 | `USER_ROLE_IS_NOT_FOUND` iff the pair is absent; otherwise one row is destroyed (count 1) and only that pair disappears |
| Users.Patched | src/users/user.service.ts:105-117 | each given field replaces the old value, an omitted one keeps it, and the hash changes only for a non-empty password |
| Users.EmptyPatchIsIdentity | src/users/user.service.ts:106-111 | an update with every field omitted writes the row back unchanged |
| Users.PatchIdempotent | src/users/user.service.ts:106-117 | applying the same update twice equals applying it once |
| Users.WriteKeepsUnique | src/users/user.entity.ts:33-46 | writing a row whose email and phone no other row holds keeps both unique constraints |
| Users.UserService.Create | src/users/user.service.ts:19-56 | BadRequest without email or phone, Conflict for a held email then phone, storage error for an unchecked clash or a value wider than its column (255 characters, the phone 20), otherwise the row with `hash(password)` is inserted |
| Users.UserService.FindAll | src/users/user.service.ts:58-63 | every user exactly once, newest id first, without the hash |
| Users.UserService.FindOne | src/users/user.service.ts:65-71 | none iff no user satisfies the filter, otherwise one that does, without the hash |
| Users.UserService.FindOneById | src/users/user.service.ts:73-79 | NotFound iff the id is missing; otherwise that user without the hash |
| Users.UserService.UpdateUser | src/users/user.service.ts:81-125 | NotFound, then Conflict for a new email or phone held by another user, then storage error for an unchecked clash or a value wider than its column, otherwise the patched row is stored and returned without the hash |
| Users.UserService.DeleteUser | src/users/user.service.ts:127-142 | NotFound iff missing, BadRequest with the row kept on a foreign-key violation, otherwise only that row goes |
| CountryEntity.NormalizeIso2 | src/countries/country.entity.ts:60-62 | the code is trimmed, has no lower-case letter, and keeps the trimmed length |
| CountryEntity.NormalizeName | src/countries/country.entity.ts:63-65 | the name is trimmed and no longer than before |
| CountryEntity.NormalizeIso2Fixed | src/countries/country.entity.ts:60-62 | an already trimmed upper-case code is left as is |
| CountryEntity.NormalizeIso2Idempotent | src/countries/country.entity.ts:60-62 | normalizing a code twice equals normalizing once |
| CountryEntity.NormalizeNameIdempotent | src/countries/country.entity.ts:63-65 | normalizing a name twice equals normalizing once |
| CountryEntity.NormalizedIso2Field | src/countries/country.entity.ts:60-62 | a string code is normalized, any other value is untouched |
| CountryEntity.NormalizedNameField | src/countries/country.entity.ts:63-65 | a string name is trimmed, any other value is untouched |
| CountryEntity.NormalizeFieldsIdempotent | src/countries/country.entity.ts:58-66 | the hook applied twice equals the hook applied once |
| CountryEntity.CountryInstance.Normalize | src/countries/country.entity.ts:58-66 | the hook rewrites only `iso2` and `name`, as the field functions say |
| CountryDto.CreateIso2 | src/countries/country.dto.ts:15-19 | an accepted code is two letters A-Z and a fixed point of the hook |
| CountryDto.CreateName | src/countries/country.dto.ts:25-28 | an accepted name is trimmed, a fixed point of the hook, and 1 to 100 characters long, which the column can store |
| CountryDto.UpdateIso2 | src/countries/country.dto.ts:40-45 | an optional code is present iff sent, and then validated as on create |
| CountryDto.UpdateName | src/countries/country.dto.ts:51-55 | an optional name is present iff sent, and then validated as on create |
| CountryDto.Iso2AcceptedIff | src/countries/country.dto.ts:15-18 | a string code is accepted iff, after trimming, it is exactly two ASCII letters |
| CountryDto.UpdateValidatesLikeCreate | src/countries/country.dto.ts:31-56 | with both fields sent, the update dto accepts exactly what the create dto accepts |
| CountryDto.NameWiderThanColumn | src/countries/country.dto.ts:25-28 | a 101-letter name passes the validator as written but does not fit the 100-character column |
| Countries.Normalized | src/countries/country.entity.ts:58-66 | the row the hook produces is trimmed, with an upper-case code |
| Countries.WriteKeepsIsosUnique | src/countries/country.entity.ts:30-36 | writing a code no other row holds keeps `uq_countries_iso2` |
| Countries.WriteKeepsNamesUnique | src/countries/country.service.ts:28-33 | writing a name no other row holds keeps names unique |
| Countries.WriteKeepsNormalized | src/countries/country.entity.ts:58-66 | writing a normalized row that fits the columns keeps every row normalized |
| Countries.UpdateKeepsNamesUnique | src/countries/country.service.ts:75-83 | an update whose name passed the service's check keeps names unique |
| Countries.InsertKeepsNamesUnique | src/countries/country.service.ts:28-33 | a create whose name passed the check keeps names unique |
| Countries.NameStoredAsGiven | src/countries/country.entity.ts:63-65 | a trimmed name is stored unchanged |
| Countries.ValidCreateIsStored | src/countries/country.dto.ts:8-29 | a validated create whose code is free, made while the `SMALLINT` id has room, is stored exactly as the dto transformed it |
| Countries.CountryService.Create | src/countries/country.service.ts:18-40 | BadRequest without both fields, Conflict for a held code then name, storage error for a code clash after the hook, an over-wide value or an id past 32767, otherwise the normalized row is inserted |
| Table.RowsDescending | src/countries/country.service.ts:42-46 | the result holds every stored row exactly once, each the row stored under its id, ids strictly decreasing |
| Countries.CountryService.FindAll | src/countries/country.service.ts:42-46 | the result is the table ordered by `id DESC` (`Table.RowsDescending`), so every country once, newest first |
| Countries.CountryService.FindOne | src/countries/country.service.ts:48-53 | none iff no country satisfies the filter, otherwise one that does |
| Countries.CountryService.FindOneById | src/countries/country.service.ts:55-59 | NotFound iff the id is missing; otherwise that country |
| Countries.CountryService.UpdateCountry | src/countries/country.service.ts:61-94 | NotFound, Conflict for a new code then name held by another row, storage error, otherwise the merged normalized row is stored |
| Countries.CountryService.DeleteCountry | src/countries/country.service.ts:96-111 | NotFound iff missing, BadRequest with the row kept on a foreign-key violation, otherwise only that row goes |
| Catalog.CleanDescription | src/roles/roles.service.ts:25-28 | the stored description is the trimmed one, or null iff it is absent or blank |
| Catalog.CleanDescriptionIdempotent | src/roles/roles.service.ts:25-28 | cleaning a description twice equals cleaning it once |
| Catalog.WriteKeepsNamesUnique | src/roles/roles.service.ts:30-33 | writing a name no other row holds keeps the name unique |
| Catalog.CatalogService.Create | src/roles/roles.service.ts:19-36 | BadRequest for a missing or blank name; the trimmed name and cleaned description are inserted; Conflict for a held name; storage error for an over-wide name; the same code is in `src/permissions/permission.service.ts` |
| Catalog.CatalogService.FindAll | src/roles/roles.service.ts:38-42 | the result is the table ordered by `id DESC` (`Table.RowsDescending`), so every entry once, newest first; the same code is in `src/permissions/permission.service.ts` |
| Catalog.CatalogService.FindOne | src/roles/roles.service.ts:44-49 | none iff no entry satisfies the filter, otherwise one that does |
| Catalog.CatalogService.FindOneById | src/roles/roles.service.ts:51-55 | NotFound iff the id is missing; otherwise that entry; the same code is in `src/permissions/permission.service.ts` |
| Catalog.CatalogService.Update | src/roles/roles.service.ts:57-76 | NotFound, then Conflict for a new name held by another entry; otherwise only the description changes (kept when omitted) and the name never does; the same code is in `src/permissions/permission.service.ts` |
| Catalog.CatalogService.Delete | src/roles/roles.service.ts:78-93 | NotFound iff missing, BadRequest with the row kept on a foreign-key violation, otherwise only that row goes; the same code is in `src/permissions/permission.service.ts` |
| NamedAuth.Applied | src/role/role.service.ts:81 | every field the dto carries replaces the stored one, the others stay |
| NamedAuth.WriteKeepsNamesUnique | src/role/role.entity.ts:27-33 | writing a name no other row holds keeps the unique `name` column |
| NamedAuth.UpdateOutcome | src/role/role.service.ts:65-90 | a success is the stored entry with the dto's fields applied, and the database accepts it; a missing id is the not-found code |
| NamedAuth.OwnNameRejected | src/role/role.service.ts:72-80 | renaming an entry to its own current non-empty name is answered with the name-taken code |
| NamedAuth.NamedAuthService.Create | src/role/role.service.ts:15-40 | `ROLE_NAME_ALREADY_EXIST` for a stored non-empty name, storage error for a null name, a clash or an over-wide value, otherwise exactly one row is inserted; errors roll back; the same code, with the `PERMISSION_*` codes, is in `src/permission/permission.service.ts` |
| NamedAuth.NamedAuthService.FindByPk | src/role/role.service.ts:42-53 | `ROLE_NOT_FOUND` iff the id is missing; otherwise that row; the same code, with the `PERMISSION_*` codes, is in `src/permission/permission.service.ts` |
| NamedAuth.NamedAuthService.FindAll | src/role/role.service.ts:55-63 | every row exactly once (`Table.RowsDescending`); the same code, with the `PERMISSION_*` codes, is in `src/permission/permission.service.ts` |
| NamedAuth.NamedAuthService.Update | src/role/role.service.ts:65-90 | answers `UpdateOutcome` (`ROLE_NOT_FOUND`, then the name-taken code for any stored non-empty name, its own included, then storage error, otherwise the dto's fields applied) and stores the entry it returns; errors roll back; the same code, with the `PERMISSION_*` codes, is in `src/permission/permission.service.ts` |
| NamedAuth.NamedAuthService.Delete | src/role/role.service.ts:92-106 | `ROLE_NOT_FOUND` iff no row was destroyed, storage error on a foreign-key violation, otherwise the count 1 and only that row goes; the same code, with the `PERMISSION_*` codes, is in `src/permission/permission.service.ts` |
| Auth.OtpKey | src/auth/auth.service.ts:45 | the key is the email behind a four-character prefix |
| Auth.OtpKeyInjective | src/auth/auth.service.ts:45-54 | two emails share a key iff they are equal |
| Auth.Sent | src/auth/auth.service.ts:44-48 | sending stores the code under the email's key, overwriting an earlier one, and touches no other key |
| Auth.AfterVerify | src/auth/auth.service.ts:57-63 | a successful check deletes the entry, a failed one leaves the cache as it was |
| Auth.SendThenVerify | src/auth/auth.service.ts:43-64 | a freshly sent code verifies iff it is non-empty and the same code is offered |
| Auth.VerifyAtMostOnce | src/auth/auth.service.ts:57-61 | after a successful check no code verifies for that email until a new one is sent |
| Auth.EmailsIndependent | src/auth/auth.service.ts:45-55 | sending or checking one email's code never changes what verifies for another |
| Auth.AuthService.SendOTPEmail | src/auth/auth.service.ts:43-51 | the cache becomes `Sent(...)` and the answer is the transport's result |
| Auth.AuthService.VerifyOTP | src/auth/auth.service.ts:53-64 | true iff a non-empty cached code equals the offered one; the cache becomes `AfterVerify(...)` |
| Auth.AuthService.ResetPassword | src/auth/auth.service.ts:82-93 | `EMAIL_NOT_FOUND` with nothing changed iff no user has the email; otherwise only that user's hash changes and the answer is true |
| Auth.AuthService.RegisterWithGoogleAsWritten | src/auth/auth.service.ts:66-80 | the user holding the email is returned; for a new email the insert fails with a storage error |
| Auth.AuthService.RegisterWithGoogle | src/auth/auth.service.ts:66-80 | the user holding the email is returned with nothing changed; otherwise exactly one user with that email is created |
| Auth.AuthController.SendOTP | src/auth/auth.controller.ts:38-45 | the reply carries the service's flag and the message that flag selects |
| Auth.AuthController.VerifyOTP | src/auth/auth.controller.ts:51-58 | `valid` is the service's answer, with the matching message |
| Auth.AuthController.ResetPassword | src/auth/auth.controller.ts:64-87 | an unverified code gives `success: false` with users untouched; a verified code is spent, so the request cannot be replayed, and then the reset runs |
| JunctionDto.IdOf | src/user_role/user_role.dto.ts:10-16 | an accepted id is an integer of at least one |
| JunctionDto.IdsOf | src/role-permission/role-permission.dto.ts:20-25 | the ids of an accepted list, in order, equal to the sent numbers |
| JunctionDto.IdListIsDistinctPositive | src/user_role/user_role.dto.ts:20-25 | an accepted list is non-empty, repeat-free and positive |
| JunctionDto.IdListPassesFoundCount | src/role-permission/role-permission.service.ts:69-72 | an accepted list of known ids passes the found-count check of `set` |
| JunctionDto.CoercedId | src/user-role/user-role.dto.ts:11-15 | the value is accepted iff `Number` of it is an integer of at least one, and the id is that number |
| JunctionDto.CoercedNumeral | src/user-role/user-role.dto.ts:11-15 | a positive id up to 2^53 sent as a decimal string is accepted as itself |
| JunctionDto.CoercionExtendsPositiveInt | src/user-role/user-role.dto.ts:18-22 | a positive integer sent as a number is accepted as itself |
| JunctionDto.CoercedRejects | src/user-role/user-role.dto.ts:25-39 | missing, null, false, zero, negative and fractional ids are rejected, while `true` coerces to 1 |
| JunctionDto.ValidUserRoleIdsAreGiven | src/user-role/user-role.dto.ts:41-53 | accepted ids always pass the service's "both ids required" check |
| UserDto.Field | src/users/user.dto.ts:9-29 | an optional field is present iff a string was sent, and carries that string |
| UserDto.PasswordOnlyBodyAccepted | src/users/user.dto.ts:8-30 | a body with only a password is valid, so the email-or-phone rule is the service's |
| UserDto.AcceptedContactsAreTruthy | src/users/user.dto.ts:17-21 | an accepted phone is never empty, so the service always checks it for a clash |
| UserDto.UpdateValidatesLikeCreate | src/users/user.dto.ts:32-55 | apart from the password being optional, update accepts exactly what create accepts |
| UserDto.AcceptedPasswordIsRehashed | src/users/user.dto.ts:47-50 | a password accepted on update always replaces the stored hash |
| Pagination.GetPagination | src/core/helper/index.ts:11-25 | the page is at least 1; the page count is the ceiling of total / limit; the offset is (page − 1)·limit ≥ 0; next iff page < count; prev iff page > 1; total and limit echoed |
| Pagination.CeilDivIsLeast | src/core/helper/index.ts:13 | the page count is the least n with n·limit ≥ total |
| Pagination.GetPaginationOrDefaults | src/core/helper/index.ts:11 | a missing limit is 10, a missing total 0, and a missing page is page 1 at offset 0 with no previous page |
| Pagination.NoArguments | src/core/helper/index.ts:11-25 | with no arguments the result is page 1 of 0 pages, 10 per page, offset 0, no next or previous page |
| Pagination.PageWindow | src/core/helper/index.ts:12-18 | a page within the count starts before the last row, and the last page reaches past it |
| Pagination.SecondOfTwoPages | src/core/helper/index.ts:12-23 | page 2, limit 10, total 15 gives 2 pages, offset 10, no next, previous 1 |
| LogsMiddleware.GetStatusColor | src/core/middlewares/logs.middleware.ts:90-96 | red iff ≥ 500, yellow iff 400–499, cyan iff 300–399, green iff 200–299, white iff < 200 |
| LogsMiddleware.LogLevelFor | src/core/middlewares/logs.middleware.ts:76-84 | error iff ≥ 500, warn iff 400–499, log otherwise |
| LogsMiddleware.LevelMatchesColor | src/core/middlewares/logs.middleware.ts:76-96 | the error level goes with red and the warn level with yellow |
| LogsMiddleware.SanitizeBody | src/core/middlewares/logs.middleware.ts:98-111 | the loop over the sensitive fields yields `Sanitized(body)` |
| LogsMiddleware.NonObjectUnchanged | src/core/middlewares/logs.middleware.ts:99 | a falsy or non-object body is returned unchanged |
| LogsMiddleware.RedactionExact | src/core/middlewares/logs.middleware.ts:101-108 | the copy has the same keys; exactly the sensitive keys with truthy values become the redaction mark |
| LogsMiddleware.SanitizeIdempotent | src/core/middlewares/logs.middleware.ts:104-108 | sanitizing twice equals sanitizing once |

## Left out

- Hashing, JWT signing and code generation. bcrypt (`hashPassword`, `comparePassword`, the salt) is a function parameter. `generateJWT` is a foreign call and is not modelled. `generateOTP` draws from `Math.random`, so the code is a parameter.
- Cache expiry: the five-minute TTL is time-driven eviction, so the cache is a plain map.
- Mail transport: it is network I/O, so its result is a boolean parameter.
- Logging: the console output, timing and `JSON.stringify` of the middleware's `use` are I/O. Its status colour, its log level and its redaction of the body are modelled.
- Timestamps: `created_at`, `updated_at` and the verification dates depend on the clock.
- Concurrency: races that the unique constraints would catch are out of scope. Every operation runs sequentially with the same checks.
- Other controllers, modules, providers and the router: they are wiring. `src/user-role/user-role.service.ts:89-96` (`findAll`) swallows errors and has no behaviour to state.
- ORM `include`: joins are modelled as filtering the junction rows.
- `googleAuth` (src/auth/auth.controller.ts:93-102): a placeholder that verifies nothing and echoes the token it is given, so there is no behaviour to state.
- Exception messages: only the exception kind or the `AuthException` code is modelled, not the message texts.
- RolePermission.RolePermissionService.Set: the only storage failure modelled is one in the bulk insert or bulk delete, chosen by the `fault` parameter. Connection failures elsewhere are not modelled.
- UserRoleJunction.UserRoleService.Set: storage failures are modelled the same way, by one `fault` per call.
- Auth.AuthService.ResetPassword: the new hash is taken to fit the 255-character `password_hash` column, as a bcrypt hash of 60 characters does. A wider one is not modelled as a storage error.
- Auth.AuthService.RegisterWithGoogle: an email wider than its 255-character column is not modelled as a storage error.
- Ids: ids are unbounded naturals, so the width of the `BIGINT` columns is not modelled. The `SMALLINT` id of a country is modelled: an insert past 32767 is the storage error.
- Users, Countries, Catalog, NamedAuth: an optional field sent as `null` and one left out are both `None`.
  - NamedAuth.NamedAuthService.Update: as a result, a `null` name is not modelled. It would break the column's NOT NULL constraint.
- CountryEntity.NormalizeIso2: upper-casing is ASCII-only. Unicode case mappings that change length or turn non-Latin letters into Latin ones are not modelled.
- CountryDto.Iso2AcceptedIff: the equivalence holds for the ASCII-only upper-casing. In the source, `toUpperCase` also maps `ı` to `I` and `ſ` to `S`, so `ıa` and `ſa` are accepted, and maps `ß` to `SS`, so a single `ß` is read as two letters and accepted too.
- JunctionDto.CoercedId: `Number` is modelled for decimal literals, booleans, null and undefined. Hexadecimal, exponent notation, `Infinity`, and arrays coerced through `class-transformer` are not. A decimal string is read as an exact rational, not rounded to a double. So `"9007199254740993"` gives that integer here, but 9007199254740992 in the source. And `"1.0000000000000001"` is fractional here and rejected, but reads as 1 in the source and is accepted.
- JunctionDto.CoercedNumeral: stated only up to 2^53 for the same reason. Above it, the source reads many numerals as a neighbouring integer.
- UserDto.ValidCreate: `IsEmail` and `IsUrl` are library checks whose definitions are not available here, so they are parameters.
- UserDto.ValidUpdate: the same applies to `IsEmail` and `IsUrl` here.
- String lengths: all lengths (`Length`, `MinLength`, column widths) count characters, not UTF-16 code units.
- NamedAuth.NamedAuthService.FindAll: the source's query asks for no order. The model returns the rows largest id first, which is one order the database may return.
- Pagination.GetPagination: `limit ≥ 1` is required, as every caller's dto forces. With a zero limit the source computes `Infinity` pages.

## Findings

| source | as written | input that shows it | evidently intended | confidence | as-written member | corrected member |
|---|---|---|---|---|---|---|
| src/countries/country.dto.ts:25-28 | the name is validated as 1 to 255 characters (in the update dto too, src/countries/country.dto.ts:51-55), but the column (src/countries/country.entity.ts:38-42) is `STRING(100)` | a name of 101 letters passes validation and then fails at the insert | reject at validation any name the column cannot store (1 to 100 characters) | medium, not executed | CountryDto.NameWiderThanColumn | CountryDto.CreateName (and CountryDto.UpdateName, which applies the same 1 to 100 bound) |
| src/auth/auth.service.ts:75-77 | a new Google user is inserted with only an email, but `password_hash` is NOT NULL (src/users/user.entity.ts:48-52) | any email no user holds: the insert always fails | create exactly one user for the email, with a placeholder hash that cannot be used to log in | high, not executed | Auth.AuthService.RegisterWithGoogleAsWritten | Auth.AuthService.RegisterWithGoogle |
