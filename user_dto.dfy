/** `CreateUserDto` and `UpdateUserDto` of src/users as predicates over the parsed request
    body, and the service dtos an accepted body becomes. `IsEmail` and `IsUrl` are library
    checks whose definitions are outside this model: they come in as parameters. */
module UserDto {
  import opened Common
  import opened Text
  import opened JsValue
  import Users

  datatype UserBody = UserBody(
    full_name: Value,
    email: Value,
    phone_number: Value,
    password: Value,
    avatar_url: Value)

  /** `@IsOptional()`: an undefined or null value skips the field's other checks. */
  predicate Absent(v: Value)
  {
    v.Undefined? || v.Null?
  }

  /** A character the phone pattern `[0-9+\-\s]` allows. */
  predicate PhoneChar(c: char)
  {
    IsDigit(c) || c == '+' || c == '-' || IsSpace(c)
  }

  /** The whole string matches `^[0-9+\-\s]{6,20}$`. */
  predicate PhoneMatches(s: string)
  {
    6 <= |s| <= 20 && forall i :: 0 <= i < |s| ==> PhoneChar(s[i])
  }

  /** `@IsString() @MinLength(6)` */
  predicate PasswordOk(v: Value)
  {
    v.Str? && |v.s| >= 6
  }

  /** The checks shared by both dtos on the optional fields. */
  predicate OptionalFieldsOk(b: UserBody, isEmail: string -> bool, isUrl: string -> bool)
  {
    && (Absent(b.full_name) || b.full_name.Str?)
    && (Absent(b.email) || (b.email.Str? && isEmail(b.email.s)))
    && (Absent(b.phone_number) || (b.phone_number.Str? && PhoneMatches(b.phone_number.s)))
    && (Absent(b.avatar_url) || (b.avatar_url.Str? && isUrl(b.avatar_url.s)))
  }

  /** `CreateUserDto`: every field optional except the password. */
  predicate ValidCreate(b: UserBody, isEmail: string -> bool, isUrl: string -> bool)
  {
    OptionalFieldsOk(b, isEmail, isUrl) && PasswordOk(b.password)
  }

  /** `UpdateUserDto`: every field optional, the password checked only when given. */
  predicate ValidUpdate(b: UserBody, isEmail: string -> bool, isUrl: string -> bool)
  {
    OptionalFieldsOk(b, isEmail, isUrl) && (Absent(b.password) || PasswordOk(b.password))
  }

  /** An optional string field as the service sees it: absent is `None`. */
  function Field(v: Value): (r: Option<string>)
    requires Absent(v) || v.Str?
    ensures r.Some? <==> v.Str?
    ensures r.Some? ==> r.value == v.s
  {
    if v.Str? then Some(v.s) else None
  }

  function ToCreate(b: UserBody, isEmail: string -> bool, isUrl: string -> bool): Users.CreateUserDto
    requires ValidCreate(b, isEmail, isUrl)
  {
    Users.CreateUserDto(Field(b.full_name), Field(b.email), Field(b.phone_number), b.password.s, Field(b.avatar_url))
  }

  function ToUpdate(b: UserBody, isEmail: string -> bool, isUrl: string -> bool): Users.UpdateUserDto
    requires ValidUpdate(b, isEmail, isUrl)
  {
    Users.UpdateUserDto(Field(b.full_name), Field(b.email), Field(b.phone_number), Field(b.password), Field(b.avatar_url))
  }

  /** A body with only a password is a valid `CreateUserDto`: the "email or phone" rule lives
      in the service, which answers BadRequest for it. */
  lemma PasswordOnlyBodyAccepted(password: string, isEmail: string -> bool, isUrl: string -> bool)
    requires |password| >= 6
    ensures var b := UserBody(Undefined, Undefined, Undefined, Str(password), Undefined);
      ValidCreate(b, isEmail, isUrl)
      && !Common.Truthy(ToCreate(b, isEmail, isUrl).email) && !Common.Truthy(ToCreate(b, isEmail, isUrl).phone_number)
  {
  }

  /** An accepted phone number is never empty, so the service always checks it for a clash;
      the same holds for an email when the email check refuses the empty string. */
  lemma AcceptedContactsAreTruthy(b: UserBody, isEmail: string -> bool, isUrl: string -> bool)
    requires OptionalFieldsOk(b, isEmail, isUrl)
    requires !isEmail("")
    ensures Field(b.phone_number).Some? ==> Common.Truthy(Field(b.phone_number))
    ensures Field(b.email).Some? ==> Common.Truthy(Field(b.email))
  {
  }

  /** The create and update dtos apply the same phone, email, name and avatar rules: a body
      is a valid update exactly when, with any password of at least six characters put in,
      it is a valid create. */
  lemma UpdateValidatesLikeCreate(b: UserBody, isEmail: string -> bool, isUrl: string -> bool)
    requires Absent(b.password)
    ensures ValidUpdate(b, isEmail, isUrl) <==> ValidCreate(b.(password := Str("secret")), isEmail, isUrl)
  {
  }

  /** A password accepted by `UpdateUserDto` always replaces the stored hash: it is never the
      empty string the service would skip. */
  lemma AcceptedPasswordIsRehashed(b: UserBody, isEmail: string -> bool, isUrl: string -> bool,
                                   u: Users.User, hash: string -> string)
    requires ValidUpdate(b, isEmail, isUrl) && b.password.Str?
    ensures Users.Patched(u, ToUpdate(b, isEmail, isUrl), hash).password_hash == hash(b.password.s)
  {
  }
}
