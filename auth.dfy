/** `AuthService` and `AuthController` (src/auth): one-time codes kept in a keyed cache under
    `otp:<email>`, a password reset gated by such a code, and sign-up through a Google profile.
    The cache is a plain map: its five-minute expiry, code generation, e-mail delivery and
    hashing come in as parameters. */
module Auth {
  import opened Common
  import opened Users

  /** The cache key of an email's code. */
  function OtpKey(email: string): (k: string)
    ensures |k| == |email| + 4 && k[4..] == email
  {
    "otp:" + email
  }

  /** Codes of different emails live under different keys. */
  lemma {:induction false} OtpKeyInjective(a: string, b: string)
    ensures OtpKey(a) == OtpKey(b) <==> a == b
  {
    if OtpKey(a) == OtpKey(b) {
      assert a == OtpKey(a)[4..];
    }
  }

  /** The cache after `sendOTPEmail(email)` stored `otp`, overwriting any earlier code. */
  function Sent(cache: map<string, string>, email: string, otp: string): (c: map<string, string>)
    ensures OtpKey(email) in c && c[OtpKey(email)] == otp
    ensures forall k :: k != OtpKey(email) ==> (k in c <==> k in cache) && (k in c ==> c[k] == cache[k])
  {
    cache[OtpKey(email) := otp]
  }

  /** What `verifyOTP` answers: a non-empty code is cached for the email and equals `otp`. */
  predicate Verified(cache: map<string, string>, email: string, otp: string)
  {
    OtpKey(email) in cache && cache[OtpKey(email)] != "" && cache[OtpKey(email)] == otp
  }

  /** The cache after `verifyOTP`: a successful check deletes the entry, a failed one keeps it. */
  function AfterVerify(cache: map<string, string>, email: string, otp: string): (c: map<string, string>)
    ensures Verified(cache, email, otp) ==> c == cache - {OtpKey(email)}
    ensures !Verified(cache, email, otp) ==> c == cache
  {
    if Verified(cache, email, otp) then cache - {OtpKey(email)} else cache
  }

  /** A freshly sent code verifies exactly when it is non-empty and the same code is offered. */
  lemma SendThenVerify(cache: map<string, string>, email: string, otp: string, offered: string)
    ensures Verified(Sent(cache, email, otp), email, offered) <==> otp != "" && offered == otp
  {
  }

  /** A code verifies at most once: after a successful check no code verifies for that email
      until a new one is sent. */
  lemma VerifyAtMostOnce(cache: map<string, string>, email: string, otp: string, again: string)
    requires Verified(cache, email, otp)
    ensures !Verified(AfterVerify(cache, email, otp), email, again)
  {
  }

  /** Sending or verifying a code for one email does not change what verifies for another. */
  lemma {:induction false} EmailsIndependent(cache: map<string, string>, a: string, b: string, otp: string, offered: string)
    requires a != b
    ensures Verified(Sent(cache, a, otp), b, offered) == Verified(cache, b, offered)
    ensures Verified(AfterVerify(cache, a, otp), b, offered) == Verified(cache, b, offered)
  {
    OtpKeyInjective(a, b);
  }

  /** Some row of the table holds this email. */
  predicate HasEmail(users: map<nat, User>, email: string)
  {
    exists id :: id in users && users[id].email == Some(email)
  }

  /** The columns `registerWithGoogle` passes to the insert: only the email, so the hash is null. */
  datatype SignupRow = SignupRow(email: Option<string>, password_hash: Option<string>)

  function GoogleSignupRow(email: string): SignupRow
  {
    SignupRow(Some(email), None)
  }

  /** The `NOT NULL` constraint of the `password_hash` column. */
  predicate PassesNotNull(row: SignupRow)
  {
    row.password_hash.Some?
  }

  class AuthService {
    /** The cache manager's entries. */
    var cache: map<string, string>
    /** The `user` table the service reads and writes. */
    const userService: UserService

    constructor(userService: UserService)
      ensures this.userService == userService && cache == map[]
    {
      this.userService := userService;
      cache := map[];
    }

    /** `sendOTPEmail`: stores `otp` under the email's key and returns what the mail transport
        reported (`sent`). */
    method SendOTPEmail(email: string, otp: string, sent: bool) returns (r: bool)
      modifies this`cache
      ensures cache == Sent(old(cache), email, otp)
      ensures r == sent
    {
      cache := cache[OtpKey(email) := otp];
      r := sent;
    }

    /** `verifyOTP`: true exactly when a non-empty code is cached for the email and equals
        `otp`; on success the entry is deleted. */
    method VerifyOTP(email: string, otp: string) returns (r: bool)
      modifies this`cache
      ensures r == Verified(old(cache), email, otp)
      ensures cache == AfterVerify(old(cache), email, otp)
    {
      var key := OtpKey(email);
      if key in cache && cache[key] != "" && cache[key] == otp {
        cache := cache - {key};
        return true;
      }
      r := false;
    }

    /** `resetPassword`: `EMAIL_NOT_FOUND` when no user has the email, with nothing changed;
        otherwise that user's hash becomes `hash(newPassword)`, every other row and column
        stays, and the answer is true. */
    method ResetPassword(email: string, newPassword: string, hash: string -> string)
      returns (r: Result<bool, AuthFailure>)
      requires userService.Valid()
      modifies userService`users
      ensures userService.Valid()
      ensures r == (if HasEmail(old(userService.users), email) then Ok(true)
                    else Err(AuthException(EmailNotFound)))
      ensures userService.users.Keys == old(userService.users).Keys
      ensures forall id :: id in old(userService.users) ==>
        userService.users[id] == (if old(userService.users)[id].email == Some(email)
                                  then old(userService.users)[id].(password_hash := hash(newPassword))
                                  else old(userService.users)[id])
    {
      var users := userService.users;
      if !HasEmail(users, email) {
        return Err(AuthException(EmailNotFound));
      }
      var id :| id in users && users[id].email == Some(email);
      var u := users[id].(password_hash := hash(newPassword));
      forall other | other in users && other != id ensures users[other].email != Some(email) {
        assert users[id].email.Some?;
      }
      WriteKeepsUnique(users, u);
      userService.users := users[id := u];
      r := Ok(true);
    }

    /** `registerWithGoogle` as written: the user holding the email is returned as is;
        otherwise it inserts a row with the email alone, which fails the `NOT NULL` check on
        `password_hash`, so a new email never registers. */
    method RegisterWithGoogleAsWritten(email: string) returns (r: Result<User, AuthFailure>)
      requires userService.Valid()
      ensures HasEmail(userService.users, email) ==>
        r.Ok? && r.value.id in userService.users && r.value == userService.users[r.value.id]
        && r.value.email == Some(email)
      ensures !HasEmail(userService.users, email) ==> r == Err(StorageError)
    {
      var users := userService.users;
      if id :| id in users && users[id].email == Some(email) {
        return Ok(users[id]);
      }
      assert !PassesNotNull(GoogleSignupRow(email));
      r := Err(StorageError);
    }

    /** `registerWithGoogle` with the insert given a hash for the non-null column (a
        placeholder the account cannot log in with): the user holding the email is returned
        and nothing changes; otherwise exactly one user, holding the email, is created. */
    method RegisterWithGoogle(email: string, placeholderHash: string) returns (u: User)
      requires userService.Valid()
      modifies userService
      ensures userService.Valid()
      ensures u.email == Some(email)
      ensures HasEmail(old(userService.users), email) ==>
        u.id in old(userService.users) && u == old(userService.users)[u.id]
        && userService.users == old(userService.users) && userService.nextId == old(userService.nextId)
      ensures !HasEmail(old(userService.users), email) ==>
        u.id !in old(userService.users) && userService.users == old(userService.users)[u.id := u]
        && userService.nextId == old(userService.nextId) + 1
    {
      var users := userService.users;
      if id :| id in users && users[id].email == Some(email) {
        return users[id];
      }
      u := User(userService.nextId, None, Some(email), None, placeholderHash, None);
      WriteKeepsUnique(users, u);
      userService.users := users[u.id := u];
      userService.nextId := userService.nextId + 1;
    }
  }

  /** A reply carrying an outcome flag and the message chosen by it. */
  datatype Reply = Reply(flag: bool, message: string)

  const OtpSentMessage := "OTP sent successfully"
  const OtpNotSentMessage := "Failed to send OTP"
  const OtpValidMessage := "OTP verified successfully"
  const OtpInvalidMessage := "Invalid or expired OTP"
  const ResetDoneMessage := "Password reset successfully"
  const ResetFailedMessage := "Failed to reset password"

  class AuthController {
    const service: AuthService

    constructor(service: AuthService)
      ensures this.service == service
    {
      this.service := service;
    }

    /** `sendOTP`: the service's flag, with the message it selects. */
    method SendOTP(email: string, otp: string, sent: bool) returns (r: Reply)
      modifies service`cache
      ensures service.cache == Sent(old(service.cache), email, otp)
      ensures r == Reply(sent, if sent then OtpSentMessage else OtpNotSentMessage)
    {
      var success := service.SendOTPEmail(email, otp, sent);
      r := Reply(success, if success then OtpSentMessage else OtpNotSentMessage);
    }

    /** `verifyOTP`: whether the code verified, with the message it selects. */
    method VerifyOTP(email: string, otp: string) returns (r: Reply)
      modifies service`cache
      ensures r.flag == Verified(old(service.cache), email, otp)
      ensures r.message == (if r.flag then OtpValidMessage else OtpInvalidMessage)
      ensures service.cache == AfterVerify(old(service.cache), email, otp)
    {
      var valid := service.VerifyOTP(email, otp);
      r := Reply(valid, if valid then OtpValidMessage else OtpInvalidMessage);
    }

    /** `resetPassword`: a code that does not verify gives `success: false` and the reset is
        never reached. A code that verifies is consumed first, so the same request cannot be
        replayed, and then the email's password is reset; an unknown email then fails with
        `EMAIL_NOT_FOUND` with the code already spent. */
    method ResetPassword(email: string, otp: string, newPassword: string, hash: string -> string)
      returns (r: Result<Reply, AuthFailure>)
      requires service.userService.Valid()
      modifies service`cache, service.userService`users
      ensures service.userService.Valid()
      ensures service.cache == AfterVerify(old(service.cache), email, otp)
      ensures !Verified(old(service.cache), email, otp) ==>
        r == Ok(Reply(false, OtpInvalidMessage)) && service.userService.users == old(service.userService.users)
      ensures Verified(old(service.cache), email, otp) ==>
        r == (if HasEmail(old(service.userService.users), email) then Ok(Reply(true, ResetDoneMessage))
              else Err(AuthException(EmailNotFound)))
      ensures Verified(old(service.cache), email, otp) ==> !Verified(service.cache, email, otp)
      ensures service.userService.users.Keys == old(service.userService.users).Keys
      ensures forall id :: id in old(service.userService.users) ==>
        service.userService.users[id] ==
          (if Verified(old(service.cache), email, otp) && old(service.userService.users)[id].email == Some(email)
           then old(service.userService.users)[id].(password_hash := hash(newPassword))
           else old(service.userService.users)[id])
    {
      ghost var cache0 := service.cache;
      var isValid := service.VerifyOTP(email, otp);
      if !isValid {
        return Ok(Reply(false, OtpInvalidMessage));
      }
      VerifyAtMostOnce(cache0, email, otp, otp);
      var reset := service.ResetPassword(email, newPassword, hash);
      if reset.Err? {
        return Err(reset.error);
      }
      var success := reset.value;
      r := Ok(Reply(success, if success then ResetDoneMessage else ResetFailedMessage));
    }
  }
}
