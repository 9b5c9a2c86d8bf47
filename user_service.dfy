/**
 * The user service of services/users.go: registration and password reset
 * through e-mailed verification codes, login with a signed token, and
 * lookup by id. Each operation is an ordered run of checks followed by
 * changes to the code cache and the user table.
 *
 * The mailer, the JWT signer, the random source and the clock are outside
 * the model: their readings and outcomes are parameters or nondeterministic
 * choices.
 */
module UserService {
  import opened Wrappers
  import opened Errors
  import Validation
  import Random
  import Config
  import Journal
  import Locker
  import opened CodeStore
  import opened UserStore

  /** The name `RegisterUser` holds while it checks for conflicts and inserts. */
  const RegisterLock: string := "$file-explorer:user-service$"

  /** `time.Second` in nanoseconds. */
  const Second: int := 1_000_000_000

  /** `UserResetPasswordParams`. */
  datatype ResetParams = ResetParams(email: string, code: string, password: string)

  /** `UserRegisterParams`. */
  datatype RegisterParams = RegisterParams(username: string, password: string, email: string, role: string, code: string)

  /** `UserLoginParams`: a username or an email address, and a password. */
  datatype LoginParams = LoginParams(identity: string, certificate: string)

  /** The form checks of `RegisterUser`, in the order it makes them. */
  predicate WellFormedRegistration(p: RegisterParams) {
    Validation.IsUsername(p.username) && p.password != "" && Validation.IsEmail(p.email) && p.code != ""
  }

  /** The role a registration stores: "user" when none is given. */
  function RoleOf(p: RegisterParams): string {
    if p.role == "" then RoleUser else p.role
  }

  /** Every user has a username: then `CheckUserExists` on an email alone can only answer "" or "email". */
  predicate AllNamed(us: Users) {
    forall k | k in us :: us[k].username != ""
  }

  /** Whether the user is the one a login with these parameters looks up and lets in. */
  predicate Authenticates(u: User, p: LoginParams) {
    (if Validation.IsEmail(p.identity) then u.email == p.identity
     else Validation.IsUsername(p.identity) && u.username == p.identity)
    && PasswordMatches(p.certificate, u.password)
  }

  /** `time.Time.Unix()` of a time in nanoseconds since the epoch: whole seconds, rounded down. */
  function UnixSeconds(t: int): (s: int)
    ensures s * Second <= t < s * Second + Second
  {
    t / Second
  }

  /** `int64(d.Seconds())`: a duration in whole seconds, truncated toward zero. */
  function WholeSeconds(d: int): (s: int)
    ensures d >= 0 ==> 0 <= s && s * Second <= d < s * Second + Second
    ensures d < 0 ==> s <= 0 && -s * Second <= -d < -s * Second + Second
  {
    if d >= 0 then d / Second else -((-d) / Second)
  }

  /**
   * `generateUserToken`: the claims carry the subject "user_auth", the
   * user's id and role and the expiry `now + expire` in Unix seconds; the
   * token's lifetime is `expire` in whole seconds.
   */
  function UserToken(u: User, now: int, expire: int): Token {
    Token(Claims("user_auth", u.id, u.role, UnixSeconds(now + expire)), WholeSeconds(expire))
  }

  /**
   * A token's claimed expiry lies between the issue second plus its lifetime
   * and one second later, for a non-negative lifetime.
   */
  lemma TokenExpiry(u: User, now: int, expire: int)
    requires expire >= 0
    ensures var t := UserToken(u, now, expire);
            UnixSeconds(now) + t.expire <= t.claims.expiresAt <= UnixSeconds(now) + t.expire + 1
  {
    var a, b, c := UnixSeconds(now), WholeSeconds(expire), UnixSeconds(now + expire);
    assert (a + b) * Second <= now + expire < (a + b + 2) * Second;
    assert (a + b) * Second < c * Second + Second;
    assert c * Second < (a + b + 2) * Second;
  }

  /** The cache after storing a fresh code for `target` with the given lifetime. */
  predicate StoredCode(before: map<string, Entry>, after: map<string, Entry>,
                       typ: string, target: string, code: string, expiration: int, now: int) {
    after == before[CodeKey(typ, code, target) := Entry(VerificationCode(0, now, typ, code, target, expiration), expiration)]
  }

  /** The cache after a code was checked and removed: it was there, and only it is gone. */
  predicate Consumed(before: map<string, Entry>, after: map<string, Entry>, key: string) {
    key in before && after == before - {key}
  }

  /** A six-digit code drawn from the random source. */
  predicate DrawnCode(code: string, draws: seq<int>) {
    |code| == 6 && |draws| >= 6 && forall i | 0 <= i < 6 :: Random.IsDigit(code[i]) && code[i] as int - '0' as int == draws[i]
  }

  class UserService {
    /** `config()`, read once: the configuration does not change under the service. */
    const settings: Config.Settings
    /** `dataContext.User()`. */
    const users: UserRepository
    /** `dataContext.VerificationCode()`. */
    const codes: VerificationCodeRepository
    /** `namedLocker`. */
    const locker: Locker.GLocker

    ghost predicate Valid()
      reads this, users, users.files, locker
    {
      users.Valid() && locker.Valid()
    }

    constructor (settings: Config.Settings, users: UserRepository, codes: VerificationCodeRepository, locker: Locker.GLocker)
      requires users.Valid() && locker.Valid()
      ensures Valid()
      ensures this.settings == settings && this.users == users && this.codes == codes && this.locker == locker
    {
      this.settings := settings;
      this.users := users;
      this.codes := codes;
      this.locker := locker;
    }

    /**
     * `createVerificationCode`: checks the address, then asks the user table
     * whether it is taken. Registration (`emailNotExists`) wants a free
     * address, a reset a registered one. A six-digit code is drawn, stored
     * under (type, address, code) and mailed; `mailFailure` is the outcome
     * of rendering and sending the mail (none when it went out or when the
     * template is missing). A mail failure leaves the stored code in place.
     */
    method CreateVerificationCode(email: string, typ: string, expiration: int, emailNotExists: bool,
                                  draws: seq<int>, now: int, mailFailure: Option<string>)
      returns (code: string, err: Option<Error>)
      requires Valid()
      requires |draws| >= 6 && forall i | 0 <= i < 6 :: 0 <= draws[i] < 10
      modifies codes.cache
      ensures Valid()
      ensures !Validation.IsEmail(email) ==>
                err == Some(UserError("verification code", UserFieldIsInvalid)) && codes.cache.entries == old(codes.cache.entries)
      ensures err.Some? ==> code == ""
      ensures err.None? ==>
                DrawnCode(code, draws) &&
                StoredCode(old(codes.cache.entries), codes.cache.entries, typ, email, code, expiration, now)
      ensures mailFailure.Some? ==> err.Some?
      ensures codes.cache.entries != old(codes.cache.entries) ==>
                exists c | DrawnCode(c, draws) :: StoredCode(old(codes.cache.entries), codes.cache.entries, typ, email, c, expiration, now)
      ensures emailNotExists && err == Some(UserError("verification code", EmailAlreadyExists)) ==>
                exists k | k in users.users :: users.users[k].email == email
      ensures emailNotExists && Validation.IsEmail(email) && AllNamed(users.users) &&
              (exists k | k in users.users :: users.users[k].email == email) ==>
                err.Some?
      ensures !emailNotExists && err.None? ==> exists k | k in users.users :: users.users[k].email == email
      ensures !emailNotExists && AllNamed(users.users) && err == Some(UserError("verification code", EmailNotFound)) ==>
                forall k | k in users.users :: users.users[k].email != email
    {
      if !Validation.IsEmail(email) {
        return "", Some(UserError("verification code", UserFieldIsInvalid));
      }
      var conflict, ok := users.CheckUserExists(User("", "", NoPassword, email, ""));
      if !ok {
        return "", Some(Failure("user repository: query failed"));
      }
      ConflictOutcomes(users.users, "", email, conflict);
      if conflict == "email" && emailNotExists {
        return "", Some(UserError("verification code", EmailAlreadyExists));
      } else if conflict != "email" && !emailNotExists {
        return "", Some(UserError("verification code", EmailNotFound));
      }
      code := Random.DigitString(6, draws);
      var stored, e := codes.CreateVerificationCode(Some(VerificationCode(0, 0, typ, code, email, expiration)), now);
      if e.Some? {
        return "", e;
      }
      assert DrawnCode(code, draws);
      assert StoredCode(old(codes.cache.entries), codes.cache.entries, typ, email, code, expiration, now);
      if mailFailure.Some? {
        return "", Some(Failure(mailFailure.value));
      }
      err := None;
    }

    /** `CreateEmailVerificationCode`: a registration code, which needs an unregistered address. */
    method CreateEmailVerificationCode(email: Option<string>, draws: seq<int>, now: int, mailFailure: Option<string>)
      returns (code: string, err: Option<Error>)
      requires Valid()
      requires |draws| >= 6 && forall i | 0 <= i < 6 :: 0 <= draws[i] < 10
      modifies codes.cache
      ensures Valid()
      ensures email.None? ==>
                err == Some(InvalidArgument("UserService", "params", "CreateRegisterCode")) &&
                codes.cache.entries == old(codes.cache.entries)
      ensures err.None? ==>
                email.Some? && DrawnCode(code, draws) &&
                StoredCode(old(codes.cache.entries), codes.cache.entries, settings.registerTypeName, email.value,
                           code, settings.registerExpiration, now)
      ensures err.None? && (exists k | k in users.users :: users.users[k].email == email.value) ==> !AllNamed(users.users)
    {
      if email.None? {
        return "", Some(InvalidArgument("UserService", "params", "CreateRegisterCode"));
      }
      code, err := CreateVerificationCode(email.value, settings.registerTypeName, settings.registerExpiration, true,
                                          draws, now, mailFailure);
    }

    /** `CreateResetPWDVerificationCode`: a password-reset code, which needs a registered address. */
    method CreateResetPWDVerificationCode(email: Option<string>, draws: seq<int>, now: int, mailFailure: Option<string>)
      returns (code: string, err: Option<Error>)
      requires Valid()
      requires |draws| >= 6 && forall i | 0 <= i < 6 :: 0 <= draws[i] < 10
      modifies codes.cache
      ensures Valid()
      ensures email.None? ==>
                err == Some(InvalidArgument("UserService", "params", "CreateResetPWDVerificationCode")) &&
                codes.cache.entries == old(codes.cache.entries)
      ensures err.None? ==>
                email.Some? && DrawnCode(code, draws) &&
                StoredCode(old(codes.cache.entries), codes.cache.entries, settings.resetTypeName, email.value,
                           code, settings.resetExpiration, now) &&
                exists k | k in users.users :: users.users[k].email == email.value
    {
      if email.None? {
        return "", Some(InvalidArgument("UserService", "params", "CreateResetPWDVerificationCode"));
      }
      code, err := CreateVerificationCode(email.value, settings.resetTypeName, settings.resetExpiration, false,
                                          draws, now, mailFailure);
    }

    /**
     * The code step of `ResetPassword` and `RegisterUser`: look the code up
     * under (type, code, target); a code the cache does not hold is an
     * invalid code of operation `op`; a found code is deleted.
     */
    method ConsumeCode(op: string, typ: string, code: string, target: string) returns (err: Option<Error>)
      modifies codes.cache
      ensures err.None? ==>
                typ != "" && code != "" && target != "" &&
                Consumed(old(codes.cache.entries), codes.cache.entries, CodeKey(typ, code, target))
      ensures err.Some? ==> codes.cache.entries == old(codes.cache.entries)
      ensures err.Some? ==> err.value.Failure? || err.value == UserError(op, VerificationCodeIsInvalid)
      ensures err == Some(UserError(op, VerificationCodeIsInvalid)) ==>
                typ != "" && code != "" && target != "" && CodeKey(typ, code, target) !in old(codes.cache.entries)
      ensures typ != "" && code != "" && target != "" && CodeKey(typ, code, target) !in old(codes.cache.entries) ==>
                err == Some(UserError(op, VerificationCodeIsInvalid)) || (err.Some? && err.value.Failure?)
    {
      var found, e := codes.GetVerificationCodeByCodeTypeTarget(typ, code, target);
      if e.Some? {
        return e;
      }
      if found.None? {
        return Some(UserError(op, VerificationCodeIsInvalid));
      }
      DeleteMatchesGet(typ, code, target);
      err := codes.DeleteVerificationCode(typ, code, target);
      if err.Some? {
        err := Some(Failure("verification code repository: delete failed"));
      }
    }

    /**
     * `ResetPassword`: the password and the code must be given; the reset
     * code must be in the cache for this address, and it is consumed before
     * the user is looked up; the user with that address gets the new
     * password's hash.
     */
    method ResetPassword(params: Option<ResetParams>) returns (err: Option<Error>)
      requires Valid()
      modifies codes.cache, users
      ensures Valid()
      ensures params.None? ==> err == Some(InvalidArgument("UserService", "params", "ResetPassword"))
      ensures params.Some? && params.value.password == "" ==> err == Some(UserError("reset password", UserFieldIsInvalid))
      ensures params.Some? && params.value.password != "" && params.value.code == "" ==>
                err == Some(UserError("reset password", VerificationCodeIsInvalid))
      ensures params.None? || params.value.password == "" || params.value.code == "" ==>
                codes.cache.entries == old(codes.cache.entries) && users.users == old(users.users)
      ensures params.Some? && params.value.password != "" && params.value.code != "" && settings.resetTypeName != "" &&
              params.value.email != "" &&
              CodeKey(settings.resetTypeName, params.value.code, params.value.email) !in old(codes.cache.entries) ==>
                (err == Some(UserError("reset password", VerificationCodeIsInvalid)) || (err.Some? && err.value.Failure?)) &&
                codes.cache.entries == old(codes.cache.entries) && users.users == old(users.users)
      ensures params.Some? && params.value.code != "" && err == Some(UserError("reset password", VerificationCodeIsInvalid)) ==>
                CodeKey(settings.resetTypeName, params.value.code, params.value.email) !in old(codes.cache.entries) &&
                codes.cache.entries == old(codes.cache.entries) && users.users == old(users.users)
      ensures err.None? ==>
                params.Some? &&
                Consumed(old(codes.cache.entries), codes.cache.entries,
                         CodeKey(settings.resetTypeName, params.value.code, params.value.email)) &&
                exists k | k in old(users.users) :: old(users.users)[k].email == params.value.email &&
                  users.users == old(users.users)[k := old(users.users)[k].(password := HashPassword(params.value.password))]
      ensures err == Some(UserError("reset password", EmailNotFound)) ==>
                params.Some? &&
                Consumed(old(codes.cache.entries), codes.cache.entries,
                         CodeKey(settings.resetTypeName, params.value.code, params.value.email)) &&
                users.users == old(users.users) &&
                forall k | k in users.users :: users.users[k].email != params.value.email
      ensures users.users != old(users.users) ==> err.None?
    {
      if params.None? {
        return Some(InvalidArgument("UserService", "params", "ResetPassword"));
      }
      var p := params.value;
      if p.password == "" {
        return Some(UserError("reset password", UserFieldIsInvalid));
      }
      if p.code == "" {
        return Some(UserError("reset password", VerificationCodeIsInvalid));
      }
      err := ConsumeCode("reset password", settings.resetTypeName, p.code, p.email);
      if err.Some? {
        return;
      }
      var user, ok := users.GetUserByEmail(p.email);
      if !ok {
        return Some(Failure("user repository: query failed"));
      }
      if user.None? {
        return Some(UserError("reset password", EmailNotFound));
      }
      var u := user.value;
      ok := users.UpdateUser(u.(password := HashPassword(p.password)));
      if !ok {
        return Some(Failure("user repository: update failed"));
      }
      err := None;
    }

    /**
     * The locked part of `RegisterUser`: ask for a conflict on username or
     * email, and insert the new user when there is none.
     */
    method InsertUnique(candidate: User, newId: string) returns (user: Option<User>, err: Option<Error>)
      requires Valid()
      modifies users
      ensures Valid()
      ensures err.None? <==> user.Some?
      ensures err.None? ==> user.value == candidate.(id := newId) && users.users == old(users.users)[newId := user.value]
      ensures err.Some? ==> users.users == old(users.users)
      ensures err.Some? ==> err.value.Failure? || err.value == UserError("register", UsernameAlreadyExists) ||
                            err.value == UserError("register", EmailAlreadyExists)
      ensures err == Some(UserError("register", UsernameAlreadyExists)) ==>
                exists k | k in users.users :: users.users[k].username == candidate.username
      ensures err == Some(UserError("register", EmailAlreadyExists)) ==>
                exists k | k in users.users :: users.users[k].email == candidate.email &&
                                               users.users[k].username != candidate.username
      ensures (exists k | k in old(users.users) :: old(users.users)[k].username == candidate.username ||
                                                    old(users.users)[k].email == candidate.email) ==> err.Some?
    {
      var conflict, ok := users.CheckUserExists(candidate);
      if !ok {
        return None, Some(Failure("user repository: query failed"));
      }
      if conflict == "username" {
        return None, Some(UserError("register", UsernameAlreadyExists));
      } else if conflict == "email" {
        return None, Some(UserError("register", EmailAlreadyExists));
      }
      assert Conflicting(users.users, candidate.username, candidate.email) == {};
      assert forall k | k in users.users :: k !in Conflicting(users.users, candidate.username, candidate.email);
      var created;
      created, ok := users.CreateUser(candidate, newId);
      if !ok {
        return None, Some(Failure("user repository: create failed"));
      }
      user, err := Some(created), None;
    }

    /**
     * `RegisterUser`: the form is checked field by field; the registration
     * code must be in the cache for this address and is consumed; then,
     * under the service's named lock, a username or email conflict is
     * refused and otherwise the user is inserted with the password's hash
     * and the role ("user" by default). A conflict refused after the code
     * was consumed leaves the code consumed.
     */
    method RegisterUser(params: Option<RegisterParams>, newId: string) returns (user: Option<User>, err: Option<Error>)
      requires Valid()
      modifies codes.cache, users, locker, locker.log
      ensures Valid()
      ensures params.None? ==> err == Some(InvalidArgument("UserService", "params", "RegisterUser"))
      ensures err == Some(UserError("register", UserFieldIsInvalid)) <==> params.Some? && !WellFormedRegistration(params.value)
      ensures params.None? || !WellFormedRegistration(params.value) ==>
                codes.cache.entries == old(codes.cache.entries) && users.users == old(users.users) &&
                locker.log.events == old(locker.log.events)
      ensures params.Some? && WellFormedRegistration(params.value) && settings.registerTypeName != "" &&
              CodeKey(settings.registerTypeName, params.value.code, params.value.email) !in old(codes.cache.entries) ==>
                (err == Some(UserError("register", VerificationCodeIsInvalid)) || (err.Some? && err.value.Failure?)) &&
                codes.cache.entries == old(codes.cache.entries) && users.users == old(users.users)
      ensures err == Some(UserError("register", VerificationCodeIsInvalid)) ==>
                params.Some? &&
                CodeKey(settings.registerTypeName, params.value.code, params.value.email) !in old(codes.cache.entries) &&
                codes.cache.entries == old(codes.cache.entries) && users.users == old(users.users)
      ensures err.None? <==> user.Some?
      ensures err.None? ==>
                params.Some? &&
                Consumed(old(codes.cache.entries), codes.cache.entries,
                         CodeKey(settings.registerTypeName, params.value.code, params.value.email)) &&
                user.value == User(newId, params.value.username, HashPassword(params.value.password),
                                   params.value.email, RoleOf(params.value)) &&
                users.users == old(users.users)[newId := user.value]
      ensures err == Some(UserError("register", UsernameAlreadyExists)) ==>
                params.Some? &&
                Consumed(old(codes.cache.entries), codes.cache.entries,
                         CodeKey(settings.registerTypeName, params.value.code, params.value.email)) &&
                users.users == old(users.users) &&
                exists k | k in users.users :: users.users[k].username == params.value.username
      ensures err == Some(UserError("register", EmailAlreadyExists)) ==>
                params.Some? &&
                Consumed(old(codes.cache.entries), codes.cache.entries,
                         CodeKey(settings.registerTypeName, params.value.code, params.value.email)) &&
                users.users == old(users.users) &&
                exists k | k in users.users :: users.users[k].email == params.value.email &&
                                               users.users[k].username != params.value.username
      ensures users.users != old(users.users) ==> err.None?
      ensures locker.lockers == old(locker.lockers)
      ensures locker.log.events == old(locker.log.events) ||
              locker.log.events == old(locker.log.events) + [Journal.Locked(RegisterLock), Journal.Unlocked(RegisterLock)]
      ensures users.users != old(users.users) ==>
                locker.log.events == old(locker.log.events) + [Journal.Locked(RegisterLock), Journal.Unlocked(RegisterLock)]
    {
      if params.None? {
        return None, Some(InvalidArgument("UserService", "params", "RegisterUser"));
      }
      var p := params.value;
      if !Validation.IsUsername(p.username) {
        return None, Some(UserError("register", UserFieldIsInvalid));
      }
      if p.password == "" {
        return None, Some(UserError("register", UserFieldIsInvalid));
      }
      if !Validation.IsEmail(p.email) {
        return None, Some(UserError("register", UserFieldIsInvalid));
      }
      if p.code == "" {
        return None, Some(UserError("register", UserFieldIsInvalid));
      }
      var role := RoleOf(p);
      err := ConsumeCode("register", settings.registerTypeName, p.code, p.email);
      if err.Some? {
        return None, err;
      }
      Locker.ReleaseUndoesAcquire(locker.lockers, RegisterLock);
      locker.Lock(RegisterLock);
      user, err := InsertUnique(User("", p.username, HashPassword(p.password), p.email, role), newId);
      locker.UnLock(RegisterLock);
    }

    /**
     * `LoginUser`: both fields are required; an email-shaped identity is
     * looked up by email, a username-shaped one by username, and anything
     * else, a missing user or a wrong password is refused with the same
     * error. The token is signed for the user that was found.
     */
    method LoginUser(params: Option<LoginParams>, now: int) returns (token: Option<Token>, err: Option<Error>)
      requires Valid()
      ensures params.None? ==> err == Some(InvalidArgument("UserService", "params", "LoginUser"))
      ensures params.Some? && params.value.identity == "" ==>
                err == Some(InvalidArgument("UserService", "params.Username", "LoginUser"))
      ensures params.Some? && params.value.identity != "" && params.value.certificate == "" ==>
                err == Some(InvalidArgument("UserService", "params.Password", "LoginUser"))
      ensures params.Some? && params.value.identity != "" && params.value.certificate != "" &&
              !Validation.IsEmail(params.value.identity) && !Validation.IsUsername(params.value.identity) ==>
                err == Some(UserError("login", IncorrectUnameOrPWD))
      ensures params.Some? && params.value.identity != "" && params.value.certificate != "" &&
              (forall k | k in users.users :: !Authenticates(users.users[k], params.value)) ==>
                err == Some(UserError("login", IncorrectUnameOrPWD)) || (err.Some? && err.value.Failure?)
      ensures err.Some? ==> err.value.InvalidArgument? || err.value == UserError("login", IncorrectUnameOrPWD) || err.value.Failure?
      ensures err == Some(UserError("login", IncorrectUnameOrPWD)) ==>
                params.Some? && forall k | k in users.users :: !Authenticates(users.users[k], params.value)
      ensures err.None? <==> token.Some?
      ensures token.Some? ==>
                params.Some? &&
                exists k | k in users.users :: Authenticates(users.users[k], params.value) &&
                                               token.value == UserToken(users.users[k], now, settings.jwtExpire)
    {
      if params.None? {
        return None, Some(InvalidArgument("UserService", "params", "LoginUser"));
      }
      var p := params.value;
      if p.identity == "" {
        return None, Some(InvalidArgument("UserService", "params.Username", "LoginUser"));
      }
      if p.certificate == "" {
        return None, Some(InvalidArgument("UserService", "params.Password", "LoginUser"));
      }
      var matched: Option<User>, ok: bool;
      if Validation.IsEmail(p.identity) {
        matched, ok := users.GetUserByEmail(p.identity);
      } else if Validation.IsUsername(p.identity) {
        matched, ok := users.GetUserByUsername(p.identity);
      } else {
        return None, Some(UserError("login", IncorrectUnameOrPWD));
      }
      if !ok {
        return None, Some(Failure("user repository: query failed"));
      }
      if matched.None? {
        return None, Some(UserError("login", IncorrectUnameOrPWD));
      }
      var u := matched.value;
      if !PasswordMatches(p.certificate, u.password) {
        return None, Some(UserError("login", IncorrectUnameOrPWD));
      }
      var signed: bool := *;
      if !signed {
        return None, Some(Failure("jwt: signing failed"));
      }
      assert Authenticates(users.users[u.id], p);
      token, err := Some(UserToken(u, now, settings.jwtExpire)), None;
    }

    /** `GetUserByID`: the id is required, and an id no row has is "user not found". */
    method GetUserByID(id: string) returns (user: Option<User>, err: Option<Error>)
      requires Valid()
      ensures id == "" ==> err == Some(InvalidArgument("UserService", "id", "GetUserByID"))
      ensures err.None? <==> user.Some?
      ensures user.Some? ==> id in users.users && user.value == users.users[id]
      ensures err == Some(UserError("get", UserNotFound)) ==> id != "" && id !in users.users
      ensures id != "" && id !in users.users ==>
                err == Some(UserError("get", UserNotFound)) || (err.Some? && err.value.Failure?)
      ensures err.Some? ==> err == Some(InvalidArgument("UserService", "id", "GetUserByID")) ||
                            err == Some(UserError("get", UserNotFound)) || err.value.Failure?
    {
      if id == "" {
        return None, Some(InvalidArgument("UserService", "id", "GetUserByID"));
      }
      var found, ok := users.GetUser(id);
      if !ok {
        return None, Some(Failure("user repository: query failed"));
      }
      if found.None? {
        return None, Some(UserError("get", UserNotFound));
      }
      user, err := found, None;
    }
  }
}
