/**
 * The user handlers of web/api/v1/userapi.go: the mapping of the user
 * service's errors to API results, and the registration and login handlers
 * built on it.
 */
module UserApi {
  import opened Wrappers
  import opened Errors
  import Api
  import opened UserStore
  import UserService

  /** The sentinels that mean the request itself is wrong. */
  predicate ArgumentCause(s: UserSentinel) {
    s == UserFieldIsInvalid || s == VerificationCodeIsInvalid || s == IncorrectUnameOrPWD
  }

  /** The sentinels that mean the name or address is taken. */
  predicate ClashCause(s: UserSentinel) {
    s == EmailAlreadyExists || s == UsernameAlreadyExists
  }

  /**
   * `userErrorToAPIResult`: a user error is answered by the kind of its
   * sentinel; anything else, and a sentinel outside the table (such as
   * `EmailNotFound`), is internal.
   */
  function UserErrorToAPIResult<D>(err: Error): (r: Api.APIResult<D>)
    ensures r.data.None? && r.responder.None? && r.error.Some? && r.error.value.err == err
    ensures r.error.value.code == Api.ErrNotFound <==> err.UserError? && err.reason == UserNotFound
    ensures r.error.value.code == Api.ErrAlreadyExists <==> err.UserError? && ClashCause(err.reason)
    ensures r.error.value.code == Api.ErrInvalidArgument <==> err.UserError? && ArgumentCause(err.reason)
    ensures r.error.value.code == Api.ErrInternal <==> !err.UserError? || err.reason == EmailNotFound
  {
    if !err.UserError? then Api.Internal(err, None)
    else if err.reason == UserNotFound then Api.NotFound(err, None)
    else if ClashCause(err.reason) then Api.AlreadyExists(err, None)
    else if ArgumentCause(err.reason) then Api.InvalidArgument(err, None)
    else Api.Internal(err, None)
  }

  /**
   * The HTTP answer to a user error: a 404 for a missing user, a 400 for a
   * clash or a wrong argument, a 500 for the rest (an argument-check error
   * of the service included, since it is no user error), never a success;
   * in release mode a 500 hides the error's text.
   */
  lemma UserErrorStatus<D>(err: Error, release: bool)
    ensures var reply := Api.Gin(Some(UserErrorToAPIResult<D>(err)), release);
            reply.Json? && reply.body.ErrorBody? && reply.body.data.None? &&
            (reply.status == Api.StatusNotFound <==> err.UserError? && err.reason == UserNotFound) &&
            (reply.status == Api.StatusBadRequest <==> err.UserError? && (ClashCause(err.reason) || ArgumentCause(err.reason))) &&
            (reply.status == Api.StatusInternalServerError <==> !err.UserError? || err.reason == EmailNotFound) &&
            (err.InvalidArgument? ==> reply.status == Api.StatusInternalServerError) &&
            (reply.body.message != Message(err) ==> release && reply.status == Api.StatusInternalServerError)
  {
    var r := UserErrorToAPIResult<D>(err);
    assert Api.Gin(Some(r), release) == Api.RespondError(r.error.value, None, release);
  }

  /** The role every registration through the API asks for. */
  const UserRole := "user"

  /**
   * `UserRegister`: registers the form's user with the role "user", so no
   * registration through the API creates a user of any other role.
   */
  method UserRegister(service: UserService.UserService, username: string, password: string, email: string, code: string,
                      newId: string)
    returns (r: Api.APIResult<User>)
    requires service.Valid()
    modifies service.codes.cache, service.users, service.locker, service.locker.log
    ensures service.Valid()
    ensures r.responder.None? && (r.error.None? <==> r.data.Some?)
    ensures r.error.Some? ==> r == UserErrorToAPIResult(r.error.value.err)
    ensures r.error.None? ==>
              r.data.value == User(newId, username, HashPassword(password), email, UserRole) &&
              service.users.users == old(service.users.users)[newId := r.data.value]
    ensures service.users.users != old(service.users.users) ==> r.error.None?
    ensures !UserService.WellFormedRegistration(UserService.RegisterParams(username, password, email, UserRole, code)) ==>
              r.error == Some(Api.APIError(Api.ErrInvalidArgument, UserError("register", UserFieldIsInvalid))) &&
              service.users.users == old(service.users.users)
  {
    var params := UserService.RegisterParams(username, password, email, UserRole, code);
    var user, err := service.RegisterUser(Some(params), newId);
    if err.Some? {
      return UserErrorToAPIResult(err.value);
    }
    return Api.OK(user, None);
  }

  /**
   * `UserLogin`: logs in with the form's name (a username or an email
   * address) and password, and answers with the token.
   */
  method UserLogin(service: UserService.UserService, username: string, password: string, now: int)
    returns (r: Api.APIResult<Token>)
    requires service.Valid()
    ensures r.responder.None? && (r.error.None? <==> r.data.Some?)
    ensures r.error.Some? ==> r == UserErrorToAPIResult(r.error.value.err)
    ensures r.data.Some? ==>
              exists k | k in service.users.users ::
                UserService.Authenticates(service.users.users[k], UserService.LoginParams(username, password)) &&
                r.data.value == UserService.UserToken(service.users.users[k], now, service.settings.jwtExpire)
    ensures username == "" || password == "" ==> r.error.Some? && r.error.value.code == Api.ErrInternal
    ensures username != "" && password != "" &&
            (forall k | k in service.users.users ::
               !UserService.Authenticates(service.users.users[k], UserService.LoginParams(username, password))) ==>
              r.error.Some? &&
              (r.error.value == Api.APIError(Api.ErrInvalidArgument, UserError("login", IncorrectUnameOrPWD)) ||
               (r.error.value.code == Api.ErrInternal && r.error.value.err.Failure?))
    ensures r.error.Some? && r.error.value.code == Api.ErrInvalidArgument ==>
              forall k | k in service.users.users ::
                !UserService.Authenticates(service.users.users[k], UserService.LoginParams(username, password))
  {
    var token, err := service.LoginUser(Some(UserService.LoginParams(username, password)), now);
    if err.Some? {
      return UserErrorToAPIResult(err.value);
    }
    return Api.OK(token, None);
  }
}
