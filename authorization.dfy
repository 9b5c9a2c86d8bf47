/**
 * The authentication middleware of middleware/authorization.go: the token
 * is taken from an `Authorization: Bearer` header, else from the
 * X-REQUEST-TOKEN header, else from the "token" query parameter (loosely
 * section 2.1 of RFC 6750, with a case-insensitive scheme); the token's
 * claims name the user, who must hold the route's role.
 *
 * Parsing and verifying the JWT itself is outside the model: its outcome
 * for the chosen token is a parameter.
 */
module Authorization {
  import opened Wrappers
  import Errors
  import Validation
  import Api
  import opened UserStore
  import UserService

  /** The position of the first `c` in `s`. */
  function FirstIndex(s: string, c: char): (i: nat)
    requires c in s
    ensures i < |s| && s[i] == c && c !in s[..i]
  {
    if s[0] == c then 0 else
      assert c in s[1..] by {
        var k :| 0 <= k < |s| && s[k] == c;
        assert s[1..][k - 1] == c;
      }
      var j := FirstIndex(s[1..], c);
      assert s[..j + 1] == [s[0]] + s[1..][..j];
      j + 1
  }

  /** `strings.Split(s, sep)` for a one-character separator: the pieces between separators. */
  function Split(s: string, sep: char): (parts: seq<string>)
    ensures |parts| >= 1
    ensures forall i | 0 <= i < |parts| :: sep !in parts[i]
    decreases |s|
  {
    if sep !in s then [s]
    else
      var i := FirstIndex(s, sep);
      [s[..i]] + Split(s[i + 1..], sep)
  }

  /** `strings.Join(parts, sep)`. */
  function Join(parts: seq<string>, sep: char): string
    requires |parts| >= 1
  {
    if |parts| == 1 then parts[0] else parts[0] + [sep] + Join(parts[1..], sep)
  }

  /** Joining the pieces of a split gives the text back. */
  lemma {:induction false} JoinSplit(s: string, sep: char)
    ensures Join(Split(s, sep), sep) == s
    decreases |s|
  {
    if sep in s {
      var i := FirstIndex(s, sep);
      var rest := s[i + 1..];
      JoinSplit(rest, sep);
      assert Split(s, sep)[1..] == Split(rest, sep);
      assert s == s[..i] + [sep] + rest;
    }
  }

  /** Splitting joined pieces that hold no separator gives the pieces back. */
  lemma {:induction false} SplitJoin(parts: seq<string>, sep: char)
    requires |parts| >= 1 && forall i | 0 <= i < |parts| :: sep !in parts[i]
    ensures Split(Join(parts, sep), sep) == parts
    decreases |parts|
  {
    if |parts| > 1 {
      var head, tail := parts[0], parts[1..];
      var s := Join(parts, sep);
      assert s == head + [sep] + Join(tail, sep);
      assert s[|head|] == sep;
      assert s[..|head|] == head;
      assert sep in s;
      var i := FirstIndex(s, sep);
      assert i == |head|;
      assert s[i + 1..] == Join(tail, sep);
      SplitJoin(tail, sep);
      assert parts == [head] + tail;
    }
  }

  /** `strings.ToLower` on one character, for the ASCII letters. */
  function Lower(c: char): char {
    if 'A' <= c <= 'Z' then (c as int + 32) as char else c
  }

  /** `strings.ToLower`, character by character. */
  function ToLower(s: string): (r: string)
    ensures |r| == |s|
    ensures forall i | 0 <= i < |s| :: r[i] == Lower(s[i])
  {
    if s == [] then [] else [Lower(s[0])] + ToLower(s[1..])
  }

  /** The scheme "bearer" in any mix of cases. */
  predicate BearerSpelling(s: string) {
    |s| == 6 && forall i | 0 <= i < 6 :: s[i] == "bearer"[i] || s[i] == "BEARER"[i]
  }

  /** Lower-casing recognises exactly the spellings of "bearer". */
  lemma LowerIsBearer(s: string)
    ensures ToLower(s) == "bearer" <==> BearerSpelling(s)
  {
    if BearerSpelling(s) {
      assert forall i | 0 <= i < 6 :: ToLower(s)[i] == "bearer"[i];
    }
    if ToLower(s) == "bearer" {
      forall i | 0 <= i < 6 ensures s[i] == "bearer"[i] || s[i] == "BEARER"[i] {
        assert Lower(s[i]) == "bearer"[i];
      }
    }
  }

  /** The request parts a token can come from; an absent header or parameter is "". */
  datatype Request = Request(authorization: string, requestToken: string, queryToken: string)

  /** `tokenFromBearer`: the second space-separated piece, when the first is the scheme "bearer". */
  function TokenFromBearer(header: string): string {
    var parts := Split(header, ' ');
    if |parts| < 2 then ""
    else if ToLower(parts[0]) == "bearer" then parts[1]
    else ""
  }

  /**
   * A bearer header yields its token, whatever follows the next space; a
   * header with another scheme yields nothing.
   */
  lemma BearerHeader(scheme: string, token: string, rest: seq<string>)
    requires ' ' !in scheme && ' ' !in token && forall w | w in rest :: ' ' !in w
    ensures TokenFromBearer(Join([scheme, token] + rest, ' ')) == (if BearerSpelling(scheme) then token else "")
  {
    var parts := [scheme, token] + rest;
    assert forall w | w in parts :: ' ' !in w;
    BearerParts(parts);
  }

  /** A header of space-free pieces yields its second piece when the first is the scheme. */
  lemma BearerParts(parts: seq<string>)
    requires |parts| >= 2 && forall i | 0 <= i < |parts| :: ' ' !in parts[i]
    ensures TokenFromBearer(Join(parts, ' ')) == (if BearerSpelling(parts[0]) then parts[1] else "")
  {
    SplitJoin(parts, ' ');
    LowerIsBearer(parts[0]);
  }

  /** A header without a space carries no bearer token. */
  lemma NoSpaceNoToken(header: string)
    requires ' ' !in header
    ensures TokenFromBearer(header) == ""
  {
  }

  /** `tokenFromAny`: the bearer token, else the X-REQUEST-TOKEN header, else the "token" query parameter. */
  function TokenFromAny(req: Request): string {
    var bearer := TokenFromBearer(req.authorization);
    if bearer != "" then bearer
    else if req.requestToken != "" then req.requestToken
    else req.queryToken
  }

  /**
   * The first non-empty source wins, and there is no token only when every
   * source is empty.
   */
  lemma TokenPrecedence(req: Request)
    ensures TokenFromBearer(req.authorization) != "" ==> TokenFromAny(req) == TokenFromBearer(req.authorization)
    ensures TokenFromBearer(req.authorization) == "" && req.requestToken != "" ==> TokenFromAny(req) == req.requestToken
    ensures TokenFromAny(req) == "" <==>
              TokenFromBearer(req.authorization) == "" && req.requestToken == "" && req.queryToken == ""
  {
  }

  /**
   * The outcome of parsing and verifying a JWT: a valid token with its
   * claims, a token the parser rejects (a `*jwt.ValidationError`: bad
   * signature, expired, malformed), or any other error.
   */
  datatype Decoded = Verified(claims: Claims) | Rejected | Broken(text: string)

  /** `decodeUserToken`: a valid token for the subject "user_auth" names a user by id and role. */
  function DecodeUserToken(d: Decoded): (r: Result<Option<User>, Errors.Error>)
    ensures r.Err? <==> d.Broken?
    ensures r.Ok? && r.value.Some? <==> d.Verified? && d.claims.subject == "user_auth"
    ensures r.Ok? && r.value.Some? ==> r.value.value.id == d.claims.id && r.value.value.role == d.claims.role
  {
    match d
    case Verified(c) => if c.subject != "user_auth" then Ok(None) else Ok(Some(User(c.id, "", NoPassword, "", c.role)))
    case Rejected => Ok(None)
    case Broken(text) => Err(Errors.Failure(text))
  }

  /** The claims of a token the user service issued decode to that user's id and role. */
  lemma IssuedTokenDecodes(u: User, now: int, expire: int)
    ensures var r := DecodeUserToken(Verified(UserService.UserToken(u, now, expire).claims));
            r.Ok? && r.value.Some? && r.value.value.id == u.id && r.value.value.role == u.role
  {
  }

  /** Why `verifyAndTest` refuses: `errUserNotAuthenticated`, `errPermissionDenied`, or another error. */
  datatype Refusal = UserNotAuthenticated | PermissionDenied | Other(err: Errors.Error)

  /**
   * `verifyAndTest`: no token, or a token that names no user, is not
   * authenticated; a decoding error is passed on; a user of another role is
   * denied. On success the user and the token are returned.
   */
  function VerifyAndTest(req: Request, role: string, decoded: Decoded): (r: Result<(User, string), Refusal>)
    ensures TokenFromAny(req) == "" ==> r == Err(UserNotAuthenticated)
    ensures r.Ok? <==> TokenFromAny(req) != "" && decoded.Verified? && decoded.claims.subject == "user_auth" &&
                       decoded.claims.role == role
    ensures r.Ok? ==> r.value.1 == TokenFromAny(req) && r.value.0.id == decoded.claims.id && r.value.0.role == role
    ensures r == Err(PermissionDenied) <==>
              TokenFromAny(req) != "" && decoded.Verified? && decoded.claims.subject == "user_auth" &&
              decoded.claims.role != role
  {
    var token := TokenFromAny(req);
    if token == "" then Err(UserNotAuthenticated)
    else
      match DecodeUserToken(decoded)
      case Err(e) => Err(Other(e))
      case Ok(user) =>
        if user.None? then Err(UserNotAuthenticated)
        else if role != user.value.role then Err(PermissionDenied)
        else Ok((user.value, token))
  }

  /**
   * `HandlerFunc(role)`: an authenticated user of the role passes on to the
   * next handler (a nil result); otherwise the refusal becomes an
   * unauthenticated, permission-denied or internal error result.
   */
  function HandlerFunc<D>(req: Request, role: string, decoded: Decoded): (r: Option<Api.APIResult<D>>)
    ensures r.None? <==> VerifyAndTest(req, role, decoded).Ok?
    ensures r.Some? ==> r.value.data.None? && r.value.responder.None? && r.value.error.Some?
    ensures r.Some? ==> match VerifyAndTest(req, role, decoded).error
                        case UserNotAuthenticated => r.value.error.value.code == Api.ErrUnauthuenticated
                        case PermissionDenied => r.value.error.value.code == Api.ErrPermissionDenied
                        case Other(e) => r.value.error.value == Api.APIError(Api.ErrInternal, e)
  {
    match VerifyAndTest(req, role, decoded)
    case Ok(_) => None
    case Err(UserNotAuthenticated) => Some(Api.Unauthuenticated(Errors.Failure("user not authenticated"), None))
    case Err(PermissionDenied) => Some(Api.PermissionDenied(Errors.Failure("permission denied"), None))
    case Err(Other(e)) => Some(Api.Internal(e, None))
  }

  /**
   * The replies of the middleware: a refusal for want of a token is a 401,
   * a user of another role gets a 403, and a decoding error a 500.
   */
  lemma HandlerStatuses<D>(req: Request, role: string, decoded: Decoded, release: bool)
    ensures var r := HandlerFunc<D>(req, role, decoded);
            Api.Nameable(r) &&
            (TokenFromAny(req) == "" ==> Api.Gin(r, release).Json? && Api.Gin(r, release).status == Api.StatusUnauthorized) &&
            (VerifyAndTest(req, role, decoded) == Err(PermissionDenied) ==>
               Api.Gin(r, release).Json? && Api.Gin(r, release).status == Api.StatusForbidden) &&
            (decoded.Broken? && TokenFromAny(req) != "" ==>
               Api.Gin(r, release).Json? && Api.Gin(r, release).status == Api.StatusInternalServerError)
  {
  }

  /**
   * A token issued at login, sent as a bearer header, lets its user through
   * a route of the user's role and is refused with a 403 on a route of any
   * other role.
   */
  lemma LoginTokenAdmits<D>(u: User, now: int, expire: int, token: string, role: string, release: bool)
    requires token != "" && ' ' !in token
    ensures var req := Request(Join(["Bearer", token], ' '), "", "");
            var decoded := Verified(UserService.UserToken(u, now, expire).claims);
            (role == u.role ==> HandlerFunc<D>(req, role, decoded).None?) &&
            (role != u.role ==> Api.Gin(HandlerFunc<D>(req, role, decoded), release) ==
                                  Api.Json(Api.StatusForbidden, Api.ErrorBody(None, Api.ErrPermissionDenied, "permisttion_denied",
                                                                              "permission denied")))
  {
    var header := Join(["Bearer", token], ' ');
    assert BearerSpelling("Bearer");
    BearerParts(["Bearer", token]);
    assert TokenFromAny(Request(header, "", "")) == token;
    Api.ConstructorReplies<D>(Errors.Failure("permission denied"), None, release);
  }
}
