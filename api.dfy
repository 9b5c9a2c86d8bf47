/**
 * The response layer of web/api/v1/api.go: the API error types and their
 * names, the mapping from error type to HTTP status, the error response and
 * its release-mode masking, and the dispatch of a handler's result to a
 * response. The statuses are those of section 15 of RFC 9110.
 *
 * A handler's data is a value of any type `D`; the JSON encoding is left
 * out, so a response carries the data itself.
 */
module Api {
  import opened Wrappers
  import Errors

  /** `ErrorType`. */
  const ErrNone: int := 0
  const ErrFailedPrecondition: int := 1
  const ErrUnauthuenticated: int := 2
  const ErrInternal: int := 3
  const ErrAlreadyExists: int := 4
  const ErrInvalidArgument: int := 5
  const ErrPermissionDenied: int := 6
  const ErrNotFound: int := 7

  /** `errorName`, indexed by error type. */
  const ErrorNames: seq<string> := ["", "failed_precondition", "unauthuenticated", "internal",
                                    "already_exists", "invalid_argument", "permisttion_denied", "not_found"]

  /** Section 15.3.1 of RFC 9110. */
  const StatusOK: int := 200
  /** Section 15.5.1 of RFC 9110. */
  const StatusBadRequest: int := 400
  /** Section 15.5.2 of RFC 9110. */
  const StatusUnauthorized: int := 401
  /** Section 15.5.4 of RFC 9110. */
  const StatusForbidden: int := 403
  /** Section 15.5.5 of RFC 9110. */
  const StatusNotFound: int := 404
  /** Section 15.6.1 of RFC 9110. */
  const StatusInternalServerError: int := 500

  /**
   * `ErrorTypeToName`: a type past `ErrNotFound` is "unknow"; a negative
   * type indexes outside the table, which panics, so it is excluded.
   */
  function ErrorTypeToName(e: int): (name: string)
    requires e >= 0
    ensures e <= ErrNotFound ==> name == ErrorNames[e]
    ensures e > ErrNotFound ==> name == "unknow"
  {
    if e > ErrNotFound then "unknow" else ErrorNames[e]
  }

  /** The name of a type tells the known types apart, and no known type is named "unknow". */
  lemma NamesIdentifyTypes(a: int, b: int)
    requires 0 <= a <= ErrNotFound && b >= 0
    ensures ErrorTypeToName(a) == ErrorTypeToName(b) <==> a == b
    ensures ErrorTypeToName(a) != "unknow"
  {
    if ErrorTypeToName(a) == ErrorTypeToName(b) && b <= ErrNotFound {
      assert ErrorNames[a] == ErrorNames[b];
      assert |ErrorNames[a]| == |ErrorNames[b]|;
    }
  }

  /** `errorTypeToHTTPStatusCode`. */
  function HttpStatus(e: int): (status: int)
    ensures status == StatusOK <==> e == ErrNone
    ensures status == StatusBadRequest <==> e == ErrFailedPrecondition || e == ErrAlreadyExists || e == ErrInvalidArgument
    ensures status == StatusUnauthorized <==> e == ErrUnauthuenticated
    ensures status == StatusForbidden <==> e == ErrPermissionDenied
    ensures status == StatusNotFound <==> e == ErrNotFound
    ensures status == StatusInternalServerError <==> !(ErrNone <= e <= ErrNotFound) || e == ErrInternal
  {
    if e == ErrNone then StatusOK
    else if e == ErrFailedPrecondition || e == ErrAlreadyExists || e == ErrInvalidArgument then StatusBadRequest
    else if e == ErrUnauthuenticated then StatusUnauthorized
    else if e == ErrNotFound then StatusNotFound
    else if e == ErrPermissionDenied then StatusForbidden
    else StatusInternalServerError
  }

  /** `APIError`: an error type and the error itself. */
  datatype APIError = APIError(code: int, err: Errors.Error)

  /** A responder writes the response itself; `failure` is the error it returns. */
  datatype Responder = Responder(failure: Option<Errors.Error>)

  /** `APIResult`: what a handler returns (a nil result is `None`). */
  datatype APIResult<D> = APIResult(data: Option<D>, responder: Option<Responder>, error: Option<APIError>)

  /** `response` with its `responseError`, as JSON would carry it. */
  datatype Body<D> =
    | Success(data: Option<D>)
    | ErrorBody(data: Option<D>, code: int, typ: string, message: string)

  /**
   * What `Gin` makes of a result: `Passed` writes nothing and does not
   * abort (the chain goes on); `ByResponder` is a response the responder
   * wrote; `Json` is a JSON response with its HTTP status.
   */
  datatype Reply<D> = Passed | ByResponder | Json(status: int, body: Body<D>)

  /** Every reply but `Passed` aborts the handler chain. */
  predicate Aborts<D>(r: Reply<D>) {
    !r.Passed?
  }

  /**
   * `respondError`: an error response with the error's type, its name and
   * its message, at the type's status; in release mode a 500 response
   * carries the type's name instead of the message.
   */
  function RespondError<D>(e: APIError, data: Option<D>, release: bool): (r: Reply<D>)
    requires e.code >= 0
    ensures r.Json? && r.status == HttpStatus(e.code) && r.body.ErrorBody?
    ensures r.body.data == data && r.body.code == e.code && r.body.typ == ErrorTypeToName(e.code)
    ensures r.body.message != Errors.Message(e.err) ==> release && r.status == StatusInternalServerError
  {
    var status := HttpStatus(e.code);
    var typ := ErrorTypeToName(e.code);
    Json(status, ErrorBody(data, e.code, typ, if status == StatusInternalServerError && release then typ else Errors.Message(e.err)))
  }

  /**
   * In release mode no 500 response shows its error's text: the message is
   * the name of an error type.
   */
  lemma ReleaseMasksInternal<D>(e: APIError, data: Option<D>)
    requires e.code >= 0 && HttpStatus(e.code) == StatusInternalServerError
    ensures var r := RespondError(e, data, true);
            r.body.message == r.body.typ && (r.body.message in ErrorNames || r.body.message == "unknow")
  {
  }

  /** Whether every error a result carries has a type the name table can look up. */
  predicate Nameable<D>(result: Option<APIResult<D>>) {
    result.Some? && result.value.error.Some? ==> result.value.error.value.code >= 0
  }

  /**
   * `Gin`: a nil result passes; otherwise a responder answers (and its
   * error becomes an internal error), else an error is answered as an
   * error, else data is answered as success, else a bare success; then
   * the chain is aborted.
   */
  function Gin<D>(result: Option<APIResult<D>>, release: bool): (r: Reply<D>)
    requires Nameable(result)
    ensures r.Passed? <==> result.None?
  {
    if result.None? then Passed
    else
      var res := result.value;
      if res.responder.Some? then
        (if res.responder.value.failure.Some? then RespondError(APIError(ErrInternal, res.responder.value.failure.value), None, release)
         else ByResponder)
      else if res.error.Some? then RespondError(res.error.value, res.data, release)
      else Json(StatusOK, Success(res.data))
  }

  /**
   * The precedence of `Gin`: a responder wins over an error, which wins over
   * the data; an answer is a plain success only for a result with neither a
   * responder nor an error, and a success is always a 200.
   */
  lemma GinPrecedence<D>(result: Option<APIResult<D>>, release: bool)
    requires Nameable(result)
    ensures var r := Gin(result, release);
            (r.ByResponder? ==> result.Some? && result.value.responder.Some?) &&
            (r.Json? && r.body.Success? <==> result.Some? && result.value.responder.None? && result.value.error.None?) &&
            (r.Json? && r.body.Success? ==> r.status == StatusOK && r.body.data == result.value.data) &&
            (result.Some? && result.value.responder.Some? ==>
               r.ByResponder? || (r.Json? && r.status == StatusInternalServerError && r.body.data.None?)) &&
            (result.Some? && result.value.responder.None? && result.value.error.Some? ==>
               r.Json? && r.status == HttpStatus(result.value.error.value.code) &&
               r.body.ErrorBody? && r.body.code == result.value.error.value.code)
  {
  }

  /** A 200 answer is a success, or an error result whose type is `ErrNone`. */
  lemma OkMeansNoError<D>(result: Option<APIResult<D>>, release: bool)
    requires Nameable(result)
    ensures var r := Gin(result, release);
            r.Json? && r.status == StatusOK ==> r.body.Success? || r.body.code == ErrNone
  {
  }

  /** `OK`: data, or a responder. */
  function OK<D>(data: Option<D>, responder: Option<Responder>): APIResult<D> {
    APIResult(data, responder, None)
  }

  /** The error result of one type. */
  function Failed<D>(code: int, err: Errors.Error, data: Option<D>): APIResult<D> {
    APIResult(data, None, Some(APIError(code, err)))
  }

  function FailedPrecondition<D>(err: Errors.Error, data: Option<D>): APIResult<D> {
    Failed(ErrFailedPrecondition, err, data)
  }

  function Unauthuenticated<D>(err: Errors.Error, data: Option<D>): APIResult<D> {
    Failed(ErrUnauthuenticated, err, data)
  }

  function Internal<D>(err: Errors.Error, data: Option<D>): APIResult<D> {
    Failed(ErrInternal, err, data)
  }

  function AlreadyExists<D>(err: Errors.Error, data: Option<D>): APIResult<D> {
    Failed(ErrAlreadyExists, err, data)
  }

  function InvalidArgument<D>(err: Errors.Error, data: Option<D>): APIResult<D> {
    Failed(ErrInvalidArgument, err, data)
  }

  function PermissionDenied<D>(err: Errors.Error, data: Option<D>): APIResult<D> {
    Failed(ErrPermissionDenied, err, data)
  }

  function NotFound<D>(err: Errors.Error, data: Option<D>): APIResult<D> {
    Failed(ErrNotFound, err, data)
  }

  /** The reply to each constructor's result: its status, type and name. */
  lemma ConstructorReplies<D>(err: Errors.Error, data: Option<D>, release: bool)
    ensures Gin(Some(OK(data, None)), release) == Json(StatusOK, Success(data))
    ensures Gin(Some(FailedPrecondition(err, data)), release) ==
            Json(StatusBadRequest, ErrorBody(data, 1, "failed_precondition", Errors.Message(err)))
    ensures Gin(Some(Unauthuenticated(err, data)), release) ==
            Json(StatusUnauthorized, ErrorBody(data, 2, "unauthuenticated", Errors.Message(err)))
    ensures Gin(Some(Internal(err, data)), release) ==
            Json(StatusInternalServerError, ErrorBody(data, 3, "internal", if release then "internal" else Errors.Message(err)))
    ensures Gin(Some(AlreadyExists(err, data)), release) ==
            Json(StatusBadRequest, ErrorBody(data, 4, "already_exists", Errors.Message(err)))
    ensures Gin(Some(InvalidArgument(err, data)), release) ==
            Json(StatusBadRequest, ErrorBody(data, 5, "invalid_argument", Errors.Message(err)))
    ensures Gin(Some(PermissionDenied(err, data)), release) ==
            Json(StatusForbidden, ErrorBody(data, 6, "permisttion_denied", Errors.Message(err)))
    ensures Gin(Some(NotFound(err, data)), release) ==
            Json(StatusNotFound, ErrorBody(data, 7, "not_found", Errors.Message(err)))
  {
  }
}
