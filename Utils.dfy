/** The API response envelope and its helpers (internal/common/utils/utils.go): the error-code to
    HTTP status mapping, the success and error envelopes, writing a response, and reading the
    user name back out of a request context. */
module Utils {
  import opened Base

  /** The HTTP status codes the helpers write (RFC 9110, sections 15.3.1 and 15.5.1 to 15.6.1). */
  const StatusOK: int := 200
  const StatusBadRequest: int := 400
  const StatusUnauthorized: int := 401
  const StatusForbidden: int := 403
  const StatusNotFound: int := 404
  const StatusInternalServerError: int := 500

  /** The context keys the authentication middleware sets. */
  const RoleKey: string := "role"
  const UsernameKey: string := "username"
  const UserIdKey: string := "user_id"

  /** What `GetUsernameFromContext` falls back to. */
  const UnknownUsername: string := "unknown"

  /** A request context: the values stored under the middleware's keys. */
  type Context = map<string, Value>

  /** `stype.ErrorDetail`. */
  datatype ErrorDetail = ErrorDetail(code: string, details: string)

  /** `stype.APIResponse`; a nil `Data` is `Null`, a nil `Error` is `None`. */
  datatype ApiResponse = ApiResponse(success: bool, message: string, data: Value,
                                     error: Option<ErrorDetail>, timestamp: string)

  /** `ReturnError`'s switch: the status a response with error code `code` is sent with. */
  function StatusFor(code: string): (status: int)
    ensures status == StatusBadRequest <==> code == "VALIDATION_ERROR" || code == "BAD_REQUEST"
    ensures status == StatusUnauthorized <==> code == "UNAUTHORIZED"
    ensures status == StatusForbidden <==> code == "FORBIDDEN"
    ensures status == StatusNotFound <==> code == "NOT_FOUND"
    ensures status == StatusInternalServerError <==>
              code !in {"VALIDATION_ERROR", "BAD_REQUEST", "UNAUTHORIZED", "FORBIDDEN", "NOT_FOUND"}
  {
    match code
    case "VALIDATION_ERROR" => StatusBadRequest
    case "BAD_REQUEST" => StatusBadRequest
    case "UNAUTHORIZED" => StatusUnauthorized
    case "FORBIDDEN" => StatusForbidden
    case "NOT_FOUND" => StatusNotFound
    case _ => StatusInternalServerError
  }

  /** Every status `ReturnError` sends is a client error (4xx) or a server error (5xx), and it is
      a server error exactly for the codes the switch does not name. */
  lemma StatusIsError(code: string)
    ensures 400 <= StatusFor(code) < 600
    ensures StatusFor(code) >= 500 <==>
              code !in {"VALIDATION_ERROR", "BAD_REQUEST", "UNAUTHORIZED", "FORBIDDEN", "NOT_FOUND"}
  {
  }

  /** `SuccessResponse`; `now` is the formatted current time. */
  function SuccessResponse(data: Value, message: string, now: string): (r: ApiResponse)
    ensures r.success && r.error.None? && r.data == data && r.message == message && r.timestamp == now
  {
    ApiResponse(true, message, data, None, now)
  }

  /** `ErrorResponse`; `now` is the formatted current time. */
  function ErrorResponse(code: string, message: string, details: string, now: string): (r: ApiResponse)
    ensures !r.success && r.data == Null && r.message == message && r.timestamp == now
    ensures r.error == Some(ErrorDetail(code, details))
  {
    ApiResponse(false, message, Null, Some(ErrorDetail(code, details)), now)
  }

  /** `GetUsernameFromContext`: the string stored under the user name key, or "unknown" when
      `ctx` is not a context (`None`), has no such value, or holds a non-string there. */
  function UsernameFromContext(ctx: Option<Context>): (name: string)
    ensures ctx.Some? && UsernameKey in ctx.value && ctx.value[UsernameKey].Str? ==> name == ctx.value[UsernameKey].s
    ensures !(ctx.Some? && UsernameKey in ctx.value && ctx.value[UsernameKey].Str?) ==> name == UnknownUsername
  {
    if ctx.Some? && UsernameKey in ctx.value && ctx.value[UsernameKey].Str? then ctx.value[UsernameKey].s
    else UnknownUsername
  }

  /** A response writer: the headers set, every `WriteHeader` call in order, and every encoded
      body. */
  class ResponseWriter {
    var header: map<string, string>
    var statuses: seq<int>
    var body: seq<ApiResponse>

    constructor ()
      ensures header == map[] && statuses == [] && body == []
    {
      header := map[];
      statuses := [];
      body := [];
    }

    /** `WriteHeader`: records the call. */
    method WriteHeader(code: int)
      modifies this
      ensures statuses == old(statuses) + [code]
      ensures header == old(header) && body == old(body)
    {
      statuses := statuses + [code];
    }

    /** `Return`: a JSON content type, then the status, then the encoded envelope. */
    method Return(status: int, resp: ApiResponse)
      modifies this
      ensures header == old(header)["Content-Type" := "application/json"]
      ensures statuses == old(statuses) + [status] && body == old(body) + [resp]
    {
      header := header["Content-Type" := "application/json"];
      WriteHeader(status);
      body := body + [resp];
    }

    /** `WriteJson`: a success envelope with the given status. */
    method WriteJson(data: Value, status: int, message: string, now: string)
      modifies this
      ensures header == old(header)["Content-Type" := "application/json"]
      ensures statuses == old(statuses) + [status] && body == old(body) + [SuccessResponse(data, message, now)]
    {
      Return(status, SuccessResponse(data, message, now));
    }

    /** `ReturnError`: an error envelope with the code's status. */
    method ReturnError(code: string, message: string, details: string, now: string)
      modifies this
      ensures header == old(header)["Content-Type" := "application/json"]
      ensures statuses == old(statuses) + [StatusFor(code)]
      ensures body == old(body) + [ErrorResponse(code, message, details, now)]
    {
      Return(StatusFor(code), ErrorResponse(code, message, details, now));
    }
  }
}
