/** The failure kinds of `POST /load`, the single table that maps them to HTTP statuses,
    and the payloads sent for them. The source raises exceptions; here every stage returns
    a `Result` instead. */
module Errors {
  import opened Json

  /** One entry of a request-validation error list: the error type and the field path. */
  datatype Issue = Issue(kind: string, loc: seq<string>)

  datatype Failure =
    | NotFound(message: string)       // LoaderNotFoundError
    | BadParameters(message: string)  // LoaderParameterError
    | Invalid(issues: seq<Issue>)     // the request model's ValidationError
    | Internal(detail: string)        // any other exception

  datatype Result<+T> = Ok(value: T) | Err(failure: Failure)

  const OK := 200
  const BAD_REQUEST := 400
  const NOT_FOUND := 404
  const UNPROCESSABLE_ENTITY := 422
  const INTERNAL_SERVER_ERROR := 500

  /** The status `do_POST` answers a failure with. Each kind has its own status, so the
      mapping is total and the status determines the kind. */
  function StatusOf(f: Failure): (s: int)
    ensures s in {BAD_REQUEST, NOT_FOUND, UNPROCESSABLE_ENTITY, INTERNAL_SERVER_ERROR}
    ensures s == NOT_FOUND <==> f.NotFound?
    ensures s == BAD_REQUEST <==> f.BadParameters?
    ensures s == UNPROCESSABLE_ENTITY <==> f.Invalid?
    ensures s == INTERNAL_SERVER_ERROR <==> f.Internal?
  {
    match f
    case NotFound(_) => NOT_FOUND
    case BadParameters(_) => BAD_REQUEST
    case Invalid(_) => UNPROCESSABLE_ENTITY
    case Internal(_) => INTERNAL_SERVER_ERROR
  }

  /** One entry of the validation error list: `{"type": kind, "loc": [field, ...]}`. */
  function IssueRecord(i: Issue): (r: Json)
    ensures r.JObj? && |r.fields| == 2 && Keys(r.fields) == ["type", "loc"]
    ensures r.fields[0].1 == JStr(i.kind)
    ensures r.fields[1].1.JArr? && |r.fields[1].1.items| == |i.loc|
    ensures forall k :: 0 <= k < |i.loc| ==> r.fields[1].1.items[k] == JStr(i.loc[k])
  {
    JObj([("type", JStr(i.kind)), ("loc", JArr(seq(|i.loc|, k requires 0 <= k < |i.loc| => JStr(i.loc[k]))))])
  }

  const FAILED_MESSAGE := "Loader execution failed"

  /** The body sent for a failure: `{"error": message}` for the two client errors, the bare
      list of issues for a validation failure, and `{"error", "detail"}` for anything else. */
  function ErrorPayload(f: Failure): (p: Json)
    ensures f.Invalid? <==> p.JArr?
    ensures f.Invalid? ==> |p.items| == |f.issues|
    ensures !f.Invalid? ==> p.JObj? && |p.fields| >= 1 && p.fields[0].0 == "error"
    ensures !f.Invalid? ==> Keys(p.fields) == if f.Internal? then ["error", "detail"] else ["error"]
    ensures f.Invalid? ==> forall k :: 0 <= k < |f.issues| ==> p.items[k] == IssueRecord(f.issues[k])
    ensures f.NotFound? || f.BadParameters? ==> p.fields[0].1 == JStr(f.message)
    ensures f.Internal? ==>
              |p.fields| == 2 && p.fields[0].1 == JStr(FAILED_MESSAGE) && p.fields[1].1 == JStr(f.detail)
  {
    match f
    case NotFound(m) => JObj([("error", JStr(m))])
    case BadParameters(m) => JObj([("error", JStr(m))])
    case Invalid(issues) => JArr(seq(|issues|, k requires 0 <= k < |issues| => IssueRecord(issues[k])))
    case Internal(d) => JObj([("error", JStr(FAILED_MESSAGE)), ("detail", JStr(d))])
  }
}
