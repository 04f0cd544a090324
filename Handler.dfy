/** The request handler: routing on method and path (`do_GET`, `do_POST`), and the one
    response each request gets. Writing the response to the socket is left out; a
    response is its status and its JSON payload. */
module Handler {
  import opened Json
  import opened Errors
  import opened Normalize
  import opened LoaderRegistry
  import opened Request
  import opened Dispatch

  datatype Response = Response(status: int, payload: Json)

  const NOT_FOUND_PAYLOAD := JObj([("error", JStr("Not found"))])

  /** The success envelope: exactly `{loader, row_count, data}`. */
  function SuccessEnvelope(loader: string, n: Normalized): (p: Json)
    ensures p.JObj? && |p.fields| == 3 && Keys(p.fields) == ["loader", "row_count", "data"]
    ensures p.fields[0].1 == JStr(loader)
    ensures p.fields[1].1 == JInt(n.rowCount)
    ensures p.fields[2].1 == JArr(n.data)
  {
    var fields := [("loader", JStr(loader)), ("row_count", JInt(n.rowCount)), ("data", JArr(n.data))];
    assert Keys(fields) == ["loader", "row_count", "data"];
    JObj(fields)
  }

  /** The body of an error response: the bare list of validation issues, or an object
      whose first key is `error` and that carries neither `data` nor `row_count`. */
  predicate IsErrorPayload(p: Json) {
    p.JArr? ||
    (p.JObj? && |p.fields| >= 1 && p.fields[0].0 == "error" &&
     "data" !in Keys(p.fields) && "row_count" !in Keys(p.fields))
  }

  /** The stages inside `do_POST`'s `try`: read the body, validate it, execute. */
  function ProcessLoad(reg: Registry, h: LengthHeader, stream: seq<bv8>, parse: Decoder)
    : (r: Result<(string, Normalized)>)
    ensures LoadBody(h, stream, parse).Err? ==> r == Err(LoadBody(h, stream, parse).failure)
    ensures LoadBody(h, stream, parse).Ok? && Validate(LoadBody(h, stream, parse).value).Err? ==>
              r == Err(Validate(LoadBody(h, stream, parse).value).failure)
    ensures LoadBody(h, stream, parse).Ok? && Validate(LoadBody(h, stream, parse).value).Ok? ==>
              var req := Validate(LoadBody(h, stream, parse).value).value;
              match ExecuteLoader(reg, req)
              case Err(f) => r == Err(f)
              case Ok(n) => r == Ok((req.loader, n))
    ensures r.Ok? <==>
              LoadBody(h, stream, parse).Ok? && Validate(LoadBody(h, stream, parse).value).Ok? &&
              ExecuteLoader(reg, Validate(LoadBody(h, stream, parse).value).value).Ok?
    ensures r.Ok? ==> r.value.1.rowCount == |r.value.1.data|
  {
    match LoadBody(h, stream, parse)
    case Err(f) => Err(f)
    case Ok(body) =>
      match Validate(body)
      case Err(f) => Err(f)
      case Ok(req) =>
        match ExecuteLoader(reg, req)
        case Err(f) => Err(f)
        case Ok(n) => Ok((req.loader, n))
  }

  /** `do_POST`: any path but `/load` is not found; otherwise exactly one outcome, a 200
      with the success envelope when every stage succeeded, or the status and payload of
      the failure that stopped it. Success and error payloads are never mixed. */
  function HandlePost(reg: Registry, path: string, h: LengthHeader, stream: seq<bv8>, parse: Decoder)
    : (resp: Response)
    ensures path != "/load" ==> resp == Response(NOT_FOUND, NOT_FOUND_PAYLOAD)
    ensures path == "/load" ==>
              match ProcessLoad(reg, h, stream, parse)
              case Ok((loader, n)) => resp == Response(OK, SuccessEnvelope(loader, n))
              case Err(f) => resp == Response(StatusOf(f), ErrorPayload(f))
    ensures resp.status in {OK, BAD_REQUEST, NOT_FOUND, UNPROCESSABLE_ENTITY, INTERNAL_SERVER_ERROR}
    ensures resp.status == OK <==> path == "/load" && ProcessLoad(reg, h, stream, parse).Ok?
    ensures resp.status == OK ==>
              resp.payload.JObj? && Keys(resp.payload.fields) == ["loader", "row_count", "data"] &&
              resp.payload.fields[2].1.JArr? &&
              resp.payload.fields[1].1 == JInt(|resp.payload.fields[2].1.items|)
    ensures resp.status != OK ==> IsErrorPayload(resp.payload)
  {
    if path != "/load" then Response(NOT_FOUND, NOT_FOUND_PAYLOAD)
    else
      match ProcessLoad(reg, h, stream, parse)
      case Ok((loader, n)) => Response(OK, SuccessEnvelope(loader, n))
      case Err(f) => Response(StatusOf(f), ErrorPayload(f))
  }

  /** `do_GET`: `/health` and `/loaders` answer 200, any other path 404. Only `/loaders`
      reads the documentation strings, so only it needs every one to be non-empty. */
  function HandleGet(reg: Registry, path: string): (resp: Response)
    requires path == "/loaders" ==> reg.Valid() && Documented(reg)
    ensures path == "/health" ==> resp == Response(OK, JObj([("status", JStr("ok"))]))
    ensures path == "/loaders" ==>
              resp == Response(OK, JObj([("loaders", JArr(GetRegisteredLoaders(reg)))]))
    ensures path != "/health" && path != "/loaders" ==> resp == Response(NOT_FOUND, NOT_FOUND_PAYLOAD)
  {
    if path == "/health" then Response(OK, JObj([("status", JStr("ok"))]))
    else if path == "/loaders" then Response(OK, JObj([("loaders", JArr(GetRegisteredLoaders(reg)))]))
    else Response(NOT_FOUND, NOT_FOUND_PAYLOAD)
  }

  /** A missing or non-positive `Content-Length`, or a body that reads as nothing, is the
      empty object, which fails validation only because `loader` is missing: 422 with that
      one issue. */
  lemma EmptyBody(reg: Registry, h: LengthHeader, stream: seq<bv8>, parse: Decoder)
    requires DecodesEmptyObject(parse)
    requires h.Absent? || (h.Length? && (h.n <= 0 || |stream| == 0))
    ensures HandlePost(reg, "/load", h, stream, parse) ==
            Response(UNPROCESSABLE_ENTITY, JArr([JObj([("type", JStr("missing")), ("loc", JArr([JStr("loader")]))])]))
  {
    assert LoadBody(h, stream, parse) == Ok(JObj([]));
    var issue := Issue("missing", ["loader"]);
    assert Validate(JObj([])) == Err(Invalid([issue]));
    assert IssueRecord(issue).fields[1].1.items == [JStr("loader")];
    assert IssueRecord(issue) == JObj([("type", JStr("missing")), ("loc", JArr([JStr("loader")]))]);
    assert ErrorPayload(Invalid([issue])).items == [IssueRecord(issue)];
  }

  /** Bytes the decoder rejects as JSON give 400 with the decoder's message after
      `Invalid JSON body: `. */
  lemma MalformedJson(reg: Registry, n: int, stream: seq<bv8>, parse: Decoder, m: string)
    requires n > 0 && |stream| > 0
    requires parse(Read(stream, n)) == SyntaxError(m)
    ensures HandlePost(reg, "/load", Length(n), stream, parse) ==
            Response(BAD_REQUEST, JObj([("error", JStr("Invalid JSON body: " + m))]))
  {
  }

  /** A body naming an unknown loader gets 404 and an error naming it. */
  lemma UnknownLoaderResponse(reg: Registry, n: int, stream: seq<bv8>, parse: Decoder, name: string)
    requires n > 0 && |stream| > 0
    requires parse(Read(stream, n)) == Parsed(JObj([("loader", JStr(name))]))
    requires name !in reg.entries
    ensures HandlePost(reg, "/load", Length(n), stream, parse) ==
            Response(NOT_FOUND, JObj([("error", JStr("Unsupported loader '" + name + "'"))]))
  {
    assert Validate(JObj([("loader", JStr(name))])) == Ok(LoadRequest(name, map[], None));
  }

  /** A negative limit passes validation and is refused by the dispatcher: 400, not 422. */
  lemma NegativeLimitResponse(reg: Registry, n: int, stream: seq<bv8>, parse: Decoder, name: string, k: int)
    requires n > 0 && |stream| > 0
    requires parse(Read(stream, n)) == Parsed(JObj([("loader", JStr(name)), ("limit", JInt(k))]))
    requires name in reg.entries && k < 0
    ensures HandlePost(reg, "/load", Length(n), stream, parse) ==
            Response(BAD_REQUEST, JObj([("error", JStr("limit must be non-negative"))]))
  {
    var fields := [("loader", JStr(name)), ("limit", JInt(k))];
    assert Lookup(fields, "params") == None;
    assert Validate(JObj(fields)) == Ok(LoadRequest(name, map[], Some(k)));
  }

  /** A body `{"loader": "load_teams", "params": {}, "limit": 5}` against a loader that
      returns a table of 32 rows gets 200 with 5 rows. */
  lemma LoadTeamsScenario(reg: Registry, n: int, stream: seq<bv8>, parse: Decoder, f: Frame)
    requires n > 0 && |stream| > 0
    requires parse(Read(stream, n)) ==
             Parsed(JObj([("loader", JStr("load_teams")), ("params", JObj([])), ("limit", JInt(5))]))
    requires "load_teams" in reg.entries && |f.rows| == 32
    requires reg.entries["load_teams"].call(map[]) == Returned(Tabular(f))
    ensures var resp := HandlePost(reg, "/load", Length(n), stream, parse);
            resp.status == OK &&
            resp.payload == JObj([("loader", JStr("load_teams")), ("row_count", JInt(5)),
                                  ("data", JArr(ToDicts(Frame(f.columns, f.rows[..5]))))])
  {
    var fields := [("loader", JStr("load_teams")), ("params", JObj([])), ("limit", JInt(5))];
    assert Lookup(fields, "limit") == Some(JInt(5));
    assert Lookup(fields, "params") == Some(JObj([]));
    assert Lookup(fields, "loader") == Some(JStr("load_teams"));
    assert ToMap([]) == map[];
    assert Validate(JObj(fields)) == Ok(LoadRequest("load_teams", map[], Some(5)));
    TabularResult(Tabular(f), f, Some(5));
  }

  /** A loader that raises anything but a `TypeError`, or returns a lazy frame whose
      evaluation raises, gets 500 with `{"error": "Loader execution failed", "detail": m}`. */
  lemma LoaderFailureResponse(reg: Registry, n: int, stream: seq<bv8>, parse: Decoder, name: string,
                              pf: seq<(string, Json)>, m: string)
    requires n > 0 && |stream| > 0
    requires parse(Read(stream, n)) == Parsed(JObj([("loader", JStr(name)), ("params", JObj(pf))]))
    requires name in reg.entries
    requires reg.entries[name].call(ToMap(pf)) in {Raised(m), Returned(Lazy(CollectFailed(m)))}
    ensures HandlePost(reg, "/load", Length(n), stream, parse) ==
            Response(INTERNAL_SERVER_ERROR,
                     JObj([("error", JStr("Loader execution failed")), ("detail", JStr(m))]))
  {
    var fields := [("loader", JStr(name)), ("params", JObj(pf))];
    assert Lookup(fields, "limit") == None;
    assert Validate(JObj(fields)) == Ok(LoadRequest(name, ToMap(pf), None));
    assert ExecuteLoader(reg, LoadRequest(name, ToMap(pf), None)) == Err(Internal(m));
  }

  /** A loader that rejects the keyword arguments (or raises a `TypeError` from inside)
      gets 400 with "Invalid parameters for loader: " followed by the message. */
  lemma BadKeywordsResponse(reg: Registry, n: int, stream: seq<bv8>, parse: Decoder, name: string,
                            pf: seq<(string, Json)>, m: string)
    requires n > 0 && |stream| > 0
    requires parse(Read(stream, n)) == Parsed(JObj([("loader", JStr(name)), ("params", JObj(pf))]))
    requires name in reg.entries
    requires reg.entries[name].call(ToMap(pf)) == RaisedTypeError(m)
    ensures HandlePost(reg, "/load", Length(n), stream, parse) ==
            Response(BAD_REQUEST, JObj([("error", JStr("Invalid parameters for loader: " + m))]))
  {
    var fields := [("loader", JStr(name)), ("params", JObj(pf))];
    assert Lookup(fields, "limit") == None;
    assert Validate(JObj(fields)) == Ok(LoadRequest(name, ToMap(pf), None));
  }
}
