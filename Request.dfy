/** Reading the body of `POST /load` (`_load_body`) and validating it into a `LoadRequest`
    (the request model). The JSON decoder is a library: it is a parameter that says what
    it makes of a byte string. */
module Request {
  import opened Json
  import opened Errors
  import opened Normalize
  import opened LoaderRegistry

  /** The request model: a loader name, keyword arguments (empty when absent) and a limit
      that the model itself does not constrain. */
  datatype LoadRequest = LoadRequest(loader: string, params: Params, limit: Option<int>)

  /** The `Content-Length` header: absent, a value `int()` accepts, or one it rejects. */
  datatype LengthHeader = Absent | Length(n: int) | Unparsable(text: string)

  /** What the JSON decoder makes of a byte string: a document, a syntax error
      (`JSONDecodeError`), or bytes it cannot decode as text (`UnicodeDecodeError`, which
      is not a `JSONDecodeError`). */
  datatype JsonParse = Parsed(value: Json) | SyntaxError(message: string) | NotText(message: string)

  type Decoder = seq<bv8> -> JsonParse

  /** The body the handler substitutes when there is nothing to read: `b"{}"`. */
  const EMPTY_OBJECT_BYTES: seq<bv8> := [0x7B, 0x7D]

  const INVALID_JSON_PREFIX := "Invalid JSON body: "

  /** A decoder that reads `b"{}"` as the empty object, as the standard one does. */
  predicate DecodesEmptyObject(parse: Decoder) {
    parse(EMPTY_OBJECT_BYTES) == Parsed(JObj([]))
  }

  /** `int(headers.get("Content-Length", "0"))`; a value `int()` rejects raises a
      `ValueError`, which nothing on the path catches specially. */
  function ContentLength(h: LengthHeader): (r: Result<int>)
    ensures h.Absent? ==> r == Ok(0)
    ensures h.Length? ==> r == Ok(h.n)
    ensures h.Unparsable? ==> r.Err? && r.failure.Internal?
  {
    match h
    case Absent => Ok(0)
    case Length(n) => Ok(n)
    case Unparsable(text) => Err(Internal("invalid literal for int() with base 10: '" + text + "'"))
  }

  /** `rfile.read(n)`: up to `n` bytes of what the client sent. */
  function Read(stream: seq<bv8>, n: nat): (bytes: seq<bv8>)
    ensures bytes == stream[..Min(n, |stream|)]
  {
    if n < |stream| then stream[..n] else stream
  }

  /** `_load_body`: a missing or non-positive length stands for `b"{}"`, an empty read for
      `{}`; otherwise the bytes read are decoded, and a syntax error becomes a parameter
      error with the decoder's message. */
  function LoadBody(h: LengthHeader, stream: seq<bv8>, parse: Decoder): (r: Result<Json>)
    ensures DecodesEmptyObject(parse) && (h.Absent? || (h.Length? && h.n <= 0)) ==>
              r == Ok(JObj([]))
    ensures h.Length? && h.n > 0 && |stream| == 0 ==> r == Ok(JObj([]))
    ensures h.Length? && h.n > 0 && |stream| > 0 ==>
              match parse(Read(stream, h.n))
              case Parsed(v) => r == Ok(v)
              case SyntaxError(m) => r == Err(BadParameters(INVALID_JSON_PREFIX + m))
              case NotText(m) => r == Err(Internal(m))
    ensures h.Unparsable? ==> r.Err? && r.failure.Internal?
  {
    match ContentLength(h)
    case Err(f) => Err(f)
    case Ok(n) =>
      var raw := if n > 0 then Read(stream, n) else EMPTY_OBJECT_BYTES;
      if raw == [] then Ok(JObj([]))
      else
        match parse(raw)
        case Parsed(v) => Ok(v)
        case SyntaxError(m) => Err(BadParameters(INVALID_JSON_PREFIX + m))
        case NotText(m) => Err(Internal(m))
  }

  const LOADER_FIELD := "loader"
  const PARAMS_FIELD := "params"
  const LIMIT_FIELD := "limit"

  /** The issue, if any, for the required string field `loader`. */
  function LoaderIssues(v: Option<Json>): (issues: seq<Issue>)
    ensures |issues| <= 1
    ensures issues == [] <==> v.Some? && v.value.JStr?
  {
    match v
    case None => [Issue("missing", [LOADER_FIELD])]
    case Some(JStr(_)) => []
    case Some(_) => [Issue("string_type", [LOADER_FIELD])]
  }

  /** The issue, if any, for the optional mapping field `params`. */
  function ParamsIssues(v: Option<Json>): (issues: seq<Issue>)
    ensures |issues| <= 1
    ensures issues == [] <==> v.None? || v.value.JObj?
  {
    match v
    case None => []
    case Some(JObj(_)) => []
    case Some(_) => [Issue("dict_type", [PARAMS_FIELD])]
  }

  /** The issue, if any, for the optional integer field `limit`. */
  function LimitIssues(v: Option<Json>): (issues: seq<Issue>)
    ensures |issues| <= 1
    ensures issues == [] <==> v.None? || v.value.JNull? || v.value.JInt?
  {
    match v
    case None => []
    case Some(JNull) => []
    case Some(JInt(_)) => []
    case Some(_) => [Issue("int_type", [LIMIT_FIELD])]
  }

  /** A field shape the request model accepts. */
  predicate Acceptable(fields: seq<(string, Json)>) {
    LoaderIssues(Lookup(fields, LOADER_FIELD)) == [] &&
    ParamsIssues(Lookup(fields, PARAMS_FIELD)) == [] &&
    LimitIssues(Lookup(fields, LIMIT_FIELD)) == []
  }

  /** Validating a decoded body against the request model. A body that is not an object
      fails as a whole; otherwise every offending field is reported, in field order, and a
      body without offences becomes the request with `params` defaulting to `{}` and
      `limit` to none. Other keys are ignored. */
  function Validate(body: Json): (r: Result<LoadRequest>)
    ensures !body.JObj? ==> r == Err(Invalid([Issue("model_type", [])]))
    ensures body.JObj? ==> (r.Ok? <==> Acceptable(body.fields))
    ensures r.Err? ==> r.failure.Invalid? && |r.failure.issues| >= 1
    ensures body.JObj? && r.Err? ==> |r.failure.issues| <= 3
    ensures body.JObj? && Lookup(body.fields, LOADER_FIELD).None? ==>
              r.Err? && r.failure.issues[0] == Issue("missing", [LOADER_FIELD])
    ensures r.Ok? ==>
              var fields := body.fields;
              Lookup(fields, LOADER_FIELD) == Some(JStr(r.value.loader)) &&
              (Lookup(fields, PARAMS_FIELD).None? ==> r.value.params == map[]) &&
              (Lookup(fields, PARAMS_FIELD).Some? ==>
                 r.value.params == ToMap(Lookup(fields, PARAMS_FIELD).value.fields)) &&
              (match Lookup(fields, LIMIT_FIELD)
               case Some(JInt(k)) => r.value.limit == Some(k)
               case _ => r.value.limit == None)
  {
    match body
    case JObj(fields) =>
      var loader := Lookup(fields, LOADER_FIELD);
      var params := Lookup(fields, PARAMS_FIELD);
      var limit := Lookup(fields, LIMIT_FIELD);
      var issues := LoaderIssues(loader) + ParamsIssues(params) + LimitIssues(limit);
      if issues != [] then Err(Invalid(issues))
      else
        Ok(LoadRequest(
             loader.value.s,
             if params.Some? then ToMap(params.value.fields) else map[],
             if limit.Some? && limit.value.JInt? then Some(limit.value.i) else None))
    case _ => Err(Invalid([Issue("model_type", [])]))
  }

  /** Every offending field is reported, each once, so the caller sees all problems in one
      response: the reported fields are exactly the offending ones. */
  lemma ValidateReportsEveryField(fields: seq<(string, Json)>, field: string)
    requires field in [LOADER_FIELD, PARAMS_FIELD, LIMIT_FIELD]
    requires Validate(JObj(fields)).Err?
    ensures var issues := Validate(JObj(fields)).failure.issues;
            (exists i :: 0 <= i < |issues| && issues[i].loc == [field]) <==>
            match field
            case "loader" => LoaderIssues(Lookup(fields, LOADER_FIELD)) != []
            case "params" => ParamsIssues(Lookup(fields, PARAMS_FIELD)) != []
            case _ => LimitIssues(Lookup(fields, LIMIT_FIELD)) != []
  {
    var a := LoaderIssues(Lookup(fields, LOADER_FIELD));
    var b := ParamsIssues(Lookup(fields, PARAMS_FIELD));
    var c := LimitIssues(Lookup(fields, LIMIT_FIELD));
    var issues := Validate(JObj(fields)).failure.issues;
    assert issues == a + b + c;
    assert forall i :: 0 <= i < |a| ==> a[i].loc == [LOADER_FIELD];
    assert forall i :: 0 <= i < |b| ==> b[i].loc == [PARAMS_FIELD];
    assert forall i :: 0 <= i < |c| ==> c[i].loc == [LIMIT_FIELD];
    if field == LOADER_FIELD && a != [] {
      assert issues[0].loc == [field];
    }
    if field == PARAMS_FIELD && b != [] {
      assert issues[|a|].loc == [field];
    }
    if field == LIMIT_FIELD && c != [] {
      assert issues[|a| + |b|].loc == [field];
    }
  }
}
