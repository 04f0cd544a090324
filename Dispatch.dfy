/** `execute_loader`: look the loader up, check the limit, call the loader once, and
    normalise what it returned. The three checks happen in that order, and a failing one
    stops the request. */
module Dispatch {
  import opened Json
  import opened Errors
  import opened Normalize
  import opened LoaderRegistry
  import opened Request

  const INVALID_PARAMETERS_PREFIX := "Invalid parameters for loader: "

  function UnsupportedMessage(name: string): string {
    "Unsupported loader '" + name + "'"
  }

  /** The checks in order: an unknown name is not found; a negative limit is a parameter
      error; a `TypeError` from the call (from binding the keywords or from inside the
      loader) is a parameter error carrying its message; any other exception is an internal
      failure carrying its message; a returned value is normalised with the limit. */
  function ExecuteLoader(reg: Registry, req: LoadRequest): (r: Result<Normalized>)
    ensures req.loader !in reg.entries ==> r == Err(NotFound("Unsupported loader '" + req.loader + "'"))
    ensures req.loader in reg.entries && req.limit.Some? && req.limit.value < 0 ==>
              r == Err(BadParameters("limit must be non-negative"))
    ensures req.loader in reg.entries && (req.limit.None? || req.limit.value >= 0) ==>
              var limit: Option<nat> := if req.limit.Some? then Some(req.limit.value) else None;
              match reg.entries[req.loader].call(req.params)
              case RaisedTypeError(m) => r == Err(BadParameters("Invalid parameters for loader: " + m))
              case Raised(m) => r == Err(Internal(m))
              case Returned(raw) => r == NormalizeResult(raw, limit)
    ensures r.Ok? ==> r.value.rowCount == |r.value.data|
  {
    match Resolve(reg, req.loader)
    case None => Err(NotFound(UnsupportedMessage(req.loader)))
    case Some(entry) =>
      match CoerceLimit(req.limit)
      case Err(f) => Err(f)
      case Ok(limit) =>
        match entry.call(req.params)
        case RaisedTypeError(m) => Err(BadParameters(INVALID_PARAMETERS_PREFIX + m))
        case Raised(m) => Err(Internal(m))
        case Returned(raw) => NormalizeResult(raw, limit)
  }

  /** An unknown name is reported as not found, naming it, whatever the parameters and
      the limit: the limit is never examined and no loader is called. */
  lemma UnknownLoader(reg: Registry, name: string, params: Params, limit: Option<int>,
                      params': Params, limit': Option<int>)
    requires name !in reg.entries
    ensures ExecuteLoader(reg, LoadRequest(name, params, limit)) ==
            Err(NotFound("Unsupported loader '" + name + "'"))
    ensures ExecuteLoader(reg, LoadRequest(name, params, limit)) ==
            ExecuteLoader(reg, LoadRequest(name, params', limit'))
  {
  }

  /** A negative limit for a known loader is a parameter error, decided before the loader
      is called: the answer is the same whatever the loader would have done. */
  lemma NegativeLimit(reg: Registry, req: LoadRequest, other: Params -> Outcome)
    requires req.loader in reg.entries
    requires req.limit.Some? && req.limit.value < 0
    ensures ExecuteLoader(reg, req) == Err(BadParameters("limit must be non-negative"))
    ensures var e := reg.entries[req.loader];
            ExecuteLoader(Registry(reg.names, reg.entries[req.loader := e.(call := other)]), req) ==
            ExecuteLoader(reg, req)
  {
  }

  /** A request succeeds exactly when the loader is known, the limit is not negative, the
      call returns, and normalising its value works; the data is then a normalisation of
      the value the loader returned for exactly these parameters. */
  lemma SuccessCharacterised(reg: Registry, req: LoadRequest)
    ensures ExecuteLoader(reg, req).Ok? <==>
            req.loader in reg.entries &&
            (req.limit.None? || req.limit.value >= 0) &&
            reg.entries[req.loader].call(req.params).Returned? &&
            NormalizeResult(reg.entries[req.loader].call(req.params).raw, CoerceLimit(req.limit).value).Ok?
  {
  }
}
