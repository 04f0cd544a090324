# nflreadpy HTTP API: request dispatch and result normalisation

This project models the core of `src/nflreadpy/api_server.py`. That module is a small HTTP gateway. It exposes a fixed registry of data loaders (`load_schedules`, `load_pbp`, `load_teams`, …) as JSON endpoints:

- `GET /health` reports that the server is up.
- `GET /loaders` describes every registered loader.
- `POST /load` takes `{"loader", "params", "limit"}`, calls the named loader with `params` as keyword arguments, and returns its rows as `{loader, row_count, data}`.

The model replaces the source's exceptions with explicit `Result` values, threaded through each stage. The stages are:

- reading the body (`Request.LoadBody`);
- validating it against the request model (`Request.Validate`);
- dispatching (`Dispatch.ExecuteLoader`: look the loader up, then check the limit, then call the loader once);
- normalising what the loader returned (`Normalize.NormalizeResult`);
- answering with exactly one response (`Handler.HandlePost`).

A single table, `Errors.StatusOf`, maps each failure kind to its HTTP status.

A loader is an opaque function from keyword arguments to an outcome: it returned a value, raised a `TypeError`, or raised something else. A returned value is one of four shapes:

- a table;
- a deferred query plan (a lazy frame) that evaluates to a table or raises;
- any other iterable;
- a scalar (a string, bytes, a single dict, or any value that is not iterable).

The registry is a dict: its keys in insertion order, plus an entry per key. Each entry carries the loader's documentation string and its declared parameters. The source reads those two by reflection; here they are given data.

Modules, leaf first: `Json` (JSON values and dict lookup), `Errors`, `Normalize`, `LoaderRegistry`, `Request`, `Dispatch`, `Handler`.

Quirks of the code that the model keeps:

- **Negative limit.** The request model does not constrain `limit`. A negative limit therefore passes validation and is refused later by the dispatcher with 400, not with 422.
- **Empty loader name.** An empty `loader` string is not rejected by validation. It is looked up like any other name and gives 404.
- **Invalid JSON** raises the same parameter error as a bad parameter, so it also answers 400.
- **Validation errors.** A validation failure answers with the bare list of issues, not with an `{"error": …}` object.
- **Scalar with a limit.** A scalar result has `row_count` 1 even when the limit is 0. So "`row_count` never exceeds the limit" holds for every shape except a scalar.
- **No caching.** Loader descriptions are recomputed on every `GET /loaders`.

Branches of the code that answer 500 or 400 for reasons a client may not expect, all kept in the model:

- A `Content-Length` that `int()` rejects raises a `ValueError`, which answers 500 "Loader execution failed".
- Body bytes that are not valid text raise a `UnicodeDecodeError`, which is not a `JSONDecodeError`. This also answers 500.
- A lazy frame whose evaluation raises answers 500.
- A `TypeError` raised inside a loader's body is indistinguishable from a keyword-binding error, so it answers 400.

## Model

| member | source | states |
|---|---|---|
| `Json.Lookup` | src/nflreadpy/api_server.py:184 | a field of the decoded body is found exactly when the key occurs, and the value is that of its last occurrence (later keys overwrite earlier ones in a dict) |
| `Json.ToMap` | src/nflreadpy/api_server.py:51-54 | the `params` dict has exactly the keys of the JSON object, each bound to its last value |
| `Errors.StatusOf` | src/nflreadpy/api_server.py:186-201 | the failure-to-status mapping is total and one-to-one: not found 404, parameter error 400, validation 422, anything else 500 |
| `Errors.IssueRecord` | src/nflreadpy/api_server.py:193 | an issue's entry is the object with exactly the keys `type` and `loc`, in that order, holding the issue's kind and its field path, element by element |
| `Errors.ErrorPayload` | src/nflreadpy/api_server.py:186-201 | a validation failure is answered with the list of issue entries (one per issue, in order); a not-found or parameter failure with `{"error": message}` and nothing else; any other failure with `{"error": "Loader execution failed", "detail": detail}` and nothing else |
| `Normalize.CoerceLimit` | src/nflreadpy/api_server.py:91-96 | no limit stays none; a negative limit, and only a negative one, is the parameter error "limit must be non-negative"; any other limit is returned unchanged |
| `Normalize.Take` | src/nflreadpy/api_server.py:103-113 | `head(k)` and `[:k]` give a prefix of the source of length `min(n, k)`, or the whole source without a limit |
| `Normalize.RowRecord` | src/nflreadpy/api_server.py:106 | a row's record pairs the i-th column name with the i-th cell, over as many places as both have |
| `Normalize.RowRecordKeys` | src/nflreadpy/api_server.py:106 | for a row with one cell per column, the record's keys are exactly the column names, in column order |
| `Normalize.ToDicts` | src/nflreadpy/api_server.py:106 | one record per row, in row order: the r-th record is the r-th row paired with the column names |
| `Normalize.NormalizeFrame` | src/nflreadpy/api_server.py:103-107 | a table with `n` rows and limit `k` gives exactly the records of its first `min(n, k)` rows, in order (all `n` without a limit), and `row_count == len(data)` |
| `Normalize.NormalizeResult` | src/nflreadpy/api_server.py:99-115 | `row_count == len(data)` always; an iterable gives its first `min(n, k)` elements in order (all `n` without a limit); a scalar gives `[value]` with count 1 whatever the limit; except for a scalar the count never exceeds the limit; a failure happens only when a lazy frame's evaluation raises, and then it is an internal failure with that detail |
| `Normalize.TabularResult` | src/nflreadpy/api_server.py:100-107 | a lazy frame is evaluated and then treated exactly like the table it evaluates to; a table with `n` rows and limit `k` gives the records of its first `min(n, k)` rows in order (all `n` without a limit), and each record of a well-formed table is keyed by exactly its columns |
| `LoaderRegistry.Resolve` | src/nflreadpy/api_server.py:119 | a name resolves exactly when it is a registry key, and then to that key's entry |
| `LoaderRegistry.Supported` | src/nflreadpy/api_server.py:35-44 | the registry built from the eight loaders has the eight names in source order, with no duplicates, and maps each name to its loader |
| `LoaderRegistry.FirstLine` | src/nflreadpy/api_server.py:82 | `splitlines()[0]` is the prefix of the text up to, but not including, the first line boundary (Python's boundary set), or the whole text if it has none |
| `LoaderRegistry.ParamRecord` | src/nflreadpy/api_server.py:73-77 | a parameter's record starts with its name; it has a `type` key exactly when the parameter is annotated, holding the annotation's text right after the name; it has a `default` key exactly when the parameter has a default, holding that value last; it has no other keys |
| `LoaderRegistry.Describe` | src/nflreadpy/api_server.py:69-84 | a description has exactly the keys `name`, `doc` and `parameters`; `doc` is the first line of the documentation; the parameter records follow signature order, one per parameter; an empty documentation string is excluded |
| `LoaderRegistry.DescribeLoader` | src/nflreadpy/api_server.py:69-84 | the appending loop builds exactly the description `Describe` specifies |
| `LoaderRegistry.GetRegisteredLoaders` | src/nflreadpy/api_server.py:87-88 | one description per registry key, in registry order, each naming its key; descriptions are pairwise distinct; a name is described exactly when it is registered |
| `Request.ContentLength` | src/nflreadpy/api_server.py:141 | an absent header counts as 0; an integer header counts as its value; a header `int()` rejects is an internal failure |
| `Request.Read` | src/nflreadpy/api_server.py:142 | reading `n` bytes gives the first `min(n, available)` bytes the client sent |
| `Request.LoadBody` | src/nflreadpy/api_server.py:140-148 | a length that is absent or not positive gives `{}` (for a decoder that reads `b"{}"` as `{}`); an empty read gives `{}`; otherwise a decoded document is returned as it is, a syntax error becomes the parameter error "Invalid JSON body: " followed by the message, and undecodable bytes become an internal failure |
| `Request.LoaderIssues` | src/nflreadpy/api_server.py:50 | `loader` has no issue exactly when it is present and a string |
| `Request.ParamsIssues` | src/nflreadpy/api_server.py:51-54 | `params` has no issue exactly when it is absent or an object |
| `Request.LimitIssues` | src/nflreadpy/api_server.py:55-58 | `limit` has no issue exactly when it is absent, null or an integer; its sign is not checked |
| `Request.Validate` | src/nflreadpy/api_server.py:47-58 | a body that is not an object fails as a whole; an object is accepted exactly when its three fields are acceptable; a missing `loader` is the first issue reported; an accepted body keeps its loader name, its `params` (or `{}` when absent) and its integer `limit` (or none when absent or null) |
| `Request.ValidateReportsEveryField` | src/nflreadpy/api_server.py:47-58 | the issues report exactly the offending fields, all of them in one response rather than only the first |
| `Dispatch.ExecuteLoader` | src/nflreadpy/api_server.py:118-131 | order of checks: an unknown name gives "Unsupported loader '<name>'"; otherwise a negative limit gives "limit must be non-negative"; otherwise a `TypeError` gives "Invalid parameters for loader: " followed by its message, any other exception an internal failure with its message, and a returned value is normalised with the limit; `row_count == len(data)` on success |
| `Dispatch.UnknownLoader` | src/nflreadpy/api_server.py:119-121 | for an unknown name the answer does not depend on the parameters or the limit: the limit is never examined and no loader is called |
| `Dispatch.NegativeLimit` | src/nflreadpy/api_server.py:123 | for a known loader with a negative limit, the answer is the same whatever the loader would do, so the loader is not called |
| `Dispatch.SuccessCharacterised` | src/nflreadpy/api_server.py:118-131 | a request succeeds exactly when the loader is known, the limit is not negative, the call returns, and normalisation succeeds |
| `Handler.SuccessEnvelope` | src/nflreadpy/api_server.py:203-207 | the success payload is `{"loader": name, "row_count": count, "data": rows}`: exactly these three keys, in this order, holding the loader name, the row count and the rows |
| `Handler.ProcessLoad` | src/nflreadpy/api_server.py:182-185 | the stages run in order (read the body, validate it, execute the loader); the first one that fails decides the failure and the later ones do not run; the request succeeds exactly when all three do, with the validated loader name and the executed result, and then `row_count == len(data)` |
| `Handler.HandlePost` | src/nflreadpy/api_server.py:176-208 | a path other than `/load` gives 404 "Not found"; otherwise there is exactly one outcome: 200 with the success envelope exactly when every stage succeeded, or else the status and payload of the failing stage; the status is one of 200, 400, 404, 422 or 500; a success payload's `row_count` equals the length of its `data`; an error payload never carries `data` or `row_count` |
| `Handler.HandleGet` | src/nflreadpy/api_server.py:165-174 | `/health` gives 200 `{"status": "ok"}`; `/loaders` gives 200 with the registry descriptions; any other path gives 404 "Not found"; only `/loaders` needs a valid, fully documented registry |
| `Handler.EmptyBody` | src/nflreadpy/api_server.py:140-144 | a missing or non-positive `Content-Length`, or an empty read, gives 422 whose only issue is the missing `loader` |
| `Handler.MalformedJson` | src/nflreadpy/api_server.py:145-148 | bytes the decoder rejects give 400 with "Invalid JSON body: " followed by the decoder's message |
| `Handler.UnknownLoaderResponse` | src/nflreadpy/api_server.py:186-187 | `{"loader": name}` for an unregistered name gives 404 `{"error": "Unsupported loader '<name>'"}` |
| `Handler.NegativeLimitResponse` | src/nflreadpy/api_server.py:189-190 | a negative limit passes validation and gives 400 "limit must be non-negative", not 422 |
| `Handler.LoaderFailureResponse` | src/nflreadpy/api_server.py:100-201 | a loader that raises anything but a `TypeError`, or returns a lazy frame whose evaluation raises with message `m`, gives 500 `{"error": "Loader execution failed", "detail": m}` |
| `Handler.BadKeywordsResponse` | src/nflreadpy/api_server.py:125-191 | a loader call that raises a `TypeError` with message `m` gives 400 `{"error": "Invalid parameters for loader: " + m}` |
| `Handler.LoadTeamsScenario` | src/nflreadpy/api_server.py:182-208 | `{"loader": "load_teams", "params": {}, "limit": 5}` against a 32-row table gives 200 with `row_count` 5 and the first five rows as records |

## Left out

- HTTP server machinery is left out: the threaded server, `run_server`, socket reads and writes, headers, and `log_message` with its environment variables. This is I/O and concurrency. A response is its status and its JSON payload. The request path is taken as already extracted from the URL (`urlparse`).
- Methods other than GET and POST are left out. The base handler answers them itself.
- JSON encoding is left out: `json.dumps`, the `str()` fallback of `_json_default`, and the exact `Content-Length` of the encoded body. Values the fallback turns into text are already strings in the model.
- JSON decoding is a parameter (`Request.Decoder`), not an implementation. The empty-body lemma assumes it reads `b"{}"` as `{}`, as `json.loads` does.
- Floating-point numbers are not among the modelled JSON values. No branch of the core depends on them.
- The bodies of the real loaders are foreign calls. Each is an opaque function from keyword arguments to an outcome.
- `inspect.signature` and `inspect.getdoc` are left out. The declared parameters and the documentation string are given data on each registry entry.
- The Polars frame operations `collect`, `head` and `to_dicts` are modelled as sequence operations on rows of JSON cells, not as the library itself.
- Request validation covers only these rules: `loader` is a required string; `params` is an optional object; `limit` is an optional integer or null. Lax coercions are not modelled (numeric strings, floats with a zero fraction, booleans accepted as integers). Issues carry only their `type` and `loc`, not `msg`, `input` or `url`.
- `Request.LimitIssues`: the issue types are approximate. Any non-integer `limit` is reported as `int_type`; the request model reports a non-numeric string as `int_parsing` and accepts a numeric string such as `"5"`.
- `Request.ContentLength`: the handling of whitespace, signs and underscores by `int()` is not modelled. The header arrives as either an accepted integer or rejected text. The error detail approximates Python's `repr` quoting.
- A loader that raises the request model's own `ValidationError` would answer 422 in the source. The model treats every loader exception other than `TypeError` as an internal failure (500).
- An iterable that raises while it is being materialised is not modelled. Iterables are finished sequences.
- `LoaderRegistry.Describe` requires a non-empty documentation string. On an empty one the source's `splitlines()[0]` raises, and `GET /loaders` then sends no response.
- Idempotence of identical requests holds by construction: every operation is a function of its inputs. It is not stated as a separate lemma.
