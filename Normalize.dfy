/** The row limit check and the reduction of whatever a loader returns to
    `(rows, row_count)` (`_coerce_limit` and `_normalize_result`). */
module Normalize {
  import opened Json
  import opened Errors

  /** A realised table: column names and, per row, one cell per column. */
  datatype Frame = Frame(columns: seq<string>, rows: seq<seq<Json>>)

  /** A table is well formed when its column names are distinct and every row has one cell
      per column, as every table the data library builds is. */
  predicate WellFormed(f: Frame) {
    (forall i, j :: 0 <= i < j < |f.columns| ==> f.columns[i] != f.columns[j]) &&
    (forall r :: 0 <= r < |f.rows| ==> |f.rows[r]| == |f.columns|)
  }

  /** What evaluating a deferred query plan gives: the table, or the exception it raised. */
  datatype Collected = Collected(frame: Frame) | CollectFailed(detail: string)

  /** The shapes a loader's return value can take. `Scalar` stands for a string, bytes, a
      single dict or any other value that is not iterable. */
  datatype RawResult =
    | Tabular(frame: Frame)
    | Lazy(plan: Collected)
    | Iterable(elems: seq<Json>)
    | Scalar(value: Json)

  datatype Normalized = Normalized(data: seq<Json>, rowCount: int)

  const NEGATIVE_LIMIT_MESSAGE := "limit must be non-negative"

  function Min(a: int, b: int): int { if a <= b then a else b }

  /** `_coerce_limit`: no limit stays no limit, a negative one is a parameter error, any
      other is kept unchanged. */
  function CoerceLimit(limit: Option<int>): (r: Result<Option<nat>>)
    ensures limit.None? ==> r == Ok(None)
    ensures limit.Some? && limit.value < 0 <==> r == Err(BadParameters(NEGATIVE_LIMIT_MESSAGE))
    ensures limit.Some? && limit.value >= 0 <==> r.Ok? && r.value.Some?
    ensures r.Ok? && r.value.Some? ==> limit == Some(r.value.value as int)
  {
    match limit
    case None => Ok(None)
    case Some(k) => if k < 0 then Err(BadParameters(NEGATIVE_LIMIT_MESSAGE)) else Ok(Some(k))
  }

  /** The first `limit` items of `s` (all of them when there is no limit): Python's
      `s[:limit]` and the table's `head(limit)` for a limit that is not negative. */
  function Take<T>(s: seq<T>, limit: Option<nat>): (r: seq<T>)
    ensures |r| == if limit.Some? then Min(|s|, limit.value) else |s|
    ensures r == s[..|r|]
  {
    match limit
    case None => s
    case Some(k) => if k < |s| then s[..k] else s
  }

  /** One table row as an ordered record of column name to cell value. */
  function RowRecord(columns: seq<string>, cells: seq<Json>): (r: seq<(string, Json)>)
    ensures |r| == Min(|columns|, |cells|)
    ensures forall i :: 0 <= i < |r| ==> r[i] == (columns[i], cells[i])
  {
    if |columns| == 0 || |cells| == 0 then []
    else [(columns[0], cells[0])] + RowRecord(columns[1..], cells[1..])
  }

  /** The table's `to_dicts()`: one record per row, in row order. */
  function ToDicts(f: Frame): (ds: seq<Json>)
    ensures |ds| == |f.rows|
    ensures forall r :: 0 <= r < |f.rows| ==> ds[r] == JObj(RowRecord(f.columns, f.rows[r]))
  {
    seq(|f.rows|, r requires 0 <= r < |f.rows| => JObj(RowRecord(f.columns, f.rows[r])))
  }

  /** `_normalize_result`: a deferred plan is evaluated first, a table is cut to its first
      `limit` rows and turned into records, any other iterable is cut to its first `limit`
      items, and everything else becomes a one-element list whatever the limit. */
  function NormalizeResult(raw: RawResult, limit: Option<nat>): (r: Result<Normalized>)
    ensures r.Ok? ==> r.value.rowCount == |r.value.data|
    ensures r.Err? <==> raw.Lazy? && raw.plan.CollectFailed?
    ensures r.Err? ==> r.failure == Internal(raw.plan.detail)
    ensures raw.Iterable? ==>
              r.Ok? &&
              r.value.rowCount == (if limit.Some? then Min(|raw.elems|, limit.value) else |raw.elems|) &&
              r.value.data == raw.elems[..r.value.rowCount]
    ensures raw.Scalar? ==> r == Ok(Normalized([raw.value], 1))
    ensures r.Ok? && limit.Some? && !raw.Scalar? ==> r.value.rowCount <= limit.value
  {
    match raw
    case Lazy(CollectFailed(detail)) => Err(Internal(detail))
    case Lazy(Collected(f)) => NormalizeFrame(f, limit)
    case Tabular(f) => NormalizeFrame(f, limit)
    case Iterable(elems) =>
      var data := Take(elems, limit);
      Ok(Normalized(data, |data|))
    case Scalar(v) => Ok(Normalized([v], 1))
  }

  /** The table branch: the records of the first `limit` rows (all rows without a limit),
      in row order. */
  function NormalizeFrame(f: Frame, limit: Option<nat>): (r: Result<Normalized>)
    ensures r.Ok? && r.value.rowCount == |r.value.data|
    ensures r.value.rowCount == if limit.Some? then Min(|f.rows|, limit.value) else |f.rows|
    ensures forall i :: 0 <= i < r.value.rowCount ==> r.value.data[i] == JObj(RowRecord(f.columns, f.rows[i]))
  {
    var data := ToDicts(Frame(f.columns, Take(f.rows, limit)));
    Ok(Normalized(data, |data|))
  }

  /** Every record of a well-formed table has exactly the table's columns as keys, in
      column order. */
  lemma {:induction false} RowRecordKeys(columns: seq<string>, cells: seq<Json>)
    requires |cells| == |columns|
    ensures Keys(RowRecord(columns, cells)) == columns
  {
    var r := RowRecord(columns, cells);
    assert |Keys(r)| == |columns|;
    forall i | 0 <= i < |columns| ensures Keys(r)[i] == columns[i] {
      assert r[i] == (columns[i], cells[i]);
    }
  }

  /** A table, or a plan that evaluates to it, with `n` rows and limit `k` gives the
      records of its first `min(n, k)` rows in their original order (all `n` rows without a
      limit), each record keyed by the table's columns. */
  lemma TabularResult(raw: RawResult, f: Frame, limit: Option<nat>)
    requires raw == Tabular(f) || raw == Lazy(Collected(f))
    ensures NormalizeResult(raw, limit).Ok?
    ensures NormalizeResult(raw, limit) == NormalizeResult(Tabular(f), limit)
    ensures var n := NormalizeResult(raw, limit).value;
            n.rowCount == |n.data| &&
            n.rowCount == (if limit.Some? then Min(|f.rows|, limit.value) else |f.rows|) &&
            forall i :: 0 <= i < n.rowCount ==> n.data[i] == JObj(RowRecord(f.columns, f.rows[i]))
    ensures WellFormed(f) ==>
            var n := NormalizeResult(raw, limit).value;
            forall i :: 0 <= i < n.rowCount ==> n.data[i].JObj? && Keys(n.data[i].fields) == f.columns
  {
    var n := NormalizeResult(raw, limit).value;
    var taken := Take(f.rows, limit);
    assert n.data == ToDicts(Frame(f.columns, taken));
    forall i | 0 <= i < n.rowCount
      ensures n.data[i] == JObj(RowRecord(f.columns, f.rows[i]))
    {
      assert taken[i] == f.rows[i];
    }
    if WellFormed(f) {
      forall i | 0 <= i < n.rowCount
        ensures n.data[i].JObj? && Keys(n.data[i].fields) == f.columns
      {
        RowRecordKeys(f.columns, f.rows[i]);
      }
    }
  }
}
