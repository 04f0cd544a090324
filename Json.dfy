/** JSON values as the server exchanges them with its callers, and the small pieces of
    Python dict behaviour the request path relies on (key order, last binding wins). */
module Json {

  datatype Option<+T> = None | Some(value: T)

  /** A JSON document. Objects keep their key order, as Python dicts do. Values that the
      encoder turns into text through its `str(value)` fallback (dates, timestamps) are
      already `JStr` here. */
  datatype Json =
    | JNull
    | JBool(b: bool)
    | JInt(i: int)
    | JStr(s: string)
    | JArr(items: seq<Json>)
    | JObj(fields: seq<(string, Json)>)

  /** The keys of an object's fields, in order. */
  function Keys(fields: seq<(string, Json)>): (ks: seq<string>)
    ensures |ks| == |fields|
    ensures forall i :: 0 <= i < |fields| ==> ks[i] == fields[i].0
  {
    seq(|fields|, i requires 0 <= i < |fields| => fields[i].0)
  }

  /** The value a dict built from `fields` holds for `key`: a later binding of the same key
      overwrites an earlier one, so the last one wins. */
  function Lookup(fields: seq<(string, Json)>, key: string): (r: Option<Json>)
    ensures r.None? <==> key !in Keys(fields)
    ensures r.Some? ==> exists i :: 0 <= i < |fields| && fields[i] == (key, r.value) &&
                                   forall j :: i < j < |fields| ==> fields[j].0 != key
  {
    if |fields| == 0 then None
    else if fields[|fields| - 1].0 == key then Some(fields[|fields| - 1].1)
    else
      var r := Lookup(fields[..|fields| - 1], key);
      assert Keys(fields) == Keys(fields[..|fields| - 1]) + [fields[|fields| - 1].0];
      r
  }

  /** The dict that a JSON object decodes to. */
  function ToMap(fields: seq<(string, Json)>): (m: map<string, Json>)
    ensures forall k :: k in m <==> Lookup(fields, k).Some?
    ensures forall k :: k in m ==> m[k] == Lookup(fields, k).value
  {
    if |fields| == 0 then map[]
    else ToMap(fields[..|fields| - 1])[fields[|fields| - 1].0 := fields[|fields| - 1].1]
  }
}
