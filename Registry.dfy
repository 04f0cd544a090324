/** The loader registry (`SUPPORTED_LOADERS`) and its introspection (`describe_loader`,
    `get_registered_loaders`). Loader bodies are foreign code: each is an opaque function
    from keyword arguments to what the call did. The documentation string and the declared
    parameters, which the source reads by reflection, are given data on each entry. */
module LoaderRegistry {
  import opened Json
  import opened Normalize

  type Params = map<string, Json>

  /** What calling a loader did: returned a value, raised a `TypeError` (a keyword it does
      not accept, a missing argument, or one raised inside its body), or raised anything
      else. */
  datatype Outcome =
    | Returned(raw: RawResult)
    | RaisedTypeError(message: string)
    | Raised(message: string)

  /** One declared parameter: its name, the text of its annotation if it has one, and its
      default value if it has one. */
  datatype ParamSpec = ParamSpec(name: string, annotation: Option<string>, default: Option<Json>)

  datatype LoaderEntry = LoaderEntry(call: Params -> Outcome, doc: string, signature: seq<ParamSpec>)

  /** The registry is a dict: its keys in insertion order and the entry for each key. */
  datatype Registry = Registry(names: seq<string>, entries: map<string, LoaderEntry>) {
    predicate Valid() {
      (forall i, j :: 0 <= i < j < |names| ==> names[i] != names[j]) &&
      (forall n :: n in entries ==> n in names) &&
      (forall i :: 0 <= i < |names| ==> names[i] in entries)
    }
  }

  /** `SUPPORTED_LOADERS.get(name)`. */
  function Resolve(reg: Registry, name: string): (r: Option<LoaderEntry>)
    ensures r.Some? <==> name in reg.entries
    ensures r.Some? ==> r.value == reg.entries[name]
  {
    if name in reg.entries then Some(reg.entries[name]) else None
  }

  const SUPPORTED_NAMES: seq<string> := [
    "load_schedules", "load_pbp", "load_injuries", "load_players", "load_teams",
    "team_abbr_mapping", "team_abbr_mapping_norelocate", "player_name_mapping"]

  /** The process-wide registry, given the eight loader entries in the order the source
      lists them. */
  function Supported(loaders: seq<LoaderEntry>): (reg: Registry)
    requires |loaders| == |SUPPORTED_NAMES|
    ensures reg.Valid()
    ensures reg.names == SUPPORTED_NAMES
    ensures forall i :: 0 <= i < |SUPPORTED_NAMES| ==> reg.entries[SUPPORTED_NAMES[i]] == loaders[i]
  {
    var names := SUPPORTED_NAMES;
    // The eight names have eight different lengths.
    assert forall i, j :: 0 <= i < j < |names| ==> |names[i]| != |names[j]|;
    Registry(names, map i | 0 <= i < |names| :: names[i] := loaders[i])
  }

  /** The characters at which Python's `str.splitlines` ends a line. */
  predicate IsLineBoundary(c: char) {
    c in {'\n', '\r', '\U{B}', '\U{C}', '\U{1C}', '\U{1D}', '\U{1E}', '\U{85}', '\U{2028}', '\U{2029}'}
  }

  /** The first element of `doc.splitlines()`: the text before the first line boundary. */
  function FirstLine(doc: string): (r: string)
    ensures |r| <= |doc| && r == doc[..|r|]
    ensures forall k :: 0 <= k < |r| ==> !IsLineBoundary(r[k])
    ensures |r| < |doc| ==> IsLineBoundary(doc[|r|])
  {
    if |doc| == 0 || IsLineBoundary(doc[0]) then ""
    else [doc[0]] + FirstLine(doc[1..])
  }

  /** The fields of a parameter's record, filled in the order the source fills them. */
  function ParamFields(p: ParamSpec): seq<(string, Json)> {
    [("name", JStr(p.name))] +
    (if p.annotation.Some? then [("type", JStr(p.annotation.value))] else []) +
    (if p.default.Some? then [("default", p.default.value)] else [])
  }

  /** The record `describe_loader` builds for one parameter: its name, then `type` only if
      it is annotated and `default` only if it has a default. */
  function ParamRecord(p: ParamSpec): (r: Json)
    ensures r.JObj? && |r.fields| == 1 + (if p.annotation.Some? then 1 else 0) + (if p.default.Some? then 1 else 0)
    ensures r.fields[0] == ("name", JStr(p.name))
    ensures "type" in Keys(r.fields) <==> p.annotation.Some?
    ensures "default" in Keys(r.fields) <==> p.default.Some?
    ensures p.annotation.Some? ==> r.fields[1] == ("type", JStr(p.annotation.value))
    ensures p.default.Some? ==> r.fields[|r.fields| - 1] == ("default", p.default.value)
  {
    var typed := if p.annotation.Some? then [("type", JStr(p.annotation.value))] else [];
    var defaulted := if p.default.Some? then [("default", p.default.value)] else [];
    assert ParamFields(p) == [("name", JStr(p.name))] + typed + defaulted;
    assert Keys(ParamFields(p)) == ["name"] + Keys(typed) + Keys(defaulted);
    var ks := Keys(ParamFields(p));
    assert p.annotation.Some? ==> ks[1] == "type";
    assert p.default.Some? ==> ks[|ks| - 1] == "default";
    assert p.annotation.None? ==> "type" !in ks by {
      if p.annotation.None? {
        forall k | 0 <= k < |ks| ensures ks[k] != "type" {
          assert ks[k] == "name" || ks[k] == "default";
          assert "type"[0] != "name"[0] && "type"[0] != "default"[0];
        }
      }
    }
    assert p.default.None? ==> "default" !in ks by {
      if p.default.None? {
        forall k | 0 <= k < |ks| ensures ks[k] != "default" {
          assert ks[k] == "name" || ks[k] == "type";
          assert "default"[0] != "name"[0] && "default"[0] != "type"[0];
        }
      }
    }
    JObj(ParamFields(p))
  }

  /** The description of one loader: `{name, doc, parameters}`, where `doc` is the first
      line of its documentation and `parameters` has one record per declared parameter, in
      signature order. An empty documentation string has no first line, so the source
      fails on it; it is excluded here. */
  function Describe(name: string, entry: LoaderEntry): (d: Json)
    requires entry.doc != ""
    ensures d.JObj? && |d.fields| == 3 && Keys(d.fields) == ["name", "doc", "parameters"]
    ensures d.fields[0].1 == JStr(name)
    ensures d.fields[1].1.JStr? && d.fields[1].1.s == FirstLine(entry.doc)
    ensures d.fields[2].1.JArr? && |d.fields[2].1.items| == |entry.signature|
    ensures forall k :: 0 <= k < |entry.signature| ==>
              d.fields[2].1.items[k] == ParamRecord(entry.signature[k])
  {
    var sig := entry.signature;
    JObj([("name", JStr(name)), ("doc", JStr(FirstLine(entry.doc))),
          ("parameters", JArr(seq(|sig|, k requires 0 <= k < |sig| => ParamRecord(sig[k]))))])
  }

  /** `describe_loader`, as the source writes it: a loop that appends one parameter record
      at a time, each filled key by key. */
  method DescribeLoader(name: string, entry: LoaderEntry) returns (d: Json)
    requires entry.doc != ""
    ensures d == Describe(name, entry)
  {
    var parameters: seq<Json> := [];
    var i := 0;
    while i < |entry.signature|
      invariant 0 <= i <= |entry.signature|
      invariant |parameters| == i
      invariant forall k :: 0 <= k < i ==> parameters[k] == ParamRecord(entry.signature[k])
    {
      var parameter := entry.signature[i];
      var info := [("name", JStr(parameter.name))];
      if parameter.annotation.Some? {
        info := info + [("type", JStr(parameter.annotation.value))];
      }
      if parameter.default.Some? {
        info := info + [("default", parameter.default.value)];
      }
      assert info == ParamFields(parameter);
      parameters := parameters + [JObj(info)];
      i := i + 1;
    }
    d := JObj([("name", JStr(name)), ("doc", JStr(FirstLine(entry.doc))), ("parameters", JArr(parameters))]);
    assert d.fields[2].1.items == Describe(name, entry).fields[2].1.items;
  }

  /** Every registered loader has a non-empty documentation string. */
  predicate Documented(reg: Registry) {
    forall n :: n in reg.entries ==> reg.entries[n].doc != ""
  }

  /** `get_registered_loaders`: one description per registry key, in registry order, so
      each registered name is described exactly once. */
  function GetRegisteredLoaders(reg: Registry): (ds: seq<Json>)
    requires reg.Valid() && Documented(reg)
    ensures |ds| == |reg.names|
    ensures forall i :: 0 <= i < |ds| ==>
              ds[i] == Describe(reg.names[i], reg.entries[reg.names[i]])
    ensures forall i :: 0 <= i < |ds| ==> ds[i].JObj? && |ds[i].fields| > 0 && ds[i].fields[0] == ("name", JStr(reg.names[i]))
    ensures forall i, j :: 0 <= i < j < |ds| ==> ds[i] != ds[j]
    ensures forall n :: n in reg.entries <==>
              exists i :: 0 <= i < |ds| && ds[i].JObj? && |ds[i].fields| > 0 && ds[i].fields[0] == ("name", JStr(n))
  {
    var names := reg.names;
    var ds := seq(|names|, i requires 0 <= i < |names| => Describe(names[i], reg.entries[names[i]]));
    assert forall i :: 0 <= i < |ds| ==> ds[i].fields[0] == ("name", JStr(names[i]));
    ds
  }
}
