/** The hand-maintained complexity policy and the validation of its JSON document. */
module PolicyDocument {
  import opened Options
  import Ordering

  datatype Defaults = Defaults(maxFunctionCc: int, maxModuleLoc: int)

  datatype Policy = Policy(
    formatVersion: int,
    roots: seq<string>,
    defaults: Defaults,
    functions: map<string, int>,
    modules: map<string, int>)

  // ----- Validation of the JSON document -----

  datatype Json =
    | JNull | JBool(b: bool) | JInt(i: int) | JFloat(r: real) | JString(s: string)
    | JList(items: seq<Json>) | JObject(fields: map<string, Json>)

  function PositiveInteger(value: Json): Option<int> {
    if value.JInt? && value.i > 0 then Some(value.i) else None
  }

  /** `format_version != 1` in Python, where `True` and `1.0` also equal 1. */
  predicate EqualsOne(value: Json) {
    value == JInt(1) || value == JBool(true) || value == JFloat(1.0)
  }

  predicate IsRoot(item: Json) { item.JString? && item.s != "" }

  function Strings(items: seq<Json>): seq<string>
    requires forall i :: 0 <= i < |items| ==> IsRoot(items[i])
  {
    seq(|items|, i requires 0 <= i < |items| => assert IsRoot(items[i]); items[i].s)
  }

  predicate ValidRoots(roots: Json) {
    && roots.JList? && roots.items != []
    && (forall i :: 0 <= i < |roots.items| ==> IsRoot(roots.items[i]))
    && |Ordering.Elements(Strings(roots.items))| == |roots.items|
  }

  /** `"::" in name` */
  predicate HasSeparator(name: string) {
    exists i :: 0 <= i < |name| - 1 && name[i] == ':' && name[i + 1] == ':'
  }

  predicate ValidEntries(entries: Json, functions: bool, default: int) {
    && entries.JObject?
    && forall name :: name in entries.fields ==>
         && name != ""
         && PositiveInteger(entries.fields[name]).Some? && entries.fields[name].i > default
         && (functions ==> HasSeparator(name))
  }

  function Ceilings(entries: Json): map<string, int>
    requires entries.JObject? && forall name :: name in entries.fields ==> entries.fields[name].JInt?
  {
    map name | name in entries.fields :: entries.fields[name].i
  }

  function ValidatePolicy(raw: Json): Option<Policy> {
    if !raw.JObject? || raw.fields.Keys != {"format_version", "roots", "defaults", "exceptions"} then None
    else if !EqualsOne(raw.fields["format_version"]) then None
    else if !ValidRoots(raw.fields["roots"]) then None
    else
      var defaults := raw.fields["defaults"];
      if !defaults.JObject? || defaults.fields.Keys != {"max_function_cc", "max_module_loc"} then None
      else
        var cc := PositiveInteger(defaults.fields["max_function_cc"]);
        var loc := PositiveInteger(defaults.fields["max_module_loc"]);
        if cc.None? || loc.None? then None
        else
          var exceptions := raw.fields["exceptions"];
          if !exceptions.JObject? || exceptions.fields.Keys != {"functions", "modules"} then None
          else if !ValidEntries(exceptions.fields["functions"], true, cc.value) then None
          else if !ValidEntries(exceptions.fields["modules"], false, loc.value) then None
          else
            Some(Policy(1, Strings(raw.fields["roots"].items), Defaults(cc.value, loc.value),
                        Ceilings(exceptions.fields["functions"]), Ceilings(exceptions.fields["modules"])))
  }

  ghost predicate ValidPolicy(p: Policy) {
    && p.formatVersion == 1
    && p.roots != [] && Ordering.NoDuplicates(p.roots) && "" !in p.roots
    && p.defaults.maxFunctionCc > 0 && p.defaults.maxModuleLoc > 0
    && (forall name :: name in p.functions ==>
          name != "" && HasSeparator(name) && p.functions[name] > p.defaults.maxFunctionCc)
    && (forall name :: name in p.modules ==> name != "" && p.modules[name] > p.defaults.maxModuleLoc)
  }

  function EntriesJson(entries: map<string, int>): Json {
    JObject(map name | name in entries :: JInt(entries[name]))
  }

  function RootsJson(roots: seq<string>): Json {
    JList(seq(|roots|, i requires 0 <= i < |roots| => JString(roots[i])))
  }

  /** The document that spells out a policy, for a given spelling of its version. */
  function PolicyJson(p: Policy, version: Json): Json {
    JObject(map[
      "format_version" := version,
      "roots" := RootsJson(p.roots),
      "defaults" := JObject(map["max_function_cc" := JInt(p.defaults.maxFunctionCc),
                                "max_module_loc" := JInt(p.defaults.maxModuleLoc)]),
      "exceptions" := JObject(map["functions" := EntriesJson(p.functions), "modules" := EntriesJson(p.modules)])])
  }

  lemma RootsRoundTrip(roots: seq<string>)
    requires roots != [] && Ordering.NoDuplicates(roots) && "" !in roots
    ensures ValidRoots(RootsJson(roots)) && Strings(RootsJson(roots).items) == roots
  {
    var json := RootsJson(roots);
    assert forall i :: 0 <= i < |roots| ==> roots[i] in roots;
    assert Strings(json.items) == roots;
    Ordering.CardinalityAtMost(roots);
  }

  lemma ValidRootsAreDistinct(roots: Json)
    requires ValidRoots(roots)
    ensures Ordering.NoDuplicates(Strings(roots.items)) && "" !in Strings(roots.items)
    ensures roots == RootsJson(Strings(roots.items))
  {
    Ordering.DistinctWhenCounted(Strings(roots.items));
  }

  lemma EntriesRoundTrip(entries: map<string, int>)
    ensures Ceilings(EntriesJson(entries)) == entries
  {
  }

  lemma EntriesSpelled(entries: Json, functions: bool, default: int)
    requires ValidEntries(entries, functions, default)
    ensures EntriesJson(Ceilings(entries)) == entries
  {
  }

  lemma EntriesAreValid(entries: map<string, int>, functions: bool, default: int)
    requires default > 0
    requires forall name :: name in entries ==> name != "" && entries[name] > default && (functions ==> HasSeparator(name))
    ensures ValidEntries(EntriesJson(entries), functions, default)
  {
  }

  /** Every valid policy's document is accepted and read back as that policy. */
  lemma SpelledPolicyIsAccepted(p: Policy, version: Json)
    requires ValidPolicy(p) && EqualsOne(version)
    ensures ValidatePolicy(PolicyJson(p, version)) == Some(p)
  {
    hide ValidRoots, Strings, Ceilings, ValidEntries, HasSeparator, EntriesJson;
    var raw := PolicyJson(p, version);
    assert raw.fields.Keys == {"format_version", "roots", "defaults", "exceptions"};
    assert raw.fields["format_version"] == version;
    assert raw.fields["defaults"].fields.Keys == {"max_function_cc", "max_module_loc"};
    assert raw.fields["exceptions"].fields.Keys == {"functions", "modules"};
    EntriesAreValid(p.functions, true, p.defaults.maxFunctionCc);
    EntriesAreValid(p.modules, false, p.defaults.maxModuleLoc);
    RootsRoundTrip(p.roots);
    EntriesRoundTrip(p.functions);
    EntriesRoundTrip(p.modules);
  }

  /** An accepted document spells out a valid policy and nothing else. */
  lemma AcceptedIsSpelled(raw: Json)
    requires ValidatePolicy(raw).Some?
    ensures var p := ValidatePolicy(raw).value;
            ValidPolicy(p) && EqualsOne(raw.fields["format_version"])
            && raw == PolicyJson(p, raw.fields["format_version"])
  {
    var p := ValidatePolicy(raw).value;
    var exceptions := raw.fields["exceptions"];
    ValidRootsAreDistinct(raw.fields["roots"]);
    EntriesSpelled(exceptions.fields["functions"], true, p.defaults.maxFunctionCc);
    EntriesSpelled(exceptions.fields["modules"], false, p.defaults.maxModuleLoc);
    var spelled := PolicyJson(p, raw.fields["format_version"]);
    assert exceptions.fields == spelled.fields["exceptions"].fields;
    assert raw.fields["defaults"].fields == spelled.fields["defaults"].fields;
    assert exceptions == spelled.fields["exceptions"];
    assert raw.fields["defaults"] == spelled.fields["defaults"];
    assert raw.fields["roots"] == spelled.fields["roots"];
    assert raw.fields == spelled.fields;
  }

  /** Validation accepts exactly the documents that spell out a valid policy. */
  lemma ValidateIff(raw: Json, p: Policy)
    ensures ValidatePolicy(raw) == Some(p)
       <==> ValidPolicy(p) && exists version :: EqualsOne(version) && raw == PolicyJson(p, version)
  {
    hide *;
    if ValidatePolicy(raw) == Some(p) {
      AcceptedIsSpelled(raw);
    }
    if ValidPolicy(p) && exists version :: EqualsOne(version) && raw == PolicyJson(p, version) {
      var version :| EqualsOne(version) && raw == PolicyJson(p, version);
      SpelledPolicyIsAccepted(p, version);
    }
  }
}
