/**
 * User preferences of a gadget: normalisation of one `UserPref` declaration into
 * a descriptor, the preference loop of the loader, and the `update_prefs` merge.
 */
module Prefs {
  import opened Text

  /** A descriptor field: raw text, a list default, or a boolean default. */
  datatype Field = Str(s: string) | StrList(items: seq<string>) | Boolean(b: bool)

  /** The attribute map of a `UserPref` node. */
  type Attrs = map<string, string>

  /** A preference descriptor, the dictionary the loader stores per preference. */
  type Pref = map<string, Field>

  /** `pref.get("name")` is truthy: the name attribute is present and not empty. */
  predicate Named(attrs: Attrs)
  {
    "name" in attrs && attrs["name"] != ""
  }

  /** The datatype a descriptor ends up with: the declared one lower-cased, `string` when undeclared. */
  function DeclaredType(attrs: Attrs): string
  {
    if "datatype" in attrs then Lower(attrs["datatype"]) else "string"
  }

  /** Coercion of a `bool` default: the three literal false forms give false, anything else true. */
  function BoolDefault(v: string): bool
  {
    !(v == "" || Lower(v) == "false" || v == "0")
  }

  /** The datatype a descriptor stores is already lower-case: lower-casing it again changes nothing. */
  lemma StoredDatatypeLowerCase(attrs: Attrs)
    ensures Lower(DeclaredType(attrs)) == DeclaredType(attrs)
  {
    if "datatype" in attrs {
      LowerIdempotent(attrs["datatype"]);
    }
  }

  /** What every stored descriptor satisfies: it has a datatype and no name. */
  predicate WellFormed(p: Pref)
  {
    "datatype" in p && "name" !in p
  }

  /**
   * The per-preference block of the loader: drop `name`, lower-case or default
   * `datatype`, and coerce a `list` or `bool` default.
   */
  function Normalize(attrs: Attrs): (r: Pref)
    ensures WellFormed(r)
    ensures r["datatype"] == Str(DeclaredType(attrs))
    ensures r.Keys == attrs.Keys - {"name"} + {"datatype"}
    ensures forall k :: k in attrs && k != "name" && k != "datatype" && k != "default_value" ==> r[k] == Str(attrs[k])
  {
    var prefmap := map k | k in attrs && k != "name" :: Str(attrs[k]);
    if "datatype" in attrs then
      var dt := Lower(attrs["datatype"]);
      var typed := prefmap["datatype" := Str(dt)];
      if dt == "list" && "default_value" in attrs then
        typed["default_value" := StrList(Split(attrs["default_value"], '|'))]
      else if dt == "bool" && "default_value" in attrs then
        typed["default_value" := Boolean(BoolDefault(attrs["default_value"]))]
      else typed
    else prefmap["datatype" := Str("string")]
  }

  /** A `list` default becomes its `|`-separated pieces; joining them gives back the declared text. */
  lemma ListDefault(attrs: Attrs)
    requires DeclaredType(attrs) == "list" && "default_value" in attrs
    ensures Normalize(attrs)["default_value"].StrList?
    ensures |Normalize(attrs)["default_value"].items| >= 1
    ensures Join(Normalize(attrs)["default_value"].items, '|') == attrs["default_value"]
    ensures forall i :: 0 <= i < |Normalize(attrs)["default_value"].items| ==>
      '|' !in Normalize(attrs)["default_value"].items[i]
  {
    JoinSplit(attrs["default_value"], '|');
  }

  /**
   * A `bool` default becomes false exactly when it is empty, `false` in any
   * letter case, or `0`.
   */
  lemma BoolDefaultCoerced(attrs: Attrs)
    requires DeclaredType(attrs) == "bool" && "default_value" in attrs
    ensures Normalize(attrs)["default_value"].Boolean?
    ensures !Normalize(attrs)["default_value"].b <==>
      var v := attrs["default_value"]; v == "" || Lower(v) == "false" || v == "0"
  {
  }

  /** The default of any other datatype is kept as the declared text. */
  lemma OtherDefaultVerbatim(attrs: Attrs)
    requires DeclaredType(attrs) != "list" && DeclaredType(attrs) != "bool" && "default_value" in attrs
    ensures Normalize(attrs)["default_value"] == Str(attrs["default_value"])
  {
  }

  /** The coercion is a literal comparison: only `""`, `"0"` and case variants of `"false"` are false. */
  lemma BoolDefaultExamples()
    ensures !BoolDefault("0") && !BoolDefault("") && !BoolDefault("False") && !BoolDefault("FALSE")
    ensures BoolDefault("yes") && BoolDefault("true") && BoolDefault(" 0") && BoolDefault("no")
  {
  }

  /**
   * The preference loop over the `UserPref` attribute maps, in document order:
   * unnamed nodes are skipped, a later node overwrites an earlier one of the same name.
   */
  function PrefsOf(nodes: seq<Attrs>): map<string, Pref>
    decreases |nodes|
  {
    if |nodes| == 0 then map[]
    else
      var prefs := PrefsOf(nodes[..|nodes| - 1]);
      var last := nodes[|nodes| - 1];
      if Named(last) then prefs[last["name"] := Normalize(last)] else prefs
  }

  /** Every stored descriptor is well formed. */
  lemma {:induction false} PrefsWellFormed(nodes: seq<Attrs>)
    ensures forall k :: k in PrefsOf(nodes) ==> WellFormed(PrefsOf(nodes)[k])
    decreases |nodes|
  {
    if |nodes| > 0 {
      PrefsWellFormed(nodes[..|nodes| - 1]);
    }
  }

  /** A preference is stored exactly under the names of the named `UserPref` nodes. */
  lemma {:induction false} PrefsKeys(nodes: seq<Attrs>)
    ensures forall k :: k in PrefsOf(nodes) <==>
      exists i :: 0 <= i < |nodes| && Named(nodes[i]) && nodes[i]["name"] == k
    decreases |nodes|
  {
    if |nodes| > 0 {
      var init := nodes[..|nodes| - 1];
      PrefsKeys(init);
      assert forall i :: 0 <= i < |init| ==> init[i] == nodes[i];
    }
  }

  /** The descriptor stored under a name is the normalisation of the last node with that name. */
  lemma {:induction false} PrefsLastWins(nodes: seq<Attrs>, i: int)
    requires 0 <= i < |nodes| && Named(nodes[i])
    requires forall j :: i < j < |nodes| && Named(nodes[j]) ==> nodes[j]["name"] != nodes[i]["name"]
    ensures nodes[i]["name"] in PrefsOf(nodes)
    ensures PrefsOf(nodes)[nodes[i]["name"]] == Normalize(nodes[i])
    decreases |nodes|
  {
    if i < |nodes| - 1 {
      var init := nodes[..|nodes| - 1];
      assert init[i] == nodes[i];
      PrefsLastWins(init, i);
    }
  }

  /** The descriptor that `update_prefs` stores for one override. */
  function SetValue(prefs: map<string, Pref>, key: string, value: string): Pref
  {
    if key in prefs then prefs[key]["value" := Str(value)]
    else map["datatype" := Str("string"), "value" := Str(value)]
  }

  /** The preference map after `update_prefs(data)`; independent of the order the overrides are visited in. */
  function Updated(prefs: map<string, Pref>, data: map<string, string>): map<string, Pref>
  {
    map k | k in prefs.Keys + data.Keys :: if k in data then SetValue(prefs, k, data[k]) else prefs[k]
  }

  /** No preference is ever removed; the overrides' keys are added. */
  lemma UpdatedKeys(prefs: map<string, Pref>, data: map<string, string>)
    ensures Updated(prefs, data).Keys == prefs.Keys + data.Keys
  {
  }

  /** Preferences without an override are unchanged. */
  lemma UpdatedUntouched(prefs: map<string, Pref>, data: map<string, string>, k: string)
    requires k in prefs && k !in data
    ensures Updated(prefs, data)[k] == prefs[k]
  {
  }

  /** For an existing preference only the `value` field changes. */
  lemma UpdatedExisting(prefs: map<string, Pref>, data: map<string, string>, k: string)
    requires k in prefs && k in data
    ensures Updated(prefs, data)[k]["value"] == Str(data[k])
    ensures forall f :: f != "value" ==>
      (f in Updated(prefs, data)[k] <==> f in prefs[k]) &&
      (f in prefs[k] ==> Updated(prefs, data)[k][f] == prefs[k][f])
  {
  }

  /** A new preference gets a `string` datatype and the override as its value, nothing else. */
  lemma UpdatedNew(prefs: map<string, Pref>, data: map<string, string>, k: string)
    requires k !in prefs && k in data
    ensures Updated(prefs, data)[k] == map["datatype" := Str("string"), "value" := Str(data[k])]
  {
  }

  /** Applying the same overrides twice is the same as applying them once. */
  lemma UpdatedIdempotent(prefs: map<string, Pref>, data: map<string, string>)
    ensures Updated(Updated(prefs, data), data) == Updated(prefs, data)
  {
    var once := Updated(prefs, data);
    var twice := Updated(once, data);
    forall k | k in twice
      ensures twice[k] == once[k]
    {
      if k in data {
        if k in prefs {
          assert once[k] == prefs[k]["value" := Str(data[k])];
        }
        assert twice[k] == once[k]["value" := Str(data[k])];
        assert once[k]["value" := Str(data[k])] == once[k];
      }
    }
  }

  /**
   * Successive merges compose: two merges equal one merge of the combined
   * overrides, in which the later override wins on a shared key.
   */
  lemma UpdatedCompose(prefs: map<string, Pref>, first: map<string, string>, second: map<string, string>)
    ensures Updated(Updated(prefs, first), second) == Updated(prefs, first + second)
    ensures forall k :: k in second ==> Updated(Updated(prefs, first), second)[k]["value"] == Str(second[k])
  {
    var twice := Updated(Updated(prefs, first), second);
    var once := Updated(prefs, first + second);
    forall k | k in twice || k in once
      ensures k in twice && k in once && twice[k] == once[k]
    {
      UpdatedComposeAt(prefs, first, second, k);
    }
  }

  /** One key of the composition law. */
  lemma UpdatedComposeAt(prefs: map<string, Pref>, first: map<string, string>, second: map<string, string>, k: string)
    requires k in Updated(Updated(prefs, first), second) || k in Updated(prefs, first + second)
    ensures k in Updated(Updated(prefs, first), second) && k in Updated(prefs, first + second)
    ensures Updated(Updated(prefs, first), second)[k] == Updated(prefs, first + second)[k]
  {
    var mid := Updated(prefs, first);
    if k in second && k in first {
      assert mid[k] == SetValue(prefs, k, first[k]);
      assert SetValue(mid, k, second[k]) == SetValue(prefs, k, first[k])["value" := Str(second[k])];
    }
  }

  /** Inserting `x` as `5` and then overriding it with `7` changes only its value. */
  lemma UpdatedTwiceExample(prefs: map<string, Pref>)
    requires "x" !in prefs
    ensures Updated(prefs, map["x" := "5"])["x"] == map["datatype" := Str("string"), "value" := Str("5")]
    ensures Updated(Updated(prefs, map["x" := "5"]), map["x" := "7"])["x"] ==
      map["datatype" := Str("string"), "value" := Str("7")]
  {
  }

  /** Merging overrides keeps every descriptor well formed. */
  lemma UpdatedWellFormed(prefs: map<string, Pref>, data: map<string, string>)
    requires forall k :: k in prefs ==> WellFormed(prefs[k])
    ensures forall k :: k in Updated(prefs, data) ==> WellFormed(Updated(prefs, data)[k])
  {
  }
}
