/**
 * The gadget loader as an object: construction validates a document and fills
 * the fields step by step; `UpdatePrefs` merges overrides into the preferences
 * in place.
 */
module Engine {
  import opened Wrappers
  import opened Text
  import opened Features
  import opened Prefs
  import opened Manifest

  class GadgetLoader {
    var title: string
    var description: Option<string>
    var height: Option<string>
    var author: Option<string>
    var authorEmail: Option<string>
    var features: set<string>
    var prefs: map<string, Pref>
    var content: string

    /** The loader's fields as a value. */
    function State(): Gadget
      reads this
    {
      Gadget(title, description, height, author, authorEmail, features, prefs, content)
    }

    /** Every stored preference descriptor is well formed. */
    predicate Valid()
      reads this
    {
      forall k :: k in prefs ==> WellFormed(prefs[k])
    }

    /** The object as it stands once the title check has passed. */
    constructor (title: string)
      ensures this.title == title
      ensures description == None && height == None && author == None && authorEmail == None
      ensures features == {} && prefs == map[] && content == ""
    {
      this.title := title;
      description, height, author, authorEmail := None, None, None, None;
      features, prefs, content := {}, map[], "";
    }

    /**
     * Construction from a parsed document: the checks run in the source's order
     * and the first failing one is reported; on success the object holds what
     * `Extract` describes.
     */
    static method Load(doc: Document) returns (r: Result<GadgetLoader, LoadError>)
      ensures r.Failure? ==> Extract(doc) == Failure(r.error)
      ensures r.Success? ==> fresh(r.value) && r.value.Valid() && Extract(doc) == Success(r.value.State())
    {
      if doc.rootTag != "Module" {
        return Failure(MissingRoot);
      }
      if |doc.titles| != 1 {
        return Failure(MissingTitle);
      }
      var g := new GadgetLoader(doc.titles[0]);
      g.description := FirstOrNone(doc.descriptions);
      g.height := FirstOrNone(doc.heights);
      g.author := FirstOrNone(doc.authors);
      g.authorEmail := FirstOrNone(doc.authorEmails);
      var unsupported := g.LoadFeatures(doc.required);
      if unsupported.Some? {
        return Failure(UnsupportedFeature(unsupported.value));
      }
      g.LoadPrefs(doc.userPrefs);
      if |doc.contents| != 1 {
        return Failure(MissingContent);
      }
      g.content := doc.contents[0];
      PrefsWellFormed(doc.userPrefs);
      return Success(g);
    }

    /** The feature loop: records each supported feature, stops at the first unsupported one. */
    method LoadFeatures(reqs: seq<Option<string>>) returns (unsupported: Option<string>)
      modifies this`features
      ensures CollectFeatures(reqs).Success? ==> unsupported == None && features == CollectFeatures(reqs).value
      ensures CollectFeatures(reqs).Failure? ==> unsupported == Some(CollectFeatures(reqs).error)
    {
      features := {};
      var i := 0;
      while i < |reqs|
        invariant 0 <= i <= |reqs|
        invariant CollectFeatures(reqs[..i]) == Success(features)
      {
        assert reqs[..i + 1][..i] == reqs[..i];
        if reqs[i].Some? {
          var feat := Lower(reqs[i].value);
          if feat in SupportedFeatures {
            features := features + {Canonical(feat)};
          } else {
            FailureSticks(reqs, i + 1);
            return Some(feat);
          }
        }
        i := i + 1;
      }
      assert reqs[..i] == reqs;
      return None;
    }

    /** The preference loop: stores the normalised descriptor of each named `UserPref`. */
    method LoadPrefs(nodes: seq<Attrs>)
      modifies this`prefs
      ensures prefs == PrefsOf(nodes)
    {
      prefs := map[];
      var i := 0;
      while i < |nodes|
        invariant 0 <= i <= |nodes|
        invariant prefs == PrefsOf(nodes[..i])
      {
        assert nodes[..i + 1][..i] == nodes[..i];
        var pref := nodes[i];
        if Named(pref) {
          prefs := prefs[pref["name"] := Normalize(pref)];
        }
        i := i + 1;
      }
      assert nodes[..i] == nodes;
    }

    /**
     * `update_prefs`: each override sets the `value` of an existing preference or
     * adds a new `string` preference; the overrides are visited in no particular order.
     */
    method UpdatePrefs(data: map<string, string>)
      requires Valid()
      modifies this`prefs
      ensures Valid()
      ensures prefs == Updated(old(prefs), data)
    {
      var remaining := data.Keys;
      while remaining != {}
        invariant remaining <= data.Keys
        invariant prefs == Updated(old(prefs), data - remaining)
        decreases remaining
      {
        var key :| key in remaining;
        if key in prefs {
          prefs := prefs[key := prefs[key]["value" := Str(data[key])]];
        } else {
          prefs := prefs[key := map["datatype" := Str("string"), "value" := Str(data[key])]];
        }
        remaining := remaining - {key};
      }
      assert data - {} == data;
      UpdatedWellFormed(old(prefs), data);
    }
  }
}
