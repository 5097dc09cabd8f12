/**
 * Validation and extraction of a gadget manifest. The XML document is abstracted
 * as the results of the XPath queries the loader runs on it.
 */
module Manifest {
  import opened Wrappers
  import opened Features
  import opened Prefs

  /** What the loader's queries return on a parsed gadget document. */
  datatype Document = Document(
    rootTag: string,                 // tag of the document's root element
    titles: seq<string>,             // //ModulePrefs/attribute::title
    descriptions: seq<string>,       // //ModulePrefs/attribute::description
    heights: seq<string>,            // //ModulePrefs/attribute::height
    authors: seq<string>,            // //ModulePrefs/attribute::author
    authorEmails: seq<string>,       // //ModulePrefs/attribute::author_email
    required: seq<Option<string>>,   // the feature attribute of each //ModulePrefs/Require
    userPrefs: seq<Attrs>,           // the attribute map of each //UserPref
    contents: seq<string>)           // //Content/text()

  /** Why a document is not a valid gadget. */
  datatype LoadError = MissingRoot | MissingTitle | UnsupportedFeature(feature: string) | MissingContent

  /** The loader's state after a successful construction. */
  datatype Gadget = Gadget(
    title: string,
    description: Option<string>,
    height: Option<string>,
    author: Option<string>,
    authorEmail: Option<string>,
    features: set<string>,
    prefs: map<string, Pref>,
    content: string)

  /** `__getAttrOrNone`: the first match of an optional attribute, `None` when there is none. */
  function FirstOrNone(matches: seq<string>): (r: Option<string>)
    ensures r.None? <==> |matches| == 0
    ensures r.Some? ==> r.value == matches[0]
  {
    if |matches| > 0 then Some(matches[0]) else None
  }

  /** The constructor's checks, in their fixed order, and the state they build. */
  function Extract(doc: Document): Result<Gadget, LoadError>
  {
    if doc.rootTag != "Module" then Failure(MissingRoot)
    else if |doc.titles| != 1 then Failure(MissingTitle)
    else
      match CollectFeatures(doc.required)
      case Failure(f) => Failure(UnsupportedFeature(f))
      case Success(features) =>
        if |doc.contents| != 1 then Failure(MissingContent)
        else Success(Gadget(
          doc.titles[0],
          FirstOrNone(doc.descriptions), FirstOrNone(doc.heights),
          FirstOrNone(doc.authors), FirstOrNone(doc.authorEmails),
          features, PrefsOf(doc.userPrefs), doc.contents[0]))
  }

  /** A root other than `Module` is rejected before anything else is looked at. */
  lemma RootCheckedFirst(doc: Document)
    requires doc.rootTag != "Module"
    ensures Extract(doc) == Failure(MissingRoot)
  {
  }

  /**
   * Loading succeeds exactly when the root is `Module`, there is one title, every
   * declared feature is supported and there is one content text; the title and
   * content are then those single matches.
   */
  lemma ExtractSucceeds(doc: Document)
    ensures Extract(doc).Success? <==>
      && doc.rootTag == "Module"
      && |doc.titles| == 1
      && (forall i :: 0 <= i < |doc.required| ==> Accepted(doc.required[i]))
      && |doc.contents| == 1
    ensures Extract(doc).Success? ==>
      Extract(doc).value.title == doc.titles[0] && Extract(doc).value.content == doc.contents[0]
  {
    CollectFeaturesSucceeds(doc.required);
  }

  /** Zero or several titles give MissingTitle once the root is right. */
  lemma TitleMustBeUnique(doc: Document)
    requires doc.rootTag == "Module" && |doc.titles| != 1
    ensures Extract(doc) == Failure(MissingTitle)
  {
  }

  /** Zero or several content texts give MissingContent when everything checked before it passed. */
  lemma ContentMustBeUnique(doc: Document)
    requires doc.rootTag == "Module" && |doc.titles| == 1
    requires forall i :: 0 <= i < |doc.required| ==> Accepted(doc.required[i])
    requires |doc.contents| != 1
    ensures Extract(doc) == Failure(MissingContent)
  {
    CollectFeaturesSucceeds(doc.required);
  }

  /**
   * The first unsupported feature is reported with its lower-cased name, whatever
   * the content section holds: the feature check runs before the content check.
   */
  lemma UnsupportedFeatureFirst(doc: Document, i: int)
    requires doc.rootTag == "Module" && |doc.titles| == 1
    requires FirstUnsupportedAt(doc.required, i)
    ensures Extract(doc) == Failure(UnsupportedFeature(Text.Lower(doc.required[i].value)))
  {
    FirstUnsupportedFails(doc.required, i);
  }

  /**
   * Optional attributes never cause an error: each is the first of its matches or
   * `None`, and several matches still give the first one.
   */
  lemma OptionalAttributes(doc: Document)
    requires Extract(doc).Success?
    ensures Extract(doc).value.description == (if |doc.descriptions| > 0 then Some(doc.descriptions[0]) else None)
    ensures Extract(doc).value.height == (if |doc.heights| > 0 then Some(doc.heights[0]) else None)
    ensures Extract(doc).value.author == (if |doc.authors| > 0 then Some(doc.authors[0]) else None)
    ensures Extract(doc).value.authorEmail == (if |doc.authorEmails| > 0 then Some(doc.authorEmails[0]) else None)
    ensures Extract(doc.(descriptions := [], heights := [], authors := [], authorEmails := [])).Success?
  {
  }

  /**
   * A loaded gadget records only canonical names of supported features, and every
   * stored preference has a datatype and no name.
   */
  lemma LoadedGadgetInvariants(doc: Document)
    requires Extract(doc).Success?
    ensures forall k :: k in Extract(doc).value.features ==>
      exists f :: f in SupportedFeatures && k == Canonical(f)
    ensures forall k :: k in Extract(doc).value.prefs ==> WellFormed(Extract(doc).value.prefs[k])
  {
    RecordedKeysSupported(doc.required);
    PrefsWellFormed(doc.userPrefs);
  }
}
