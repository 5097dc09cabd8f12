# GadgetLoader, modelled in Dafny

This project models the gadget loader of the PyGoWave server
(`pygowave_server/engine.py`, class `GadgetLoader`). The loader takes a Google
Wave gadget manifest and checks it. It then extracts:

- the title;
- the optional metadata attributes;
- the set of required platform features;
- the user preferences, each normalised into a descriptor;
- the inline content.

After loading, `update_prefs` merges name→value overrides into the preferences
in place.

The model has six modules, one file each:

- `Wrappers` (`wrappers.dfy`): `Option` and `Result`.
- `Text` (`text.dfy`): the string operations the loader uses. These are
  `lower()`, `split("|")` (with its inverse `Join`) and `replace("-", "_")`.
- `Features` (`features.dfy`): the supported-feature list and the `Require`
  loop, written as a specification function over the declared features.
- `Prefs` (`prefs.dfy`): normalisation of one `UserPref`, the preference loop
  as a specification function, and the `update_prefs` merge as the function
  `Updated`.
- `Manifest` (`manifest.dfy`): the parsed document, the error kinds, and
  `Extract`. `Extract` states the constructor's checks in their fixed order.
  The checks are: root tag, unique title, optional attributes, features,
  preferences, unique content.
- `Engine` (`engine.dfy`): class `GadgetLoader`. Its fields are the loader's
  attributes. `Load` runs the constructor. `LoadFeatures` and `LoadPrefs` build
  `features` and `prefs` step by step in loops. `UpdatePrefs` mutates `prefs`
  in place. Each method is proved equal to the matching specification function.

The XML document is not parsed here. A `Document` record holds what the
loader's XPath queries return:

- the root tag;
- the matches for `title` and for each optional attribute;
- the `feature` attribute (possibly absent) of each `Require` node;
- the attribute map of each `UserPref` node;
- the matches for the `Content` text.

The Python constructor raises `ValueError`. Here `Load` returns
`Failure(MissingRoot | MissingTitle | UnsupportedFeature(f) | MissingContent)`
instead.

Three behaviours of `engine.py` that the model keeps:

- An optional attribute with several matches yields its first match; only an
  attribute with no match is `None` (`__getAttrOrNone`, lines 158-163).
- A `UserPref` whose `name` is the empty string is skipped, like one with no
  name (line 114).
- The boolean default rule is the literal comparison of lines 124-126.

## Model

| member | source | states |
|---|---|---|
| `Text.Lower` | pygowave_server/engine.py:105 | `lower()`: same length, each upper-case letter becomes its lower-case letter, other characters unchanged |
| `Text.ReplaceAll` | pygowave_server/engine.py:107 | `replace(from, to)`: same length, each `from` becomes `to`, other characters unchanged |
| `Text.Split` | pygowave_server/engine.py:121 | `split` on the pipe character yields at least one piece and no piece contains the separator |
| `Text.JoinSplit` | pygowave_server/engine.py:121 | joining the split pieces with the pipe character gives back the original default text (empty pieces kept) |
| `Text.SplitJoin` | pygowave_server/engine.py:121 | splitting a pipe-join of separator-free pieces gives back those pieces, so split is injective |
| `Features.Canonical` | pygowave_server/engine.py:107 | the key is the lower-cased feature with each hyphen replaced by an underscore, so it never contains a hyphen |
| `Features.CanonicalExamples` | pygowave_server/engine.py:70-107 | `wave-preview` is recorded as `wave_preview`, `dynamic-height` as `dynamic_height`, `rpc` as itself |
| `Features.FailureSticks` | pygowave_server/engine.py:102-109 | once the feature loop has raised on a prefix of the `Require` nodes, later nodes do not matter |
| `Features.CollectFeaturesSucceeds` | pygowave_server/engine.py:101-109 | the loop succeeds iff every present feature is supported once lower-cased; it then records exactly the canonical names of the present features, ignoring nodes without a feature and collapsing repeats |
| `Features.RecordedKeysSupported` | pygowave_server/engine.py:70-107 | every recorded key is some entry of `SUPPORTED_FEATURES` with `-` replaced by `_` |
| `Features.FirstUnsupportedFails` | pygowave_server/engine.py:102-109 | the first present, unsupported feature aborts the loop with its lower-cased name |
| `Features.FailureHasCause` | pygowave_server/engine.py:102-109 | every failure of the loop names the lower-cased feature of the first unsupported `Require` |
| `Prefs.Normalize` | pygowave_server/engine.py:114-131 | a descriptor has a datatype and no name, its keys are the declared attributes minus `name` plus `datatype`, its datatype is the lower-cased declared one or `string`, and other attributes pass through as text |
| `Prefs.ListDefault` | pygowave_server/engine.py:119-121 | a `list` default becomes at least one separator-free piece, and the pipe-join of the pieces is the declared default (so an empty default gives one empty piece) |
| `Prefs.StoredDatatypeLowerCase` | pygowave_server/engine.py:117-131 | the stored datatype is already lower-case, whether declared or defaulted to `string` |
| `Prefs.BoolDefaultCoerced` | pygowave_server/engine.py:122-129 | a `bool` default becomes false exactly when it is `""`, `false` in any case, or `"0"`, and true otherwise |
| `Prefs.OtherDefaultVerbatim` | pygowave_server/engine.py:117-131 | for any other datatype the default is kept as the declared text |
| `Prefs.BoolDefaultExamples` | pygowave_server/engine.py:124-129 | `"0"`, `""`, `"False"`, `"FALSE"` give false; `"yes"`, `"true"`, `" 0"`, `"no"` give true |
| `Prefs.PrefsWellFormed` | pygowave_server/engine.py:112-132 | every stored descriptor has a `datatype` and no `name` |
| `Prefs.PrefsKeys` | pygowave_server/engine.py:113-132 | a preference is stored under a key iff some `UserPref` carries that non-empty name |
| `Prefs.PrefsLastWins` | pygowave_server/engine.py:113-132 | the descriptor under a name is the normalisation of the last `UserPref` with that name |
| `Prefs.UpdatedKeys` | pygowave_server/engine.py:146-153 | merging never removes a preference and adds exactly the override keys |
| `Prefs.UpdatedUntouched` | pygowave_server/engine.py:146 | preferences without an override are unchanged |
| `Prefs.UpdatedExisting` | pygowave_server/engine.py:147-148 | for an existing preference only `value` changes; datatype, default and other attributes stay |
| `Prefs.UpdatedNew` | pygowave_server/engine.py:149-153 | a new key gets exactly `{datatype: "string", value}` |
| `Prefs.UpdatedIdempotent` | pygowave_server/engine.py:146-153 | applying the same overrides twice equals applying them once |
| `Prefs.UpdatedCompose` | pygowave_server/engine.py:146-153 | two successive merges equal one merge of the combined overrides, in which the later value wins on a shared key |
| `Prefs.UpdatedTwiceExample` | pygowave_server/engine.py:146-153 | inserting `x=5` then overriding with `x=7` changes only the value |
| `Prefs.UpdatedWellFormed` | pygowave_server/engine.py:146-153 | merging keeps every descriptor's datatype and adds no name |
| `Manifest.FirstOrNone` | pygowave_server/engine.py:158-163 | an optional attribute is `None` iff it has no match, otherwise its first match |
| `Manifest.RootCheckedFirst` | pygowave_server/engine.py:88-89 | a root tag other than `Module` fails with MissingRoot before any other check |
| `Manifest.ExtractSucceeds` | pygowave_server/engine.py:88-139 | loading succeeds iff root is `Module`, one title, all features supported and one content text; title and content are then those matches |
| `Manifest.TitleMustBeUnique` | pygowave_server/engine.py:92-94 | zero or several titles fail with MissingTitle |
| `Manifest.ContentMustBeUnique` | pygowave_server/engine.py:135-137 | zero or several content texts fail with MissingContent once the earlier checks pass |
| `Manifest.UnsupportedFeatureFirst` | pygowave_server/engine.py:100-137 | the first unsupported feature is reported, with its lower-cased name, whatever the content section holds |
| `Manifest.OptionalAttributes` | pygowave_server/engine.py:97-98 | each optional attribute is its first match or `None`; their absence never makes loading fail |
| `Manifest.LoadedGadgetInvariants` | pygowave_server/engine.py:100-132 | a loaded gadget has only canonical supported feature keys and only well-formed descriptors |
| `Engine.GadgetLoader.Load` | pygowave_server/engine.py:88-139 | construction fails with exactly the error `Extract` gives, or yields a fresh loader whose fields are `Extract`'s gadget and whose descriptors are well formed |
| `Engine.GadgetLoader.LoadFeatures` | pygowave_server/engine.py:101-109 | the loop leaves `features` equal to `CollectFeatures`, or reports the unsupported feature it gives |
| `Engine.GadgetLoader.LoadPrefs` | pygowave_server/engine.py:112-132 | the loop leaves `prefs` equal to `PrefsOf` of the `UserPref` nodes |
| `Engine.GadgetLoader.UpdatePrefs` | pygowave_server/engine.py:141-153 | the new `prefs` is `Updated(old prefs, data)` whatever order the overrides are visited in, and descriptors stay well formed |

## Left out

- Downloading the manifest with `urllib2` (lines 81-86) is network I/O. `Load` takes the document instead.
- Parsing XML and evaluating XPath with `lxml.etree` (lines 85, 92, 102, 113, 135, 159) is a foreign library. The `Document` record stands for the query results.
- A malformed document or a failed download raises before any check runs. The model starts from a parsed document, so these errors have no counterpart.
- Translating error messages with `ugettext_lazy` is localisation. The `LoadError` datatype replaces the message strings.
- `prefs_json` (lines 155-156) only calls `simplejson.dumps`, so the serialisation round trip is not modelled.
- The `Event` class (lines 27-66) is a flat record stamped with the wall clock and has no decision logic. The imported `Wave`, `Wavelet` and `Blip` models are unused by the loader.
- Text.Lower: lower-cases ASCII letters only. Python's `unicode.lower()` also maps other scripts. This matters only for non-ASCII feature, datatype or default texts.
- Engine.GadgetLoader.UpdatePrefs: override values are strings. Line 148 stores the raw value and line 152 stores `unicode(value)`; for text values the two agree.
- `features` is a set of keys. The Python dictionary maps each key to `True` and to nothing else.
- Engine.GadgetLoader.LoadFeatures: on failure, the partly filled `features` of the discarded object is not described. The Python object is never returned in that case either.
- Insertion order of the preference dictionary is not modelled, because `map` is unordered. Python 2 dictionaries do not keep it either.
