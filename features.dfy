/**
 * The `Require` feature check of the gadget loader: each declared feature is
 * lower-cased, must be one of the supported features, and is recorded under its
 * canonical name (hyphens replaced by underscores); the first unsupported one aborts.
 */
module Features {
  import opened Wrappers
  import opened Text

  /** `GadgetLoader.SUPPORTED_FEATURES`. */
  const SupportedFeatures: seq<string> := ["rpc", "wave", "wave-preview", "setprefs", "dynamic-height"]

  /** The key under which a supported feature is recorded. */
  function Canonical(feature: string): (r: string)
    ensures |r| == |feature|
    ensures forall i :: 0 <= i < |feature| ==> r[i] == (if feature[i] == '-' then '_' else feature[i])
    ensures '-' !in r
  {
    ReplaceAll(feature, '-', '_')
  }

  /** The canonical keys of the hyphenated supported features. */
  lemma CanonicalExamples()
    ensures Canonical("wave-preview") == "wave_preview"
    ensures Canonical("dynamic-height") == "dynamic_height"
    ensures Canonical("rpc") == "rpc"
  {
  }

  /** The `feature` attribute of a `Require` node is absent, or names a supported feature once lower-cased. */
  predicate Accepted(req: Option<string>)
  {
    req.None? || Lower(req.value) in SupportedFeatures
  }

  /**
   * The feature loop over the `feature` attributes of the `Require` nodes, in
   * document order: the set of canonical keys, or the lower-cased name of the
   * first unsupported feature.
   */
  function CollectFeatures(reqs: seq<Option<string>>): Result<set<string>, string>
    decreases |reqs|
  {
    if |reqs| == 0 then Success({})
    else
      match CollectFeatures(reqs[..|reqs| - 1])
      case Failure(f) => Failure(f)
      case Success(keys) =>
        match reqs[|reqs| - 1]
        case None => Success(keys)
        case Some(f) =>
          var feat := Lower(f);
          if feat in SupportedFeatures then Success(keys + {Canonical(feat)})
          else Failure(feat)
  }

  /** Once the loop has failed on a prefix, the whole loop fails with the same feature. */
  lemma {:induction false} FailureSticks(reqs: seq<Option<string>>, i: nat)
    requires i <= |reqs|
    requires CollectFeatures(reqs[..i]).Failure?
    ensures CollectFeatures(reqs) == CollectFeatures(reqs[..i])
    decreases |reqs|
  {
    if i < |reqs| {
      var init := reqs[..|reqs| - 1];
      assert init[..i] == reqs[..i];
      FailureSticks(init, i);
    } else {
      assert reqs[..i] == reqs;
    }
  }

  /**
   * The loop succeeds exactly when every present feature is supported, and then
   * records precisely the canonical names of the present features.
   */
  lemma {:induction false} CollectFeaturesSucceeds(reqs: seq<Option<string>>)
    ensures CollectFeatures(reqs).Success? <==> forall i :: 0 <= i < |reqs| ==> Accepted(reqs[i])
    ensures CollectFeatures(reqs).Success? ==>
      (forall i :: 0 <= i < |reqs| && reqs[i].Some? ==> Canonical(Lower(reqs[i].value)) in CollectFeatures(reqs).value)
    ensures CollectFeatures(reqs).Success? ==>
      (forall k :: k in CollectFeatures(reqs).value ==>
         exists i :: 0 <= i < |reqs| && reqs[i].Some? && k == Canonical(Lower(reqs[i].value)))
    decreases |reqs|
  {
    if |reqs| > 0 {
      var init := reqs[..|reqs| - 1];
      CollectFeaturesSucceeds(init);
      assert forall i :: 0 <= i < |init| ==> init[i] == reqs[i];
    }
  }

  /** Every recorded key is the canonical name of one of the supported features. */
  lemma RecordedKeysSupported(reqs: seq<Option<string>>)
    requires CollectFeatures(reqs).Success?
    ensures forall k :: k in CollectFeatures(reqs).value ==>
      exists f :: f in SupportedFeatures && k == Canonical(f)
  {
    CollectFeaturesSucceeds(reqs);
  }

  /** Position `i` holds the first `Require` whose feature is present and unsupported. */
  predicate FirstUnsupportedAt(reqs: seq<Option<string>>, i: int)
  {
    && 0 <= i < |reqs|
    && !Accepted(reqs[i])
    && forall j :: 0 <= j < i ==> Accepted(reqs[j])
  }

  /** The first unsupported feature aborts the loop, carrying its lower-cased name. */
  lemma {:induction false} FirstUnsupportedFails(reqs: seq<Option<string>>, i: int)
    requires FirstUnsupportedAt(reqs, i)
    ensures CollectFeatures(reqs) == Failure(Lower(reqs[i].value))
  {
    var prefix := reqs[..i];
    CollectFeaturesSucceeds(prefix);
    assert forall j :: 0 <= j < i ==> prefix[j] == reqs[j];
    assert reqs[..i + 1][..i] == prefix;
    assert CollectFeatures(reqs[..i + 1]) == Failure(Lower(reqs[i].value));
    FailureSticks(reqs, i + 1);
  }

  /** A failing loop always has a first unsupported feature, and fails with its name. */
  lemma {:induction false} FailureHasCause(reqs: seq<Option<string>>)
    requires CollectFeatures(reqs).Failure?
    ensures exists i :: FirstUnsupportedAt(reqs, i) && CollectFeatures(reqs).error == Lower(reqs[i].value)
    decreases |reqs|
  {
    var init := reqs[..|reqs| - 1];
    assert forall j :: 0 <= j < |init| ==> init[j] == reqs[j];
    if CollectFeatures(init).Failure? {
      FailureHasCause(init);
      var i :| FirstUnsupportedAt(init, i) && CollectFeatures(init).error == Lower(init[i].value);
      assert FirstUnsupportedAt(reqs, i);
    } else {
      CollectFeaturesSucceeds(init);
      assert FirstUnsupportedAt(reqs, |reqs| - 1);
    }
  }
}
