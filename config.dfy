/**
 * The application's configuration constants, and the key names the analysis
 * prompt asks the hosted model to use in its JSON reply.
 */
module Config {
  import opened Text

  /** Upload size ceiling in bytes (5 MiB). */
  const MaxImageSize: nat := 5 * 1024 * 1024

  /** File extensions the uploader and the validator accept. */
  const SupportedFormats: seq<string> := ["jpg", "jpeg", "png"]

  /** The five traits, in the order the radar chart walks them. */
  const PersonalityTraits: seq<string> :=
    ["Openness", "Conscientiousness", "Extraversion", "Agreeableness", "Emotional Stability"]

  /** Trait name to description; a Python dict keeps insertion order, so a sequence of pairs. */
  const TraitDescriptions: seq<(string, string)> := [
    ("Openness", "Openness reflects curiosity, creativity, and preference for variety and novelty."),
    ("Conscientiousness", "Conscientiousness indicates organization, discipline, responsibility, and achievement-orientation."),
    ("Extraversion", "Extraversion relates to sociability, assertiveness, talkativeness, and excitement-seeking."),
    ("Agreeableness", "Agreeableness encompasses kindness, cooperation, warmth, and consideration for others."),
    ("Emotional Stability", "Emotional Stability reflects calm, composure, and resilience in the face of stress or challenges.")
  ]

  /** Feature name to description, in display order. */
  const HandwritingFeatures: seq<(string, string)> := [
    ("Size", "The overall size of letters"),
    ("Slant", "The angle or tilt of the letters"),
    ("Pressure", "The darkness and thickness of the strokes"),
    ("Spacing", "The distance between letters and words"),
    ("Baseline", "How the text aligns horizontally"),
    ("Margins", "The space left at the edges of the page")
  ]

  /** Keys of the "features" object the analysis prompt asks the model to return. */
  const RequestedFeatureKeys: seq<string> := ["size", "slant", "pressure", "spacing", "baseline", "margins"]

  /** Keys of the "traits" object the analysis prompt asks the model to return. */
  const RequestedTraitKeys: seq<string> :=
    ["openness", "conscientiousness", "extraversion", "agreeableness", "emotional_stability"]

  function Keys(pairs: seq<(string, string)>): (ks: seq<string>)
    ensures |ks| == |pairs|
    ensures forall i :: 0 <= i < |pairs| ==> ks[i] == pairs[i].0
  {
    if pairs == [] then [] else [pairs[0].0] + Keys(pairs[1..])
  }

  function LowerAll(names: seq<string>): (r: seq<string>)
    ensures |r| == |names|
    ensures forall i :: 0 <= i < |names| ==> r[i] == Lower(names[i])
  {
    if names == [] then [] else [Lower(names[0])] + LowerAll(names[1..])
  }

  predicate Distinct(names: seq<string>) {
    forall i, j :: 0 <= i < j < |names| ==> names[i] != names[j]
  }

  lemma MaxImageSizeIsFiveMiB()
    ensures MaxImageSize == 5242880
  {
  }

  /** Every accepted extension is already lower case, so comparing a lower-cased extension is sound. */
  lemma SupportedFormatsAreLowerCase()
    ensures |SupportedFormats| == 3
    ensures forall i :: 0 <= i < |SupportedFormats| ==> Lower(SupportedFormats[i]) == SupportedFormats[i]
  {
    forall i | 0 <= i < |SupportedFormats| ensures Lower(SupportedFormats[i]) == SupportedFormats[i] {
      LowerFixedPoint(SupportedFormats[i]);
    }
  }

  /** Five distinct trait names. */
  lemma PersonalityTraitsDistinct()
    ensures |PersonalityTraits| == 5 && Distinct(PersonalityTraits)
  {
  }

  /** The description table is keyed by exactly the trait names, in the same order. */
  lemma TraitDescriptionsCoverTraits()
    ensures Keys(TraitDescriptions) == PersonalityTraits
  {
  }

  /** The lower-cased feature names are exactly the feature keys the prompt requests, in order. */
  lemma FeatureNamesMatchRequestedKeys()
    ensures |HandwritingFeatures| == |RequestedFeatureKeys|
    ensures forall i :: 0 <= i < |HandwritingFeatures| ==> Lower(HandwritingFeatures[i].0) == RequestedFeatureKeys[i]
  {
    assert Lower("Size") == "size" && Lower("Slant") == "slant" && Lower("Pressure") == "pressure";
    assert Lower("Spacing") == "spacing" && Lower("Baseline") == "baseline" && Lower("Margins") == "margins";
  }

  /** The fifth trait lower-cases to "emotional stability", with a space, while the prompt asks
      for "emotional_stability", with an underscore: no reply in the requested shape matches it. */
  lemma EmotionalStabilityKeyMismatch()
    ensures Lower(PersonalityTraits[4]) !in RequestedTraitKeys
    ensures forall i :: 0 <= i < 4 ==> Lower(PersonalityTraits[i]) == RequestedTraitKeys[i]
  {
    var k := Lower(PersonalityTraits[4]);
    assert |k| == 19 && k[9] == ' ';
    assert RequestedTraitKeys[4][9] == '_';
  }
}
