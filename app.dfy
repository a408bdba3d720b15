/**
 * The logic of the Streamlit front end: the user-agent check, the assembly of the radar
 * chart's trait list and of the feature cards from an analysis record, and the session
 * state the handlers update. Rendering is not part of this model.
 */
module App {
  import opened Wrappers
  import opened Text
  import Config
  import Utils
  import Base64
  import opened GeminiHandler

  // ---------------------------------------------------------------------------
  // Device detection

  const MobileMarkers: seq<string> := ["mobile", "android", "iphone", "ipad", "ipod"]

  /** Whether a user agent, lower-cased, contains one of the markers. */
  predicate AgentIsMobile(agent: string)
    ensures AgentIsMobile(agent) ==> |agent| >= 4
  {
    exists i | 0 <= i < |MobileMarkers| :: Contains(Lower(agent), MobileMarkers[i])
  }

  /** `is_mobile`: the first "user_agent" query value, or "" when the parameter is absent,
      is tested; the `IndexError` of an empty value list is caught and answers false. */
  function IsMobile(query: map<string, seq<string>>): (r: bool)
    ensures r ==> "user_agent" in query && query["user_agent"] != []
    ensures r <==> "user_agent" in query && query["user_agent"] != [] && AgentIsMobile(query["user_agent"][0])
  {
    if "user_agent" !in query then AgentIsMobile("")
    else if query["user_agent"] == [] then false
    else AgentIsMobile(query["user_agent"][0])
  }

  /** The check ignores case: an agent and its lower-cased form are classified alike. */
  lemma IsMobileIgnoresCase(agent: string)
    ensures IsMobile(map["user_agent" := [agent]]) == IsMobile(map["user_agent" := [Lower(agent)]])
  {
    LowerFixedPoint(Lower(agent));
  }

  /** An iPhone agent written in mixed case is recognised. */
  lemma IPhoneAgentIsMobile()
    ensures IsMobile(map["user_agent" := ["Mozilla (iPhone)"]])
  {
    var agent := Lower("Mozilla (iPhone)");
    assert agent[9..15] == "iphone";
    assert OccursAt(agent, MobileMarkers[2], 9);
  }

  /** Without a usable user agent the page is laid out for the desktop. */
  lemma MissingAgentIsDesktop(query: map<string, seq<string>>)
    requires "user_agent" !in query || query["user_agent"] == []
    ensures !IsMobile(query)
  {
  }

  // ---------------------------------------------------------------------------
  // Radar chart trait list

  /** Why rendering the radar chart raises:
      - `analysis_result["traits"]` is missing, or the record is not a dict: NoTraitsField;
      - the traits value is not a dict, and a `trait_key in ...` test raises TypeError, or
        finds the key so that the subscript after it raises TypeError: TraitsNotDict;
      - a matched trait has no "score": NoScore;
      - no trait matched, so `trait_names[0]` raises IndexError: NoTraitMatched. */
  datatype RadarError = NoTraitsField | TraitsNotDict | NoScore(name: string) | NoTraitMatched

  datatype Radar = Chart(names: seq<string>, scores: seq<Json>) | NoChart | Crashed(error: RadarError)

  /** The state of the collecting loop: the lists so far, or the trait whose lookup raised. */
  datatype Collected = Collected(names: seq<string>, scores: seq<Json>) | Stopped(name: string)

  /** `analysis_result[key]`, which raises unless the record is a dict holding `key`. */
  function Field(result: Json, key: string): (v: Option<Json>)
    ensures v.Some? <==> result.JObject? && key in result.fields
    ensures v.Some? ==> v.value == result.fields[key]
  {
    if result.JObject? && key in result.fields then Some(result.fields[key]) else None
  }

  /** `analysis_result[key]` when it is a dict. */
  function ObjectField(result: Json, key: string): (t: Option<map<string, Json>>)
    ensures t.Some? <==> Field(result, key).Some? && Field(result, key).value.JObject?
    ensures t.Some? ==> t.value == Field(result, key).value.fields
  {
    match Field(result, key)
    case Some(JObject(fields)) => Some(fields)
    case _ => None
  }

  function TraitsOf(result: Json): Option<map<string, Json>> {
    ObjectField(result, "traits")
  }

  /** Python's `key in v` on a decoded JSON value: a dict tests its keys, a list its
      elements and a string its substrings; `None` where the test raises TypeError (a
      number, a boolean or null). */
  function InTest(key: string, v: Json): (r: Option<bool>)
    ensures r.None? <==> v.JNull? || v.JBool? || v.JNumber?
    ensures v.JObject? ==> r == Some(key in v.fields)
    ensures v.JArray? ==> r == Some(exists i :: 0 <= i < |v.items| && v.items[i] == JString(key))
    ensures v.JString? ==> r == Some(Contains(v.s, key))
  {
    match v
    case JObject(fields) => Some(key in fields)
    case JArray(items) => Some(JString(key) in items)
    case JString(text) => Some(Contains(text, key))
    case _ => None
  }

  /** Every test `keys[j] in v` of a loop answers False: the loop neither raises nor
      subscripts `v`. */
  predicate NoneFound(v: Json, keys: seq<string>) {
    forall j :: 0 <= j < |keys| ==> InTest(keys[j], v) == Some(false)
  }

  /** `trait_data["score"]` when it does not raise. */
  function ScoreOf(data: Json): (s: Option<Json>)
    ensures s.Some? <==> data.JObject? && "score" in data.fields
    ensures s.Some? ==> s.value == data.fields["score"]
  {
    if data.JObject? && "score" in data.fields then Some(data.fields["score"]) else None
  }

  /** The loop over the first `n` traits, looking each up under the parallel key. */
  function Collect(traits: map<string, Json>, names: seq<string>, keys: seq<string>, n: nat): (c: Collected)
    requires |names| == |keys| && n <= |names|
    ensures c.Collected? ==> |c.names| == |c.scores| <= n
  {
    if n == 0 then Collected([], [])
    else match Collect(traits, names, keys, n - 1)
      case Stopped(t) => Stopped(t)
      case Collected(ns, ss) =>
        if keys[n - 1] !in traits then Collected(ns, ss)
        else match ScoreOf(traits[keys[n - 1]])
          case None => Stopped(names[n - 1])
          case Some(s) => Collected(ns + [names[n - 1]], ss + [s])
  }

  /** Reference definition of the filter: the positions, among the first `n`, whose key is
      present, in increasing order. */
  function MatchIndices(traits: map<string, Json>, keys: seq<string>, n: nat): (idx: seq<nat>)
    requires n <= |keys|
    ensures forall i :: 0 <= i < |idx| ==> idx[i] < n && keys[idx[i]] in traits
    ensures forall i, j :: 0 <= i < j < |idx| ==> idx[i] < idx[j]
    ensures forall j :: 0 <= j < n && keys[j] in traits ==> j in idx
  {
    if n == 0 then []
    else MatchIndices(traits, keys, n - 1) + (if keys[n - 1] in traits then [n - 1] else [])
  }

  /** Once a lookup has raised, the later iterations are never reached. */
  lemma {:induction false} StoppedStaysStopped(traits: map<string, Json>, names: seq<string>, keys: seq<string>, i: nat, n: nat)
    requires |names| == |keys| && i <= n <= |names|
    requires Collect(traits, names, keys, i).Stopped?
    ensures Collect(traits, names, keys, n) == Collect(traits, names, keys, i)
    decreases n - i
  {
    if i < n {
      StoppedStaysStopped(traits, names, keys, i, n - 1);
    }
  }

  /** When the loop completes, the names are the filtered names in order and each score is
      the "score" entry of the trait's data. */
  lemma {:induction false} CollectFilters(traits: map<string, Json>, names: seq<string>, keys: seq<string>, n: nat)
    requires |names| == |keys| && n <= |names|
    requires Collect(traits, names, keys, n).Collected?
    ensures var c := Collect(traits, names, keys, n);
      var idx := MatchIndices(traits, keys, n);
      |c.names| == |idx| && |c.scores| == |idx|
      && forall i :: 0 <= i < |idx| ==>
           c.names[i] == names[idx[i]] && ScoreOf(traits[keys[idx[i]]]) == Some(c.scores[i])
  {
    if n > 0 && Collect(traits, names, keys, n - 1).Collected? {
      CollectFilters(traits, names, keys, n - 1);
    }
  }

  /** When every present key has a score, the loop runs to completion. */
  lemma {:induction false} CollectCompletes(traits: map<string, Json>, names: seq<string>, keys: seq<string>, n: nat)
    requires |names| == |keys| && n <= |names|
    requires forall j :: 0 <= j < n && keys[j] in traits ==> ScoreOf(traits[keys[j]]).Some?
    ensures Collect(traits, names, keys, n).Collected?
  {
    if n > 0 {
      CollectCompletes(traits, names, keys, n - 1);
    }
  }

  /** Nothing is collected from an empty traits dict. */
  lemma {:induction false} CollectNothing(names: seq<string>, keys: seq<string>, n: nat)
    requires |names| == |keys| && n <= |names|
    ensures Collect(map[], names, keys, n) == Collected([], [])
  {
    if n > 0 {
      CollectNothing(names, keys, n - 1);
    }
  }

  /** When no key is present the loop collects nothing, whatever the traits hold. */
  lemma {:induction false} CollectNoMatch(traits: map<string, Json>, names: seq<string>, keys: seq<string>, n: nat)
    requires |names| == |keys| && n <= |names|
    requires MatchIndices(traits, keys, n) == []
    ensures Collect(traits, names, keys, n) == Collected([], [])
  {
    if n > 0 {
      assert MatchIndices(traits, keys, n - 1) == [] && keys[n - 1] !in traits;
      CollectNoMatch(traits, names, keys, n - 1);
    }
  }

  /** The keys the chart looks traits up under: each name lower-cased. */
  const TraitLookupKeys: seq<string> := Config.LowerAll(Config.PersonalityTraits)

  /** How the trait loop over `keys` ends when `analysis_result["traits"]` is not a dict:
      the lookup itself raises, or the `in` tests raise or find a key whose subscript raises,
      or every test answers False and nothing is collected. */
  function TraitsError(result: Json, keys: seq<string>): (e: RadarError)
    requires TraitsOf(result).None?
    ensures e == NoTraitsField <==> Field(result, "traits").None?
    ensures e == NoTraitMatched <==> Field(result, "traits").Some? && NoneFound(Field(result, "traits").value, keys)
    ensures e.NoTraitsField? || e.TraitsNotDict? || e.NoTraitMatched?
  {
    match Field(result, "traits")
    case None => NoTraitsField
    case Some(v) => if NoneFound(v, keys) then NoTraitMatched else TraitsNotDict
  }

  /** The radar lists as the page builds them: closed by repeating the first entry. */
  function RadarOf(result: Json): (r: Radar)
    ensures r != NoChart
    ensures r.Chart? ==> TraitsOf(result).Some?
    ensures r == Crashed(NoTraitsField) <==> Field(result, "traits").None?
    ensures TraitsOf(result).None? && Field(result, "traits").Some? ==>
      (r == Crashed(NoTraitMatched) <==> NoneFound(Field(result, "traits").value, TraitLookupKeys))
  {
    match TraitsOf(result)
    case None => Crashed(TraitsError(result, TraitLookupKeys))
    case Some(traits) =>
      match Collect(traits, Config.PersonalityTraits, TraitLookupKeys, |Config.PersonalityTraits|)
      case Stopped(t) => Crashed(NoScore(t))
      case Collected(ns, ss) =>
        if ns == [] then Crashed(NoTraitMatched) else Chart(ns + [ns[0]], ss + [ss[0]])
  }

  /** The loop of the results page over `order`: each trait is looked up under its
      lower-cased name, and a found trait's name and score are appended to two lists. */
  method CollectScores(traits: map<string, Json>, order: seq<string>) returns (c: Collected)
    ensures c == Collect(traits, order, Config.LowerAll(order), |order|)
  {
    ghost var keys := Config.LowerAll(order);
    var names: seq<string> := [];
    var scores: seq<Json> := [];
    for i := 0 to |order|
      invariant Collect(traits, order, keys, i) == Collected(names, scores)
    {
      var key := Lower(order[i]);
      assert key == keys[i];
      if key in traits {
        var score := ScoreOf(traits[key]);
        if score.None? {
          assert Collect(traits, order, keys, i + 1) == Stopped(order[i]);
          StoppedStaysStopped(traits, order, keys, i + 1, |order|);
          return Stopped(order[i]);
        }
        names := names + [order[i]];
        scores := scores + [score.value];
      }
    }
    c := Collected(names, scores);
  }

  /** The radar lists of the results page: collected, then closed by repeating the first entry. */
  method BuildRadar(result: Json) returns (r: Radar)
    ensures r == RadarOf(result)
  {
    var found := TraitsOf(result);
    if found.None? {
      return Crashed(TraitsError(result, TraitLookupKeys));
    }
    var c := CollectScores(found.value, Config.PersonalityTraits);
    match c
    case Stopped(name) =>
      r := Crashed(NoScore(name));
    case Collected(names, scores) =>
      if |names| == 0 {
        r := Crashed(NoTraitMatched);
      } else {
        r := Chart(names + [names[0]], scores + [scores[0]]);
      }
  }

  /** A chart holds the matched traits in trait order with their scores, and one more entry
      repeating the first so that the polygon closes. */
  lemma RadarChartShape(result: Json)
    requires RadarOf(result).Chart?
    ensures var r := RadarOf(result);
      var idx := MatchIndices(TraitsOf(result).value, TraitLookupKeys, 5);
      |r.names| == |r.scores| == |idx| + 1 >= 2
      && r.names[|r.names| - 1] == r.names[0] && r.scores[|r.scores| - 1] == r.scores[0]
      && forall i :: 0 <= i < |idx| ==>
           r.names[i] == Config.PersonalityTraits[idx[i]]
           && ScoreOf(TraitsOf(result).value[Lower(Config.PersonalityTraits[idx[i]])]) == Some(r.scores[i])
  {
    CollectFilters(TraitsOf(result).value, Config.PersonalityTraits, TraitLookupKeys, 5);
  }

  /** A trait is on the chart exactly when its lower-cased name is a key of the traits dict. */
  lemma RadarMembership(result: Json, j: nat)
    requires RadarOf(result).Chart? && j < 5
    ensures Config.PersonalityTraits[j] in RadarOf(result).names
            <==> Lower(Config.PersonalityTraits[j]) in TraitsOf(result).value
  {
    var r := RadarOf(result);
    var traits := TraitsOf(result).value;
    var idx := MatchIndices(traits, TraitLookupKeys, 5);
    RadarChartShape(result);
    Config.PersonalityTraitsDistinct();
    if Config.PersonalityTraits[j] in r.names {
      var i :| 0 <= i < |r.names| && r.names[i] == Config.PersonalityTraits[j];
      var i' := if i == |r.names| - 1 then 0 else i;
      assert r.names[i'] == Config.PersonalityTraits[idx[i']];
      assert idx[i'] == j;
    }
    if Lower(Config.PersonalityTraits[j]) in traits {
      assert TraitLookupKeys[j] in traits;
      var i :| 0 <= i < |idx| && idx[i] == j;
      assert r.names[i] == Config.PersonalityTraits[j];
    }
  }

  /** As written: the fallback record of a failed analysis has an empty traits dict, so no
      trait matches and `trait_names[0]` raises. */
  lemma FailedAnalysisCrashesRadar(call: CallOutcome, parse: string -> ParseOutcome)
    requires call.Raised? || parse(StripFences(call.text)).ParseFailed?
    ensures RadarOf(AnalyzeHandwriting(call, parse)) == Crashed(NoTraitMatched)
  {
    CollectNothing(Config.PersonalityTraits, TraitLookupKeys, 5);
  }

  /** For a "traits" dict, `trait_names[0]` raises IndexError exactly when no lower-cased
      trait name is one of its keys; otherwise the page charts or a score lookup raises. */
  lemma RadarNoMatch(result: Json)
    requires TraitsOf(result).Some?
    ensures RadarOf(result) == Crashed(NoTraitMatched)
            <==> MatchIndices(TraitsOf(result).value, TraitLookupKeys, 5) == []
  {
    var traits := TraitsOf(result).value;
    if MatchIndices(traits, TraitLookupKeys, 5) == [] {
      CollectNoMatch(traits, Config.PersonalityTraits, TraitLookupKeys, 5);
    } else if Collect(traits, Config.PersonalityTraits, TraitLookupKeys, 5).Collected? {
      CollectFilters(traits, Config.PersonalityTraits, TraitLookupKeys, 5);
    }
  }

  /** A "traits" list holding no lower-cased trait name as a string collects nothing, so
      `trait_names[0]` raises, as it does for an empty dict. */
  lemma TraitListWithoutKeys(items: seq<Json>)
    requires forall j :: 0 <= j < |TraitLookupKeys| ==> JString(TraitLookupKeys[j]) !in items
    ensures RadarOf(JObject(map["traits" := JArray(items)])) == Crashed(NoTraitMatched)
  {
    var v := JArray(items);
    forall j | 0 <= j < |TraitLookupKeys| ensures InTest(TraitLookupKeys[j], v) == Some(false) {
    }
  }

  /** A "traits" list holding a lower-cased trait name raises: the `in` test finds it and
      the subscript of the list by that name fails. */
  lemma TraitListWithKey(items: seq<Json>, j: nat)
    requires j < |TraitLookupKeys| && JString(TraitLookupKeys[j]) in items
    ensures RadarOf(JObject(map["traits" := JArray(items)])) == Crashed(TraitsNotDict)
  {
    assert InTest(TraitLookupKeys[j], JArray(items)) == Some(true);
  }

  /** A traits dict with exactly the keys the analysis prompt requests, each with a score. */
  ghost predicate RequestedShape(traits: map<string, Json>) {
    (forall k :: k in traits <==> k in Config.RequestedTraitKeys)
    && (forall k :: k in traits ==> ScoreOf(traits[k]).Some?)
  }

  ghost predicate RequestedTraits(result: Json) {
    TraitsOf(result).Some? && RequestedShape(TraitsOf(result).value)
  }

  /** The lower-cased names are the requested keys for the first four traits only. */
  lemma LookupKeysVsRequested()
    ensures |TraitLookupKeys| == 5
    ensures forall j :: 0 <= j < 4 ==> TraitLookupKeys[j] == Config.RequestedTraitKeys[j]
    ensures TraitLookupKeys[4] !in Config.RequestedTraitKeys
  {
    Config.EmotionalStabilityKeyMismatch();
  }

  /** When the first four of five keys are present and the fifth is not, the filter keeps
      the first four positions. */
  lemma FirstFourKept(traits: map<string, Json>, keys: seq<string>)
    requires |keys| == 5
    requires forall j :: 0 <= j < 4 ==> keys[j] in traits
    requires keys[4] !in traits
    ensures MatchIndices(traits, keys, 5) == [0, 1, 2, 3]
  {
    AllPresentKept(traits, keys, 4);
    var m := MatchIndices(traits, keys, 4);
    assert MatchIndices(traits, keys, 5) == m;
    assert m == [0, 1, 2, 3];
  }

  /** Under `name.lower()` only the first four traits find their requested key. */
  lemma LowerKeysMatchFirstFour(traits: map<string, Json>)
    requires RequestedShape(traits)
    ensures MatchIndices(traits, TraitLookupKeys, 5) == [0, 1, 2, 3]
  {
    var keys := TraitLookupKeys;
    var requested := Config.RequestedTraitKeys;
    LookupKeysVsRequested();
    forall j | 0 <= j < 4 ensures keys[j] in traits {
      assert requested[j] in requested;
    }
    FirstFourKept(traits, keys);
  }

  /** A loop whose filter keeps the first four of five positions, each with a score,
      collects the first four names. */
  lemma FirstFourCollected(traits: map<string, Json>, names: seq<string>, keys: seq<string>)
    requires |names| == |keys| == 5
    requires MatchIndices(traits, keys, 5) == [0, 1, 2, 3]
    requires forall j :: 0 <= j < 5 && keys[j] in traits ==> ScoreOf(traits[keys[j]]).Some?
    ensures Collect(traits, names, keys, 5).Collected?
    ensures Collect(traits, names, keys, 5).names == names[..4]
  {
    CollectCompletes(traits, names, keys, 5);
    CollectFilters(traits, names, keys, 5);
    var c := Collect(traits, names, keys, 5);
    assert |c.names| == 4;
    assert forall i :: 0 <= i < 4 ==> c.names[i] == names[i];
  }

  lemma StabilityDropped(traits: map<string, Json>)
    requires RequestedShape(traits)
    ensures Collect(traits, Config.PersonalityTraits, TraitLookupKeys, 5).Collected?
    ensures Collect(traits, Config.PersonalityTraits, TraitLookupKeys, 5).names == Config.PersonalityTraits[..4]
  {
    LowerKeysMatchFirstFour(traits);
    LookupKeysVsRequested();
    FirstFourCollected(traits, Config.PersonalityTraits, TraitLookupKeys);
  }

  /** As written: a reply in exactly the requested shape charts only four traits; "Emotional
      Stability" is looked up as "emotional stability" and never found. */
  lemma RequestedReplyDropsStability(result: Json)
    requires RequestedTraits(result)
    ensures RadarOf(result).Chart?
    ensures RadarOf(result).names == Config.PersonalityTraits[..4] + [Config.PersonalityTraits[0]]
  {
    StabilityDropped(TraitsOf(result).value);
  }

  // ---------------------------------------------------------------------------
  // Corrected radar

  /** The key the analysis prompt uses for a trait: lower case, with spaces as underscores. */
  function TraitKey(name: string): (k: string)
    ensures |k| == |name| && IsLowerCase(k)
    ensures forall i :: 0 <= i < |name| ==> k[i] == (if name[i] == ' ' then '_' else LowerChar(name[i]))
  {
    seq(|name|, i requires 0 <= i < |name| => if name[i] == ' ' then '_' else LowerChar(name[i]))
  }

  function TraitKeys(names: seq<string>): (ks: seq<string>)
    ensures |ks| == |names|
    ensures forall i :: 0 <= i < |names| ==> ks[i] == TraitKey(names[i])
  {
    if names == [] then [] else [TraitKey(names[0])] + TraitKeys(names[1..])
  }

  const FixedLookupKeys: seq<string> := TraitKeys(Config.PersonalityTraits)

  lemma FixedKeysFront()
    ensures |FixedLookupKeys| == 5
    ensures FixedLookupKeys[0] == "openness" && FixedLookupKeys[1] == "conscientiousness"
  {
    assert TraitKey("Openness") == "openness";
    assert TraitKey("Conscientiousness") == "conscientiousness";
  }

  lemma FixedKeysMiddle()
    ensures FixedLookupKeys[2] == "extraversion" && FixedLookupKeys[3] == "agreeableness"
  {
    assert TraitKey("Extraversion") == "extraversion";
    assert TraitKey("Agreeableness") == "agreeableness";
  }

  lemma FixedKeysBack()
    ensures FixedLookupKeys[4] == "emotional_stability"
  {
    assert TraitKey("Emotional Stability") == "emotional_stability";
  }

  /** Under `TraitKey` every trait name maps to the key the prompt requests for it. */
  lemma FixedKeysAreRequested()
    ensures FixedLookupKeys == Config.RequestedTraitKeys
  {
    FixedKeysFront();
    FixedKeysMiddle();
    FixedKeysBack();
  }

  /** The radar with the two defects removed: traits are looked up under `TraitKey`, and a
      record with no matching trait gives no chart instead of raising. */
  function RadarFixed(result: Json): (r: Radar)
    ensures r != Crashed(NoTraitMatched)
    ensures r.Chart? ==> |r.names| >= 2 && r.names[|r.names| - 1] == r.names[0]
  {
    match TraitsOf(result)
    case None =>
      var e := TraitsError(result, FixedLookupKeys);
      if e == NoTraitMatched then NoChart else Crashed(e)
    case Some(traits) =>
      match Collect(traits, Config.PersonalityTraits, FixedLookupKeys, 5)
      case Stopped(t) => Crashed(NoScore(t))
      case Collected(ns, ss) =>
        if ns == [] then NoChart else Chart(ns + [ns[0]], ss + [ss[0]])
  }

  /** Corrected: a failed analysis shows no chart and does not raise. */
  lemma FailedAnalysisHasNoChart(call: CallOutcome, parse: string -> ParseOutcome)
    requires call.Raised? || parse(StripFences(call.text)).ParseFailed?
    ensures RadarFixed(AnalyzeHandwriting(call, parse)) == NoChart
  {
    CollectNothing(Config.PersonalityTraits, FixedLookupKeys, 5);
  }

  /** When every key is present the filter keeps every position. */
  lemma {:induction false} AllPresentKept(traits: map<string, Json>, keys: seq<string>, n: nat)
    requires n <= |keys|
    requires forall j :: 0 <= j < n ==> keys[j] in traits
    ensures |MatchIndices(traits, keys, n)| == n
    ensures forall i :: 0 <= i < n ==> MatchIndices(traits, keys, n)[i] == i
  {
    if n > 0 {
      AllPresentKept(traits, keys, n - 1);
      var m := MatchIndices(traits, keys, n - 1);
      assert MatchIndices(traits, keys, n) == m + [n - 1];
    }
  }

  lemma FixedKeysPresent(traits: map<string, Json>)
    requires RequestedShape(traits)
    ensures forall j :: 0 <= j < 5 ==> FixedLookupKeys[j] in traits
  {
    FixedKeysAreRequested();
    var keys := Config.RequestedTraitKeys;
    assert keys[0] in traits && keys[1] in traits && keys[2] in traits;
    assert keys[3] in traits && keys[4] in traits;
  }

  lemma AllTraitsCollected(traits: map<string, Json>)
    requires RequestedShape(traits)
    ensures Collect(traits, Config.PersonalityTraits, FixedLookupKeys, 5).Collected?
    ensures Collect(traits, Config.PersonalityTraits, FixedLookupKeys, 5).names == Config.PersonalityTraits
  {
    FixedKeysPresent(traits);
    AllPresentKept(traits, FixedLookupKeys, 5);
    CollectCompletes(traits, Config.PersonalityTraits, FixedLookupKeys, 5);
    CollectFilters(traits, Config.PersonalityTraits, FixedLookupKeys, 5);
  }

  /** Corrected: a reply in the requested shape charts all five traits in order, closed. */
  lemma RequestedReplyChartsAllTraits(result: Json)
    requires RequestedTraits(result)
    ensures RadarFixed(result).Chart?
    ensures RadarFixed(result).names == Config.PersonalityTraits + [Config.PersonalityTraits[0]]
  {
    AllTraitsCollected(TraitsOf(result).value);
  }


  // ---------------------------------------------------------------------------
  // Feature cards

  datatype Column = Left | Right

  /** One rendered feature: its display name, the reply's data for it and its column. */
  datatype Card = Card(feature: string, data: Json, column: Column)

  function FeaturesOf(result: Json): Option<map<string, Json>> {
    ObjectField(result, "features")
  }

  /** The keys the feature cards look features up under: each name lower-cased. */
  const FeatureLookupKeys: seq<string> := Config.LowerAll(Config.Keys(Config.HandwritingFeatures))

  /** Feature `i` of `count` goes to the first column when `i < count // 2`. */
  function ColumnOf(i: nat, count: nat): (c: Column)
    ensures c == Left <==> 2 * (i + 1) <= count
  {
    if i < count / 2 then Left else Right
  }

  /** The cards for the first `n` features that the reply covers, looked up by lower-cased
      name, in feature order. */
  function FeatureCards(shown: map<string, Json>, features: seq<(string, string)>, n: nat): (cards: seq<Card>)
    requires n <= |features|
    ensures |cards| <= n
    ensures forall i :: 0 <= i < |cards| ==>
              Lower(cards[i].feature) in shown && cards[i].data == shown[Lower(cards[i].feature)]
    ensures n <= |features| / 2 ==> forall i :: 0 <= i < |cards| ==> cards[i].column == Left
    ensures forall i, j :: 0 <= i < j < |cards| && cards[i].column == Right ==> cards[j].column == Right
  {
    if n == 0 then []
    else
      var name := features[n - 1].0;
      FeatureCards(shown, features, n - 1)
      + (if Lower(name) in shown then [Card(name, shown[Lower(name)], ColumnOf(n - 1, |features|))] else [])
  }

  /** The cards of the results page's second tab, or `None` where the loop raises: the
      lookup `analysis_result["features"]` fails, or the features value is not a dict and a
      `feature_key in ...` test raises or finds a key whose subscript then raises. */
  function FeatureLayout(result: Json): (cards: Option<seq<Card>>)
    ensures FeaturesOf(result).Some? ==> cards.Some?
    ensures cards.Some? <==>
      (FeaturesOf(result).Some?
       || (Field(result, "features").Some? && NoneFound(Field(result, "features").value, FeatureLookupKeys)))
    ensures cards.Some? ==> |cards.value| <= |Config.HandwritingFeatures|
    ensures cards.Some? && FeaturesOf(result).None? ==> cards.value == []
  {
    match Field(result, "features")
    case None => None
    case Some(v) =>
      if v.JObject? then Some(FeatureCards(v.fields, Config.HandwritingFeatures, |Config.HandwritingFeatures|))
      else if NoneFound(v, FeatureLookupKeys) then Some([])
      else None
  }

  /** `c` is the card of feature `j`: its name, the reply's data under its lower-cased name,
      and the column its position in the whole list decides. */
  ghost predicate CardOf(shown: map<string, Json>, features: seq<(string, string)>, c: Card, j: nat) {
    j < |features| && Lower(features[j].0) in shown
    && c == Card(features[j].0, shown[Lower(features[j].0)], ColumnOf(j, |features|))
  }

  /** The cards are those of the features at the positions `idx`, in that order. */
  ghost predicate CardsOf(shown: map<string, Json>, features: seq<(string, string)>, cards: seq<Card>, idx: seq<nat>) {
    |cards| == |idx| && forall i :: 0 <= i < |idx| ==> CardOf(shown, features, cards[i], idx[i])
  }

  lemma CardsOfAppend(shown: map<string, Json>, features: seq<(string, string)>, cards: seq<Card>, idx: seq<nat>, c: Card, j: nat)
    requires CardsOf(shown, features, cards, idx) && CardOf(shown, features, c, j)
    ensures CardsOf(shown, features, cards + [c], idx + [j])
  {
  }

  /** One more feature adds its card exactly when its lower-cased name is a key of the dict. */
  lemma FeatureCardsStep(shown: map<string, Json>, features: seq<(string, string)>, n: nat)
    requires 0 < n <= |features|
    ensures var name := features[n - 1].0;
      FeatureCards(shown, features, n) == FeatureCards(shown, features, n - 1)
        + (if Lower(name) in shown then [Card(name, shown[Lower(name)], ColumnOf(n - 1, |features|))] else [])
  {
  }

  /** One more position is kept exactly when its key is present. */
  lemma MatchIndicesStep(shown: map<string, Json>, keys: seq<string>, n: nat)
    requires 0 < n <= |keys|
    ensures MatchIndices(shown, keys, n)
      == MatchIndices(shown, keys, n - 1) + (if keys[n - 1] in shown then [n - 1] else [])
  {
  }

  /** The filter over `keys`, the lower-cased feature names, picks out the cards. */
  lemma {:induction false} CardsAtMatches(shown: map<string, Json>, features: seq<(string, string)>, keys: seq<string>, n: nat)
    requires n <= |features| == |keys|
    requires forall j :: 0 <= j < |keys| ==> keys[j] == Lower(features[j].0)
    ensures CardsOf(shown, features, FeatureCards(shown, features, n), MatchIndices(shown, keys, n))
  {
    if n > 0 {
      CardsAtMatches(shown, features, keys, n - 1);
      FeatureCardsStep(shown, features, n);
      MatchIndicesStep(shown, keys, n);
      var name := features[n - 1].0;
      if Lower(name) in shown {
        var c := Card(name, shown[Lower(name)], ColumnOf(n - 1, |features|));
        CardsOfAppend(shown, features, FeatureCards(shown, features, n - 1), MatchIndices(shown, keys, n - 1), c, n - 1);
      }
    }
  }

  /** The cards are exactly those of the features, among the first `n`, whose lower-cased
      name is a key of the reply's dict, in feature order. */
  lemma FeatureCardsFilter(shown: map<string, Json>, features: seq<(string, string)>, n: nat)
    requires n <= |features|
    ensures CardsOf(shown, features, FeatureCards(shown, features, n),
                    MatchIndices(shown, Config.LowerAll(Config.Keys(features)), n))
  {
    CardsAtMatches(shown, features, Config.LowerAll(Config.Keys(features)), n);
  }

  /** The lookup keys of the features are the keys the analysis prompt requests. */
  lemma FeatureKeysAreRequested()
    ensures FeatureLookupKeys == Config.RequestedFeatureKeys
  {
    Config.FeatureNamesMatchRequestedKeys();
  }

  /** A "features" list holding none of the requested keys as a string shows no card and
      raises nothing: every `in` test answers False. */
  lemma FeatureListWithoutKeys(items: seq<Json>)
    requires forall k :: k in Config.RequestedFeatureKeys ==> JString(k) !in items
    ensures FeatureLayout(JObject(map["features" := JArray(items)])) == Some([])
  {
    var v := JArray(items);
    FeatureKeysAreRequested();
    forall j | 0 <= j < |FeatureLookupKeys| ensures InTest(FeatureLookupKeys[j], v) == Some(false) {
      assert FeatureLookupKeys[j] in Config.RequestedFeatureKeys;
    }
  }

  /** A "features" list holding a requested key as a string raises: the `in` test finds it
      and the subscript of the list by that key fails. */
  lemma FeatureListWithKey(items: seq<Json>, j: nat)
    requires j < |Config.RequestedFeatureKeys| && JString(Config.RequestedFeatureKeys[j]) in items
    ensures FeatureLayout(JObject(map["features" := JArray(items)])) == None
  {
    FeatureKeysAreRequested();
    assert InTest(FeatureLookupKeys[j], JArray(items)) == Some(true);
  }

  /** When the reply covers every feature, every feature gets a card, in order, and the
      column is decided by its position alone. */
  lemma {:induction false} AllFeaturesShown(shown: map<string, Json>, features: seq<(string, string)>, n: nat)
    requires n <= |features|
    requires forall j :: 0 <= j < n ==> Lower(features[j].0) in shown
    ensures var cards := FeatureCards(shown, features, n);
      |cards| == n
      && forall i :: 0 <= i < n ==>
           cards[i].feature == features[i].0 && cards[i].column == ColumnOf(i, |features|)
  {
    if n > 0 {
      AllFeaturesShown(shown, features, n - 1);
    }
  }

  /** A reply with the six requested feature keys shows all six features, the first three in
      the left column and the last three in the right one. */
  lemma RequestedFeaturesLayout(result: Json)
    requires FeaturesOf(result).Some?
    requires forall k :: k in Config.RequestedFeatureKeys ==> k in FeaturesOf(result).value
    ensures var cards := FeatureLayout(result).value;
      |cards| == 6
      && forall i :: 0 <= i < 6 ==>
           cards[i].feature == Config.HandwritingFeatures[i].0 && (cards[i].column == Left <==> i < 3)
  {
    var shown := FeaturesOf(result).value;
    Config.FeatureNamesMatchRequestedKeys();
    forall j | 0 <= j < 6 ensures Lower(Config.HandwritingFeatures[j].0) in shown {
      assert Config.RequestedFeatureKeys[j] in Config.RequestedFeatureKeys;
    }
    AllFeaturesShown(shown, Config.HandwritingFeatures, 6);
  }

  /** An empty features dict gives no card. */
  lemma {:induction false} NoCardsFromNothing(features: seq<(string, string)>, n: nat)
    requires n <= |features|
    ensures FeatureCards(map[], features, n) == []
  {
    if n > 0 {
      NoCardsFromNothing(features, n - 1);
    }
  }

  /** The fallback record of a failed analysis shows no feature card. */
  lemma FailedAnalysisShowsNoFeatures(call: CallOutcome, parse: string -> ParseOutcome)
    requires call.Raised? || parse(StripFences(call.text)).ParseFailed?
    ensures FeatureLayout(AnalyzeHandwriting(call, parse)) == Some([])
  {
    NoCardsFromNothing(Config.HandwritingFeatures, 6);
  }

  // ---------------------------------------------------------------------------
  // Session state

  /** What `analyzer.analyze_handwriting` did when the handler called it. */
  datatype AnalyzerOutcome = Returned(value: Json) | Threw(message: string)

  /** The session value a returned record becomes: a JSON `null` is Python's `None`, which
      the page reads as "no analysis yet". */
  function StoredResult(value: Json): (r: Option<Json>)
    ensures r.None? <==> value.JNull?
    ensures r.Some? ==> r.value == value
  {
    if value.JNull? then None else Some(value)
  }

  /** A reply that decodes to `null` is stored as no result: the results are not shown. */
  lemma NullReplyShowsNoResults(call: CallOutcome, parse: string -> ParseOutcome)
    requires call.Replied? && parse(StripFences(call.text)) == Parsed(JNull)
    ensures StoredResult(AnalyzeHandwriting(call, parse)) == None
  {
  }

  /** A failed analysis is stored as a result, the fallback record with the failure text. */
  lemma FailureIsStored(call: CallOutcome, parse: string -> ParseOutcome)
    requires call.Raised? || parse(StripFences(call.text)).ParseFailed?
    ensures StoredResult(AnalyzeHandwriting(call, parse)).Some?
    ensures StoredResult(AnalyzeHandwriting(call, parse)).value.fields["error"]
      == JString(if call.Raised? then call.message else parse(StripFences(call.text)).message)
  {
  }

  /** The page's `st.session_state`. */
  class Session {
    var analysisResult: Option<Json>
    var capturedImage: Option<seq<Base64.byte>>
    var uploadedFile: Option<Utils.Upload>
    var isBoothMode: bool

    /** A camera capture and an upload are never held at the same time. */
    ghost predicate OneSource()
      reads this
    {
      capturedImage.None? || uploadedFile.None?
    }

    /** First run of the script: every key missing, so every field takes its default. */
    constructor ()
      ensures analysisResult == None && capturedImage == None && uploadedFile == None
      ensures !isBoothMode
      ensures OneSource()
    {
      analysisResult := None;
      capturedImage := None;
      uploadedFile := None;
      isBoothMode := false;
    }

    /** The camera delivered a frame: it replaces any upload. */
    method Capture(image: seq<Base64.byte>)
      modifies this
      ensures capturedImage == Some(image) && uploadedFile == None
      ensures analysisResult == old(analysisResult) && isBoothMode == old(isBoothMode)
      ensures OneSource()
    {
      capturedImage := Some(image);
      uploadedFile := None;
    }

    /** A file was uploaded: it replaces any capture and is then validated against the
        configured formats and size ceiling. */
    method ReceiveUpload(file: Utils.Upload, decode: Utils.DecodeCheck) returns (verdict: Utils.Verdict)
      modifies this
      ensures uploadedFile == Some(file) && capturedImage == None
      ensures analysisResult == old(analysisResult) && isBoothMode == old(isBoothMode)
      ensures verdict == Utils.ValidateImage(file, Config.SupportedFormats, Config.MaxImageSize, decode)
      ensures OneSource()
    {
      uploadedFile := Some(file);
      capturedImage := None;
      verdict := Utils.ValidateImage(file, Config.SupportedFormats, Config.MaxImageSize, decode);
    }

    /** `analyze_handwriting_image`: the image bytes go to the analyzer as base64 text; the
        result is stored, and true returned, only when the analyzer returns. A returned
        `None` is stored as it is, which leaves the page without results. */
    method AnalyzeImage(image: seq<Base64.byte>, analyzer: string -> AnalyzerOutcome) returns (ok: bool)
      modifies this
      ensures ok <==> analyzer(Base64.Encode(image)).Returned?
      ensures ok ==> analysisResult == StoredResult(analyzer(Base64.Encode(image)).value)
      ensures !ok ==> analysisResult == old(analysisResult)
      ensures capturedImage == old(capturedImage) && uploadedFile == old(uploadedFile)
      ensures isBoothMode == old(isBoothMode)
    {
      var encoded := Base64.Encode(image);
      var outcome := analyzer(encoded);
      if outcome.Threw? {
        return false;
      }
      analysisResult := StoredResult(outcome.value);
      ok := true;
    }

    /** The "analyze another sample" button. */
    method Reset()
      modifies this
      ensures analysisResult == None && capturedImage == None && uploadedFile == None
      ensures isBoothMode == old(isBoothMode)
      ensures OneSource()
    {
      analysisResult := None;
      capturedImage := None;
      uploadedFile := None;
    }

    /** The booth-mode toggle. */
    method SetBoothMode(on: bool)
      modifies this
      ensures isBoothMode == on
      ensures analysisResult == old(analysisResult) && capturedImage == old(capturedImage)
      ensures uploadedFile == old(uploadedFile)
    {
      isBoothMode := on;
    }
  }
}
