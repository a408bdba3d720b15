/**
 * The local logic of `HandwritingAnalyzer.analyze_handwriting`: pulling the JSON
 * payload out of the model's Markdown-fenced reply, and mapping every failure to
 * a fixed fallback record. The model call and the JSON decoder are not part of
 * this model; they enter as a call outcome and as a parse function.
 */
module GeminiHandler {
  import opened Text

  /** A decoded JSON value; numbers are modelled as integers. */
  datatype Json =
    | JNull
    | JBool(b: bool)
    | JNumber(n: int)
    | JString(s: string)
    | JArray(items: seq<Json>)
    | JObject(fields: map<string, Json>)

  /** What the steps before the reply text produced: base64 decoding of the image, opening
      it, and the model request. Either the reply text or the text of the exception. */
  datatype CallOutcome = Replied(text: string) | Raised(message: string)

  /** What `json.loads` did with the payload. */
  datatype ParseOutcome = Parsed(value: Json) | ParseFailed(message: string)

  const JsonFence: string := "```json"
  const Fence: string := "```"

  /** The Markdown-fence cleanup of the reply: the "```json" fence first, else a bare fence,
      else the reply as it is. */
  function StripFences(reply: string): (payload: string)
    ensures !Contains(reply, Fence) ==> payload == reply
    ensures Contains(reply, Fence) ==> Strip(payload) == payload
  {
    if Contains(reply, JsonFence) then
      var pieces := Split(reply, JsonFence);
      SplitFirst(reply, JsonFence);
      JsonFenceIsFence(reply);
      StripIdempotent(Split(pieces[1], Fence)[0]);
      Strip(Split(pieces[1], Fence)[0])
    else if Contains(reply, Fence) then
      var pieces := Split(reply, Fence);
      SplitFirst(reply, Fence);
      StripIdempotent(Split(pieces[1], Fence)[0]);
      Strip(Split(pieces[1], Fence)[0])
    else reply
  }

  const FallbackProfile: string := "Unable to analyze the handwriting. Please try again with a clearer image."

  /** The record returned in place of a result when anything fails. */
  function Fallback(error: string): (r: Json)
    ensures r.JObject? && r.fields.Keys == {"error", "features", "traits", "profile"}
    ensures "profession" !in r.fields && "disclaimer" !in r.fields
    ensures r.fields["error"] == JString(error)
    ensures r.fields["features"] == JObject(map[]) && r.fields["traits"] == JObject(map[])
  {
    JObject(map[
      "error" := JString(error),
      "features" := JObject(map[]),
      "traits" := JObject(map[]),
      "profile" := JString(FallbackProfile)])
  }

  /** `analyze_handwriting` after the model call: it never raises; a failed call or a failed
      decode gives the fallback record with the exception text, and otherwise the decoded
      value of the unfenced reply is returned. */
  function AnalyzeHandwriting(call: CallOutcome, parse: string -> ParseOutcome): (r: Json)
    ensures call.Raised? ==> r == Fallback(call.message)
    ensures call.Replied? && parse(StripFences(call.text)).ParseFailed? ==>
      r == Fallback(parse(StripFences(call.text)).message)
    ensures call.Replied? && parse(StripFences(call.text)).Parsed? ==>
      r == parse(StripFences(call.text)).value
  {
    match call
    case Raised(message) => Fallback(message)
    case Replied(text) =>
      match parse(StripFences(text))
      case Parsed(value) => value
      case ParseFailed(message) => Fallback(message)
  }

  // ---------------------------------------------------------------------------
  // Properties of the fence cleanup

  lemma JsonFenceIsFence(t: string)
    requires Contains(t, JsonFence)
    ensures Contains(t, Fence)
  {
    var i: nat :| i <= |t| && OccursAt(t, JsonFence, i);
    assert t[i..i + 3] == t[i..i + 7][..3];
    assert OccursAt(t, Fence, i);
  }

  /** Whenever a fence was found, the extracted payload holds no fence. */
  lemma PayloadHasNoFence(t: string)
    requires Contains(t, Fence)
    ensures !Contains(StripFences(t), Fence)
  {
    var pieces := Split(t, if Contains(t, JsonFence) then JsonFence else Fence);
    SplitFirst(t, if Contains(t, JsonFence) then JsonFence else Fence);
    SplitFirst(pieces[1], Fence);
    StripAvoids(Split(pieces[1], Fence)[0], Fence);
  }

  /** A reply without any fence goes to the decoder unchanged. */
  lemma NoFenceUnchanged(t: string)
    requires !Contains(t, Fence)
    ensures StripFences(t) == t
  {
    if Contains(t, JsonFence) {
      JsonFenceIsFence(t);
    }
  }

  /** Cleaning an already cleaned reply changes nothing. */
  lemma StripFencesIdempotent(t: string)
    ensures StripFences(StripFences(t)) == StripFences(t)
  {
    if Contains(t, Fence) {
      PayloadHasNoFence(t);
      NoFenceUnchanged(StripFences(t));
    } else {
      NoFenceUnchanged(t);
    }
  }

  /** Without a "```json" fence the payload is the text between the first and the second
      bare fence, or after the first one if it is not closed: the second split changes nothing. */
  lemma BareFencePayload(t: string)
    requires Contains(t, Fence) && !Contains(t, JsonFence)
    ensures |Split(t, Fence)| >= 2 && StripFences(t) == Strip(Split(t, Fence)[1])
  {
    var pieces := Split(t, Fence);
    SplitFirst(t, Fence);
    var i := IndexOf(t, Fence).value;
    assert pieces == [t[..i]] + Split(t[i + 3..], Fence);
    SplitFirst(t[i + 3..], Fence);
    SplitFirst(pieces[1], Fence);
  }

  /** "```json" never overlaps itself, so no occurrence starts inside text that precedes one. */
  lemma JsonFenceNoStraddle(pre: string, rest: string, j: nat)
    requires j < |pre| < j + 7
    ensures !OccursAt(pre + JsonFence + rest, JsonFence, j)
  {
    var s := pre + JsonFence + rest;
    var d := |pre| - j;
    if j + 7 <= |s| {
      if d <= 3 {
        assert s[j..j + 7][d + 3] == s[|pre| + 3] == 'j' != JsonFence[d + 3];
      } else {
        assert s[j..j + 7][d] == s[|pre|] == '`' != JsonFence[d];
      }
    }
  }

  /** A bare fence cannot straddle the end of text that does not end with a backtick. */
  lemma FenceNoStraddle(pre: string, rest: string, j: nat)
    requires pre == [] || pre[|pre| - 1] != '`'
    requires j < |pre| < j + 3
    ensures !OccursAt(pre + Fence + rest, Fence, j)
  {
    var s := pre + Fence + rest;
    var d := |pre| - 1 - j;
    if j + 3 <= |s| {
      assert s[|pre| - 1] == pre[|pre| - 1];
      assert s[j..j + 3][d] == s[|pre| - 1];
      assert Fence[d] == '`';
    }
  }

  /** Text that ends without a backtick splits at a fence right after it. */
  lemma FenceSplitsAfter(pre: string, rest: string)
    requires !Contains(pre, Fence)
    requires pre == [] || pre[|pre| - 1] != '`'
    ensures Split(pre + Fence + rest, Fence) == [pre] + Split(rest, Fence)
  {
    forall j: nat | j < |pre| < j + 3 ensures !OccursAt(pre + Fence + rest, Fence, j) {
      FenceNoStraddle(pre, rest, j);
    }
    SplitAfter(pre, Fence, rest);
  }

  /** The first piece of `body + "```" + post`, and of any prefix of it that keeps the fence,
      is `body`. */
  lemma ClosedBody(body: string, rest: string, k: nat)
    requires !Contains(body, Fence)
    requires body == [] || body[|body| - 1] != '`'
    requires |body| + 3 <= k <= |body + Fence + rest|
    ensures Split((body + Fence + rest)[..k], Fence)[0] == body
  {
    var r := body + Fence + rest;
    assert r[..k] == body + Fence + r[|body| + 3..k];
    FenceSplitsAfter(body, r[|body| + 3..k]);
  }

  /** In `body + "```" + post` a "```json" fence can only start at the closing fence or after it. */
  lemma JsonFenceAfterClose(body: string, post: string, q: nat)
    requires !Contains(body, Fence)
    requires body == [] || body[|body| - 1] != '`'
    requires post == [] || post[0] != '`'
    requires OccursAt(body + Fence + post, JsonFence, q)
    ensures q == |body| || |body| + 3 <= q
  {
    var rest := body + Fence + post;
    assert rest[q..q + 3] == rest[q..q + 7][..3];
    assert OccursAt(rest, Fence, q);
    assert |body| + 3 < |rest| ==> rest[|body| + 3] == post[0];
    if q + 3 <= |body| {
      assert body[q..q + 3] == rest[q..q + 3];
      assert OccursAt(body, Fence, q);
      assert false;
    } else if q < |body| {
      FenceNoStraddle(body, post, q);
      assert false;
    } else if |body| < q < |body| + 3 {
      assert false;
    }
  }

  /** The piece that the "```json" branch cuts from `body + "```" + post`, when no backtick
      runs on from the closing fence into `post`. */
  lemma JsonBranchPiece(body: string, post: string)
    requires !Contains(body, Fence)
    requires body == [] || body[|body| - 1] != '`'
    requires post == [] || post[0] != '`'
    ensures Split(Split(body + Fence + post, JsonFence)[0], Fence)[0] == body
  {
    var rest := body + Fence + post;
    SplitFirst(rest, JsonFence);
    var k := IndexOf(rest, JsonFence);
    if k.None? {
      assert Split(rest, JsonFence)[0] == rest[..|rest|];
      ClosedBody(body, post, |rest|);
    } else {
      IndexOfFirst(rest, JsonFence);
      JsonFenceAfterClose(body, post, k.value);
      assert Split(rest, JsonFence)[0] == rest[..k.value];
      if k.value == |body| {
        assert rest[..k.value] == body;
        SplitFirst(body, Fence);
      } else {
        ClosedBody(body, post, k.value);
      }
    }
  }

  /** A reply of the form  pre "```json" body "```" post  yields the stripped body, even when
      `pre` holds bare fences: the "```json" fence takes priority. */
  lemma JsonFencedReply(pre: string, body: string, post: string)
    requires !Contains(pre, JsonFence)
    requires !Contains(body, Fence) && (body == [] || body[|body| - 1] != '`')
    requires post == [] || post[0] != '`'
    ensures StripFences(pre + JsonFence + body + Fence + post) == Strip(body)
  {
    var rest := body + Fence + post;
    var t := pre + JsonFence + rest;
    assert t == pre + JsonFence + body + Fence + post;
    forall j: nat | j < |pre| < j + 7 ensures !OccursAt(t, JsonFence, j) {
      JsonFenceNoStraddle(pre, rest, j);
    }
    SplitAfter(pre, JsonFence, rest);
    IndexOfFirst(t, JsonFence);
    JsonBranchPiece(body, post);
  }

  /** An unclosed "```json" fence: with no fence after the marker, the payload is the
      stripped rest of the reply, whatever bare fences `pre` holds. */
  lemma JsonUnclosedReply(pre: string, body: string)
    requires !Contains(pre, JsonFence)
    requires !Contains(body, Fence)
    ensures StripFences(pre + JsonFence + body) == Strip(body)
  {
    var t := pre + JsonFence + body;
    forall j: nat | j < |pre| < j + 7 ensures !OccursAt(t, JsonFence, j) {
      JsonFenceNoStraddle(pre, body, j);
    }
    SplitAfter(pre, JsonFence, body);
    IndexOfFirst(t, JsonFence);
    if Contains(body, JsonFence) {
      JsonFenceIsFence(body);
    }
    SplitFirst(body, JsonFence);
    SplitFirst(body, Fence);
  }

  /** The second piece of  pre "```" body "```" post  split at bare fences is `body`. */
  lemma BareSecondPiece(pre: string, body: string, post: string)
    requires !Contains(pre, Fence) && (pre == [] || pre[|pre| - 1] != '`')
    requires !Contains(body, Fence) && (body == [] || body[|body| - 1] != '`')
    ensures var r := Split(pre + Fence + body + Fence + post, Fence); |r| >= 2 && r[1] == body
  {
    var rest := body + Fence + post;
    assert pre + Fence + body + Fence + post == pre + Fence + rest;
    FenceSplitsAfter(pre, rest);
    FenceSplitsAfter(body, post);
  }

  /** A reply of the form  pre "```" body "```" post  without a "```json" fence yields the
      stripped body. */
  lemma BareFencedReply(pre: string, body: string, post: string)
    requires !Contains(pre + Fence + body + Fence + post, JsonFence)
    requires !Contains(pre, Fence) && (pre == [] || pre[|pre| - 1] != '`')
    requires !Contains(body, Fence) && (body == [] || body[|body| - 1] != '`')
    ensures StripFences(pre + Fence + body + Fence + post) == Strip(body)
  {
    var t := pre + Fence + body + Fence + post;
    BareSecondPiece(pre, body, post);
    assert t[|pre|..|pre| + 3] == Fence;
    assert OccursAt(t, Fence, |pre|);
    SplitFirst(body, Fence);
  }

  /** An unclosed bare fence: the payload runs to the end of the reply. */
  lemma UnclosedFenceReply(pre: string, body: string)
    requires !Contains(pre + Fence + body, JsonFence)
    requires !Contains(pre, Fence) && (pre == [] || pre[|pre| - 1] != '`')
    requires !Contains(body, Fence)
    ensures StripFences(pre + Fence + body) == Strip(body)
  {
    var t := pre + Fence + body;
    FenceSplitsAfter(pre, body);
    assert OccursAt(t, Fence, |pre|);
    SplitFirst(body, Fence);
  }

  // ---------------------------------------------------------------------------
  // Properties of the analysis result

  /** A well-formed fenced reply reaches the decoder as its stripped body, and whatever the
      decoder makes of it is the result. */
  lemma FencedReplyAnalysis(pre: string, body: string, post: string, parse: string -> ParseOutcome)
    requires !Contains(pre, JsonFence)
    requires !Contains(body, Fence) && (body == [] || body[|body| - 1] != '`')
    requires post == [] || post[0] != '`'
    ensures var r := AnalyzeHandwriting(Replied(pre + JsonFence + body + Fence + post), parse);
      match parse(Strip(body))
      case Parsed(v) => r == v
      case ParseFailed(m) => r == Fallback(m)
  {
    JsonFencedReply(pre, body, post);
  }

  /** Every failure gives a record whose traits and features are empty and that has no
      profession or disclaimer. */
  lemma FailureRecordIsEmpty(call: CallOutcome, parse: string -> ParseOutcome)
    requires call.Raised? || parse(StripFences(call.text)).ParseFailed?
    ensures var r := AnalyzeHandwriting(call, parse);
      r.JObject? && r.fields["traits"] == JObject(map[]) && r.fields["features"] == JObject(map[])
      && "profession" !in r.fields && "disclaimer" !in r.fields
      && r.fields["profile"] == JString(FallbackProfile)
  {
  }
}
