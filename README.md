# AI Handwriting Analyzer — a Dafny model

This project models the logic of the AI Handwriting Analyzer, a Streamlit application that
sends a photo or upload of handwriting to a hosted vision model and renders the reply as a
personality profile: a radar chart of five trait scores and a grid of handwriting-feature
cards. The model covers:

- `config.py`: the size ceiling, the accepted formats, the trait and feature tables, and the
  key names the analysis prompt requests. This is `config.dfy`.
- `src/utils.py`: `validate_image` (size, then extension, then decoding) and the width rule
  of `resize_image`. This is `utils.dfy`.
- `src/utils.py:23` and `src/qr_generator.py:54`: base64 encoding, as section 4 of RFC 4648
  defines it, with its decoder and a proved round trip. This is `base64.dfy`.
- `src/gemini_handler.py`: the Markdown-fence cleanup of the model's reply and the fallback
  record that `analyze_handwriting` returns on any failure. This is `gemini_handler.dfy`.
- `src/qr_generator.py`: the logo clamp and centring arithmetic of `generate_qr_code`.
  This is `qr_generator.dfy`.
- `app.py`: `is_mobile`; the radar loop (`BuildRadar` over the loop method `CollectScores`);
  the feature-card column split, with Python's `in` and subscript on the decoded JSON
  values; and the session state as a class whose methods are the page's handlers. This is
  `app.dfy`.
- The Python string built-ins the code relies on, with Python semantics: `in`, `split`,
  `join`, `lower` and `strip`. This is `text.dfy`.

The model call, `json.loads`, PIL and the camera are not part of this model. They enter as
parameters:

- a `CallOutcome` (the reply text, or the text of the exception raised before it);
- a parse function standing for `json.loads`;
- a `DecodeCheck` standing for PIL's open and verify;
- a `LogoLoad` standing for the logo open and resize;
- an analyzer function standing for `HandwritingAnalyzer.analyze_handwriting`;
- the PNG bytes.

## Model

| member | source | states |
|---|---|---|
| Text.IndexOfFirst | src/gemini_handler.py:114-117 | The search finds an occurrence exactly when `p in s`, and the one it finds has no occurrence before it. |
| Text.IndexFromFirst | src/gemini_handler.py:114-117 | Searching from `i` finds the first occurrence at or after `i`; no result means there is none. |
| Text.Contains | app.py:41 | `p in s` needs `p` to fit inside `s`; `IndexOfFirst` ties it to the search. |
| Text.IndexOf | src/gemini_handler.py:115-117 | A found position leaves room for the whole pattern; `IndexOfFirst` shows it is the first occurrence. |
| Text.FirstOccurrence | src/gemini_handler.py:114-117 | An occurrence with no earlier one is the one the search returns. |
| Text.SliceAvoids | src/gemini_handler.py:115-117 | A slice of text without `p` has no `p` either. |
| Text.PrefixBeforeFirst | src/gemini_handler.py:115-117 | The text before the first separator holds no separator. |
| Text.Split | src/gemini_handler.py:115-117 | `s.split(sep)` always has at least one piece; `SplitFirst` (the first piece) and `SplitAfter` (the rest is the split of what follows the first separator) pin every piece down, and `JoinSplit` shows nothing is lost. |
| Text.SplitFirst | src/gemini_handler.py:115-117 | `split` gives several pieces exactly when the separator occurs; otherwise it gives `[s]`; the first piece never holds the separator. |
| Text.JoinSplit | src/utils.py:60 | Joining the pieces of `s.split(sep)` with `sep` gives back `s`. |
| Text.Join | src/utils.py:62 | Joining one piece gives that piece; `JoinLast` gives the general case. |
| Text.JoinAll | src/utils.py:62 | `sep.join([])` is the empty text; otherwise it is `Join`. |
| Text.JoinLast | src/utils.py:60 | A join of several pieces is the join of all but the last, the separator, then the last. |
| Text.JoinThree | src/utils.py:62 | `sep.join([a, b, c])` is `a + sep + b + sep + c`. |
| Text.SplitAfter | src/gemini_handler.py:115 | When `pre` has no `p` and no occurrence straddles its end, `(pre + p + rest).split(p)` is `[pre]` followed by `rest.split(p)`. |
| Text.SplitLastStep | src/utils.py:60 | The last piece of a split is the last piece of the split of what follows the first separator. |
| Text.LastPieceAvoids | src/utils.py:60 | `s.split(sep)[-1]` never holds the separator. |
| Text.LastPieceSuffix | src/utils.py:60 | `s.split(sep)[-1]` is the text from its start index to the end of `s`. |
| Text.LastPiece | src/utils.py:60 | `s.split(sep)[-1]` holds no separator and is a suffix of `s`. |
| Text.LastPieceAfterSeparator | src/utils.py:60 | `(a + c + b).split(c)[-1] == b` whenever `c` does not occur in `b`. |
| Text.Lower | app.py:608 | `lower()` keeps the length and leaves no upper-case ASCII letter. |
| Text.LowerFixedPoint | src/utils.py:60 | Lower-casing changes nothing exactly when the text is already lower case. |
| Text.LeadingSpace | src/gemini_handler.py:115 | Counts the whitespace that opens the text; the next character, if any, is not whitespace. |
| Text.TrailingSpace | src/gemini_handler.py:115 | Counts the whitespace that closes the text; the character before it, if any, is not whitespace. |
| Text.Strip | src/gemini_handler.py:115 | `strip()` gives a text no longer than the input that neither starts nor ends with whitespace. |
| Text.StripSlice | src/gemini_handler.py:115 | `strip()` keeps a slice of the input and removes only whitespace on both sides of it. |
| Text.StripIdempotent | src/gemini_handler.py:117 | Stripping twice is stripping once. |
| Text.StripAvoids | src/gemini_handler.py:117 | Stripping cannot create an occurrence of a pattern. |
| Text.NatToString | src/utils.py:57 | The decimal text of a number is non-empty, all digits, and has no leading zero; `NatToStringValue` shows it denotes the number. |
| Text.NatToStringValue | src/utils.py:57 | Reading the decimal text of `n` back as digits gives `n`. |
| Config.MaxImageSizeIsFiveMiB | config.py:12 | The ceiling is 5242880 bytes. |
| Config.SupportedFormatsAreLowerCase | config.py:13 | The three accepted extensions are already lower case, so comparing a lower-cased extension with them is sound. |
| Config.PersonalityTraitsDistinct | config.py:16-22 | Five distinct trait names. |
| Config.TraitDescriptionsCoverTraits | config.py:44-50 | The description table is keyed by exactly the trait names, in order. |
| Config.FeatureNamesMatchRequestedKeys | config.py:53-60 | Each feature name, lower-cased, is the feature key the prompt requests, in order (src/gemini_handler.py:68-74). |
| Config.EmotionalStabilityKeyMismatch | config.py:16-22 | The first four trait names lower-case to the requested keys; the fifth, "emotional stability", is not a requested key ("emotional_stability" at src/gemini_handler.py:81). |
| Config.Keys | config.py:44-60 | The keys of a table, in insertion order. |
| Config.LowerAll | app.py:607-608 | Each name lower-cased, in order. |
| Base64.DecodeChar | src/gemini_handler.py:99 | Decoding a character of the alphabet inverts encoding. |
| Base64.EncodeChar | src/utils.py:23 | Every value is written as a letter, a digit, "+" or "/", never as the padding. |
| Base64.DecodeEncodeChar | src/utils.py:23 | Every six-bit value has its own character, and that character is not the padding. |
| Base64.Sextets | src/utils.py:23 | n bytes give n + ceil(n/3) six-bit values. |
| Base64.Encode | src/utils.py:23 | The encoding of n bytes has 4 * ceil(n/3) characters. |
| Base64.Decode | src/gemini_handler.py:99 | A text whose length is not a multiple of four is refused; an accepted text has only alphabet characters before its padding. |
| Base64.EncodeWellFormed | src/utils.py:23 | The encoding is alphabet characters followed by exactly the padding the input length calls for. |
| Base64.ValuesOfChars | src/gemini_handler.py:99 | The values of the characters written for some values are those values. |
| Base64.OneByteGroup | src/gemini_handler.py:99 | A final one-byte group reads back as that byte. |
| Base64.TwoByteGroup | src/gemini_handler.py:99 | A final two-byte group reads back as those bytes. |
| Base64.FullGroup | src/gemini_handler.py:99 | A full three-byte group reads back as those bytes, followed by the rest. |
| Base64.BytesOfSextets | src/gemini_handler.py:99 | Reading back the six-bit values of some bytes gives the bytes. |
| Base64.PaddingOfEncoding | src/gemini_handler.py:99 | The decoder counts exactly the padding the encoder wrote, and the rest is the characters of the values. |
| Base64.RoundTrip | src/gemini_handler.py:99 | `b64decode(b64encode(data)) == data`. |
| Base64.EncodeInjective | src/utils.py:23 | Different byte strings have different encodings. |
| Utils.ValidateImage | src/utils.py:42-70 | Valid exactly when size <= ceiling, the extension is accepted and the bytes decode; size is checked before format, format before decoding; a decoding failure carries its exception text; the message is empty exactly for a valid file. |
| Utils.Message | src/utils.py:57-70 | The message is empty exactly for a valid file. |
| Utils.MiBText | src/utils.py:57 | The limit in MB is printed as the decimal text of the integer part of `abs(limit) / MiB` followed by ".0", with a leading "-" for a negative limit; the digits read back as that integer part. |
| Utils.LastSegment | src/utils.py:60 | `name.split(".")[-1]` holds no "." and ends the name. |
| Utils.Extension | src/utils.py:60 | The extension is the last segment, lower-cased letter by letter (same length, no upper case). |
| Utils.LastSegmentShape | src/utils.py:60 | The text after the last "." holds no "." and ends the name; it is the whole name exactly when there is no "."; otherwise a "." precedes it. |
| Utils.DotBeforeLastSegment | src/utils.py:60 | In a name with a ".", a "." stands right before the last segment. |
| Utils.ExtensionAfterLastDot | src/utils.py:60 | `(front + "." + ext)` and `ext` both have extension `ext.lower()` when `ext` has no ".". |
| Utils.ExtensionExamples | src/utils.py:60 | "a.tar.PNG" has extension "png", and so does "png". |
| Utils.SizeCheckedFirst | src/utils.py:56-57 | An oversized file gets the size verdict and message whatever its name and content. |
| Utils.OneByteOverLimit | src/utils.py:56-57 | One byte over 5 MiB is refused, with the message "File size exceeds the limit of 5.0MB". |
| Utils.ExactLimitUpperCaseAccepted | src/utils.py:56-68 | A decodable "scan.PNG" of exactly 5 MiB is accepted: the ceiling is inclusive and case is ignored. |
| Utils.FormatMessage | src/utils.py:61-62 | The format message lists "jpg, jpeg, png". |
| Utils.ResizedWidth | src/utils.py:36-40 | Only a wider image is scaled, and then to exactly the bound; the width never grows. |
| Utils.ResizeIdempotent | src/utils.py:36-40 | Resizing a resized image changes nothing, and a resized width never exceeds the bound. |
| GeminiHandler.Fallback | src/gemini_handler.py:125-130 | The fallback record has exactly the keys error, features, traits and profile; the error text is kept; features and traits are empty; there is no profession or disclaimer. |
| GeminiHandler.AnalyzeHandwriting | src/gemini_handler.py:95-130 | The analysis never raises: a failed call or decode gives the fallback with that exception's text; otherwise it gives the decoded, unfenced reply. |
| GeminiHandler.StripFences | src/gemini_handler.py:113-117 | A reply without a fence is passed on unchanged; when a fence was found, the payload carries no surrounding whitespace. |
| GeminiHandler.JsonFenceIsFence | src/gemini_handler.py:114-116 | A reply with "```json" also contains "```". |
| GeminiHandler.PayloadHasNoFence | src/gemini_handler.py:114-117 | Whenever a fence was found, the payload handed to the decoder holds no fence. |
| GeminiHandler.NoFenceUnchanged | src/gemini_handler.py:114-119 | A reply with no fence reaches the decoder unchanged. |
| GeminiHandler.StripFencesIdempotent | src/gemini_handler.py:113-117 | Cleaning a cleaned reply changes nothing. |
| GeminiHandler.BareFencePayload | src/gemini_handler.py:116-117 | Without "```json", the payload is the stripped second piece of the split at "```". |
| GeminiHandler.JsonFenceNoStraddle | src/gemini_handler.py:115 | No "```json" starts inside text that precedes one. |
| GeminiHandler.FenceNoStraddle | src/gemini_handler.py:117 | No "```" straddles the end of text that does not end with a backtick. |
| GeminiHandler.FenceSplitsAfter | src/gemini_handler.py:117 | Text without "```" that does not end with a backtick splits off at a fence right after it. |
| GeminiHandler.ClosedBody | src/gemini_handler.py:115-117 | The first "```" piece of `body + "```" + ...` is `body`. |
| GeminiHandler.JsonFenceAfterClose | src/gemini_handler.py:115 | In `body + "```" + post`, a "```json" can start only at the closing fence or after it. |
| GeminiHandler.JsonBranchPiece | src/gemini_handler.py:115 | The "```json" branch cuts exactly `body` from `body + "```" + post`. |
| GeminiHandler.JsonFencedReply | src/gemini_handler.py:114-115 | A reply `pre + "```json" + body + "```" + post` yields `body.strip()`, even when `pre` holds bare fences. |
| GeminiHandler.JsonUnclosedReply | src/gemini_handler.py:114-115 | A reply with a "```json" marker and no fence after it yields the stripped text after the marker, whatever bare fences precede it. |
| GeminiHandler.BareSecondPiece | src/gemini_handler.py:117 | The second piece of `pre + "```" + body + "```" + post` split at "```" is `body`. |
| GeminiHandler.BareFencedReply | src/gemini_handler.py:116-117 | A reply `pre + "```" + body + "```" + post` without "```json" yields `body.strip()`. |
| GeminiHandler.UnclosedFenceReply | src/gemini_handler.py:116-117 | An unclosed bare fence yields the stripped rest of the reply. |
| GeminiHandler.FencedReplyAnalysis | src/gemini_handler.py:114-119 | A well-formed fenced reply is decoded as its stripped body, and the decoder's result or failure decides the result. |
| GeminiHandler.FailureRecordIsEmpty | src/gemini_handler.py:121-130 | Every failure gives a record with empty traits and features, the fixed profile text, and no profession or disclaimer. |
| QrGenerator.ImageSide | src/qr_generator.py:18-23 | With 10-pixel modules and a 4-module border, the image side is a multiple of 10, between 290 and 1850. |
| QrGenerator.LogoLimit | src/qr_generator.py:38 | The limit is the image width floor-divided by 3. |
| QrGenerator.FitLogo | src/qr_generator.py:39-41 | A logo wider than the limit is scaled to exactly the limit width; any other logo is kept; the width never exceeds the limit. |
| QrGenerator.Position | src/qr_generator.py:44 | The corner is the floored half of the size difference, on each axis. |
| QrGenerator.HorizontallyCentred | src/qr_generator.py:38-44 | After the clamp the logo lies within the image horizontally, with left and right margins that differ by at most one pixel. |
| QrGenerator.TallLogoOverflows | src/qr_generator.py:39-44 | Only the width is clamped, so a logo taller than the image gets a negative row. |
| QrGenerator.TallLogoExample | src/qr_generator.py:38-44 | On a 290-pixel code, a 10 x 400 logo is pasted unscaled at (140, -55). |
| QrGenerator.FitLogoIdempotent | src/qr_generator.py:39-41 | Clamping a clamped logo changes nothing. |
| QrGenerator.LogoPaste | src/qr_generator.py:33-49 | No paste for an absent or empty path, or when loading raises (the error is swallowed); otherwise the clamped logo is pasted at the centring position, within the image horizontally. |
| QrGenerator.LogoOnCode | src/qr_generator.py:18-49 | On the square image of any QR version, an opened logo at a non-empty path is pasted, at most a third of the side wide and inside the image horizontally, and vertically too when its height fits. |
| QrGenerator.QrCodeText | src/qr_generator.py:52-56 | The returned text decodes back to the PNG bytes. |
| App.IsMobile | app.py:36-44 | Mobile exactly when a first "user_agent" value exists and, lower-cased, contains one of the five markers; an empty value list is caught and answers false. |
| App.AgentIsMobile | app.py:39-41 | An agent shorter than every marker is never mobile. |
| App.IsMobileIgnoresCase | app.py:39-41 | An agent and its lower-cased form are classified alike. |
| App.IPhoneAgentIsMobile | app.py:39-41 | "Mozilla (iPhone)" is recognised. |
| App.MissingAgentIsDesktop | app.py:39-44 | With no usable agent the answer is false. |
| App.Field | app.py:609 | `analysis_result[key]` succeeds exactly on a dict holding `key`, with that key's value. |
| App.ObjectField | app.py:609 | `analysis_result[key]` as a dict: found exactly when the lookup succeeds and gives a dict. |
| App.InTest | app.py:609 | Python's `key in v`: raises on a number, boolean or null; tests a dict's keys, a list's elements and a string's substrings. |
| App.ScoreOf | app.py:612 | `trait_data["score"]` is found exactly when the data is an object with a score, and the result is that "score" entry. |
| App.Collect | app.py:607-612 | The loop state after n traits: the lists never grow longer than n, and the two lists have equal lengths. |
| App.MatchIndices | app.py:607-609 | The positions whose key is present, strictly increasing, all of them and nothing else. |
| App.StoppedStaysStopped | app.py:612 | Once a score lookup raises, the later iterations are never reached. |
| App.CollectFilters | app.py:607-612 | A completed loop holds the names at the matching positions, in order, with their scores. |
| App.CollectCompletes | app.py:609-612 | The loop completes when every present trait has a score. |
| App.CollectNothing | app.py:609 | An empty traits object collects nothing. |
| App.CollectNoMatch | app.py:607-612 | When no lookup key is present, the loop collects nothing, whatever the values. |
| App.TraitsError | app.py:607-616 | With a non-dict traits value: the lookup raises exactly when "traits" is missing; otherwise `trait_names[0]` raises exactly when every `in` test answers False, and a `TypeError` ends the loop in every other case. |
| App.RadarOf | app.py:604-616 | A chart needs a traits dict; the page either draws a chart or raises. A missing "traits" is the lookup error. With a non-dict value, the IndexError happens exactly when every `in` test answers False. |
| App.CollectScores | app.py:604-612 | The loop method computes exactly the loop state `Collect` defines. |
| App.BuildRadar | app.py:604-616 | The page's radar construction gives exactly `RadarOf`. |
| App.RadarChartShape | app.py:607-616 | A chart lists the matched traits in trait order with their scores, plus one entry repeating the first to close the polygon. |
| App.RadarMembership | app.py:607-611 | A trait is on the chart exactly when its lower-cased name is a key of the traits object. |
| App.RadarNoMatch | app.py:607-615 | For a "traits" dict, `trait_names[0]` raises IndexError exactly when none of the lower-cased trait names is a key. |
| App.FailedAnalysisCrashesRadar | app.py:615 | As written, the fallback record makes `trait_names[0]` raise. |
| App.TraitListWithoutKeys | app.py:607-616 | A "traits" list holding no lower-cased trait name collects nothing, and `trait_names[0]` raises. |
| App.TraitListWithKey | app.py:609-610 | A "traits" list holding a lower-cased trait name raises when it is subscripted by that name. |
| App.LookupKeysVsRequested | app.py:608 | The lower-cased names are the requested keys for the first four traits only. |
| App.LowerKeysMatchFirstFour | app.py:607-609 | Against a reply in the requested shape, only positions 0-3 match. |
| App.StabilityDropped | app.py:607-612 | Against a reply in the requested shape, the loop collects exactly the first four trait names. |
| App.RequestedReplyDropsStability | app.py:604-616 | As written, a reply in exactly the requested shape charts four traits and never "Emotional Stability". |
| App.TraitKey | src/gemini_handler.py:77-81 | The requested key of a trait name: lower case, with spaces as underscores. |
| App.TraitKeys | src/gemini_handler.py:77-81 | Each trait name mapped to its requested key, in order. |
| App.FixedKeysAreRequested | src/gemini_handler.py:77-81 | The corrected keys of the five traits are exactly the requested keys, in order. |
| App.RadarFixed | app.py:604-616 | The corrected radar never raises for want of a matched trait, whatever the traits value; a chart is closed. |
| App.FailedAnalysisHasNoChart | app.py:604-616 | Corrected: a failed analysis gives no chart, and no error. |
| App.AllPresentKept | app.py:607-609 | When every key is present, the filter keeps every position. |
| App.FixedKeysPresent | src/gemini_handler.py:77-81 | A reply in the requested shape holds every corrected key. |
| App.AllTraitsCollected | app.py:607-612 | Corrected: a reply in the requested shape collects all five traits in order. |
| App.RequestedReplyChartsAllTraits | app.py:604-616 | Corrected: a reply in the requested shape charts all five traits, closed by the first. |
| App.ColumnOf | app.py:667-675 | Feature i of n goes to the first column exactly when i < n // 2. |
| App.FeatureCards | app.py:666-675 | Each card shows the reply's data under its lower-cased name. With at most half the features, all cards are on the left. No left card follows a right one. |
| App.FeatureLayout | app.py:666-675 | The tab renders without raising exactly when "features" is a dict, or a value on which every `feature_key in` test answers False (then with no card). There is at most one card per feature. |
| App.CardsAtMatches | app.py:669-675 | Over the lower-cased names, the cards are those of the positions the key filter keeps, in order. |
| App.FeatureCardsFilter | app.py:669-675 | The cards are exactly those of the features whose lower-cased name is a key of the reply's dict, in feature order. Each card has that key's data and the column of the feature's position in the whole list. |
| App.FeatureKeysAreRequested | app.py:670 | The lower-cased feature names are the feature keys the prompt requests (src/gemini_handler.py:68-75). |
| App.FeatureListWithoutKeys | app.py:671 | A "features" list with none of the requested keys shows no card and raises nothing. |
| App.FeatureListWithKey | app.py:671-672 | A "features" list holding a requested key raises when it is subscripted by that key. |
| App.AllFeaturesShown | app.py:669-675 | When the reply covers every feature, every feature gets a card, in order, placed by its position. |
| App.RequestedFeaturesLayout | app.py:666-675 | A reply with the six requested feature keys shows six cards: the first three on the left, the last three on the right. |
| App.NoCardsFromNothing | app.py:671 | An empty features object gives no card. |
| App.FailedAnalysisShowsNoFeatures | app.py:666-675 | The fallback record shows no feature card, and does not raise. |
| App.Session.constructor | app.py:360-370 | First run: no result, no capture, no upload, booth mode off. |
| App.Session.Capture | app.py:518-522 | A capture replaces any upload and leaves the rest alone. |
| App.Session.ReceiveUpload | app.py:550-556 | An upload replaces any capture and is validated against the configured formats and ceiling. |
| App.StoredResult | app.py:386 | A returned `null` is Python's `None`, which the session holds as "no result"; any other value is held as it is. |
| App.NullReplyShowsNoResults | app.py:386-387 | A reply that decodes to `null` leaves the page without results. |
| App.FailureIsStored | app.py:386-387 | A failed analysis is held as a result: the fallback record with the failure text. |
| App.Session.AnalyzeImage | app.py:373-395 | The image goes out base64-encoded. When the analyzer returns, true is returned and the result is stored (a `null` as no result). Otherwise false is returned and the state is unchanged. |
| App.Session.Reset | app.py:701-704 | The reset button clears result, capture and upload, and keeps booth mode. |
| App.Session.SetBoothMode | app.py:415 | The toggle sets booth mode only. |

## Left out

- The Streamlit page layout, CSS, progress bar and `time.sleep` loop (app.py:374-379 and the markup) are not modelled. They do not affect the state or the results.
- The hosted model call, the prompt text and `Image.open` of the decoded bytes are not modelled. They are folded into the `CallOutcome` parameter of `AnalyzeHandwriting`. So is the `base64.b64decode` at src/gemini_handler.py:99: `AnalyzeHandwriting` never applies `Base64.Decode`, and the rows citing that line state what the decoder does with the text `encode_image_to_base64` produced (`Base64.RoundTrip`).
- `json.loads` is not modelled; it is the `parse` parameter. JSON numbers are integers in `Json`, as the requested scores are.
- `Image.open` and `verify` in `validate_image` are represented by the `DecodeCheck` parameter.
- In `generate_qr_code`, logo loading and resizing are the `LogoLoad` parameter. The QR matrix and PNG serialisation are represented by the PNG bytes given to `QrCodeText`.
- The QR version that `fit=True` chooses depends on the URL's length. `ImageSide` takes the version as a parameter.
- Float arithmetic is not modelled:
  - the resized height `int(height * ratio)`, in `resize_image` and in the logo resize (an input `scaledHeight`);
  - `score / 10` for the progress bars.
- Utils.MiBText: prints the integer part of `abs(limit) / MiB` (with "-" for a negative limit) followed by ".0". Python prints the float's repr, which differs for a ceiling that is not a whole number of MiB and for quotients of 2^53 or more (rounding, then exponent notation such as "1e+16"). The only ceiling passed (app.py:556) is exactly 5 MiB, so the message is "5.0MB" in both.
- File reading in `encode_image_to_base64` is not modelled. The bytes are the input.
- `Text.Lower`: lower-cases ASCII letters only. Python's `str.lower()` also maps non-ASCII letters.
- `Base64.Decode`: follows section 4 of RFC 4648 strictly. Python's `b64decode` also discards characters outside the alphabet. The model relies only on decoding what the encoder produced.
- Python's exception types are reduced to the error kinds of `RadarError`. The loop's error over a non-dict "traits" value does not record which trait raised.
- Rendering lookups that may raise are not modelled:
  - `analysis_result['profession']['explanation']` (app.py:589);
  - `analysis_result['profile']` (app.py:596);
  - `trait_data['evidence']` (app.py:657);
  - `feature_data['value']` and `feature_data['description']` (app.py:678-679);
  - `analysis_result['disclaimer']` (app.py:698). The fallback record has no "disclaimer", so that page line raises on it as well.
- The profession headline's `in` tests (app.py:579) are not modelled.
- The trait list under the chart (app.py:645-658) repeats the radar loop's lookups, so it is not modelled separately.
- The booth-mode URL query (app.py:419, 429) is not modelled.
- The test scripts `app_test.py` and `test_gemini_api.py`, and the backup `src/gemini_handler_backuo.py`, are not part of this model. They repeat the core or call the live service.

## Findings

| source | as written | input that shows it | evidently intended | confidence | as-written member | corrected member |
|---|---|---|---|---|---|---|
| app.py:607-609 with config.py:21 and src/gemini_handler.py:81 | The trait key is `trait.lower()`, so "Emotional Stability" is looked up as "emotional stability". The prompt asks the model for "emotional_stability". | Any reply whose "traits" holds exactly the five requested keys, each with a score. | All five traits are charted. | not executed | App.RequestedReplyDropsStability | App.RequestedReplyChartsAllTraits |
| app.py:615 with src/gemini_handler.py:125-130 and app.py:386-387 | `analyze_handwriting` never raises, so its fallback record (with `"traits": {}`) is stored as a result. The radar then appends `trait_names[0]` to an empty list, which raises `IndexError`. | The model call raises (any network error), or the reply is not valid JSON. | A failed analysis renders without crashing, as the fallback record is meant to guarantee. | not executed | App.FailedAnalysisCrashesRadar | App.FailedAnalysisHasNoChart |
