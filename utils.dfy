/**
 * The upload checks and the image width rule of the utilities module.
 */
module Utils {
  import opened Text
  import Config

  /** An uploaded file as the validator sees it: its declared size in bytes and its name. */
  datatype Upload = Upload(size: int, name: string)

  /** What opening and verifying the bytes as an image did; image decoding itself is
      not part of this model. */
  datatype DecodeCheck = Decodes | DecodeFails(message: string)

  /** The outcome of validation; `Message` gives the text the caller shows. */
  datatype Verdict =
    | Valid
    | TooLarge(limit: int)
    | UnsupportedFormat(formats: seq<string>)
    | InvalidImage(detail: string)

  const MiB: nat := 1024 * 1024

  /** The ceiling in MiB for the size message: the integer part of `abs(limit) / MiB`, with "-"
      for a negative limit, followed by ".0". This is how Python prints `limit / 1024 / 1024`
      for a non-negative whole number of MiB below 2^53 MiB. */
  function MiBText(limit: int): (t: string)
    ensures |t| >= 3 && t[|t| - 2..] == ".0"
    ensures limit >= 0 ==> t == NatToString(limit / MiB) + ".0" && DigitsValue(t[..|t| - 2]) == limit / MiB
    ensures limit < 0 ==> t[0] == '-' && DigitsValue(t[1..|t| - 2]) == -limit / MiB
  {
    if limit >= 0 then
      var digits := NatToString(limit / MiB);
      NatToStringValue(limit / MiB);
      assert (digits + ".0")[..|digits + ".0"| - 2] == digits;
      digits + ".0"
    else
      var digits := NatToString(-limit / MiB);
      NatToStringValue(-limit / MiB);
      assert ("-" + digits + ".0")[1..|"-" + digits + ".0"| - 2] == digits;
      "-" + digits + ".0"
  }

  /** The (is_valid, error_message) pair's message. */
  function Message(v: Verdict): (m: string)
    ensures m == "" <==> v.Valid?
  {
    match v
    case Valid => ""
    case TooLarge(limit) => "File size exceeds the limit of " + MiBText(limit) + "MB"
    case UnsupportedFormat(formats) => "Unsupported file format. Please upload " + JoinAll(formats, ", ")
    case InvalidImage(detail) => "Invalid image file: " + detail
  }

  /** The text after the last "." of a file name, or the whole name when it has none. */
  function LastSegment(name: string): (seg: string)
    ensures !Contains(seg, ".")
    ensures |seg| <= |name| && name[|name| - |seg|..] == seg
  {
    LastPiece(name, ".");
    Last(Split(name, "."))
  }

  /** `file.name.split(".")[-1].lower()`. */
  function Extension(name: string): (ext: string)
    ensures |ext| == |LastSegment(name)| && IsLowerCase(ext)
  {
    Lower(LastSegment(name))
  }

  /** The checks of `validate_image`, in their order: size, then extension, then decoding.
      Any failure inside the try block becomes an InvalidImage verdict, so the check never raises. */
  function ValidateImage(file: Upload, formats: seq<string>, maxSize: int, decode: DecodeCheck): (v: Verdict)
    ensures v.Valid? <==> file.size <= maxSize && Extension(file.name) in formats && decode.Decodes?
    ensures file.size > maxSize ==> v == TooLarge(maxSize)
    ensures file.size <= maxSize && Extension(file.name) !in formats ==> v == UnsupportedFormat(formats)
    ensures v.InvalidImage? <==> file.size <= maxSize && Extension(file.name) in formats && decode.DecodeFails?
    ensures v.InvalidImage? ==> v.detail == decode.message
    ensures (Message(v) == "") <==> v.Valid?
  {
    if file.size > maxSize then TooLarge(maxSize)
    else if Extension(file.name) !in formats then UnsupportedFormat(formats)
    else match decode
      case Decodes => Valid
      case DecodeFails(message) => InvalidImage(message)
  }

  /** In a name with a ".", a "." stands right before the last segment. */
  lemma DotBeforeLastSegment(name: string)
    requires Contains(name, ".")
    ensures var seg := LastSegment(name); |seg| < |name| && name[|name| - |seg| - 1] == '.'
  {
    var parts := Split(name, ".");
    SplitFirst(name, ".");
    JoinSplit(name, ".");
    JoinLast(parts, ".");
    var seg := parts[|parts| - 1];
    var front := Join(parts[..|parts| - 1], ".");
    assert name == front + "." + seg;
    assert seg == LastSegment(name);
    assert |front| == |name| - |seg| - 1;
    assert name[|front|] == '.';
  }

  /** The last segment holds no ".", ends the name, and is the whole name exactly when the
      name has no "."; otherwise a "." stands right before it. */
  lemma LastSegmentShape(name: string)
    ensures !Contains(LastSegment(name), ".")
    ensures |LastSegment(name)| <= |name| && name[|name| - |LastSegment(name)|..] == LastSegment(name)
    ensures !Contains(name, ".") <==> LastSegment(name) == name
    ensures Contains(name, ".") ==> |LastSegment(name)| < |name| && name[|name| - |LastSegment(name)| - 1] == '.'
  {
    LastPiece(name, ".");
    SplitFirst(name, ".");
    if Contains(name, ".") {
      DotBeforeLastSegment(name);
    }
  }

  lemma NoDot(s: string)
    requires forall i :: 0 <= i < |s| ==> s[i] != '.'
    ensures !Contains(s, ".")
  {
    forall i: nat | i <= |s| ensures !OccursAt(s, ".", i) {
      if i + 1 <= |s| {
        assert s[i..i + 1][0] == s[i];
      }
    }
  }

  /** A name whose final part has no "." has that part, lower-cased, as its extension. */
  lemma ExtensionAfterLastDot(front: string, ext: string)
    requires forall i :: 0 <= i < |ext| ==> ext[i] != '.'
    ensures Extension(front + "." + ext) == Lower(ext)
    ensures Extension(ext) == Lower(ext)
  {
    NoDot(ext);
    assert front + "." + ext == front + ['.'] + ext;
    LastPieceAfterSeparator(front, '.', ext);
    SplitFirst(ext, ".");
  }

  lemma LowerPng()
    ensures Lower("PNG") == "png" && Lower("png") == "png"
  {
    LowerFixedPoint("png");
  }

  /** The extension is taken after the last ".", and compared lower-cased. */
  lemma ExtensionExamples()
    ensures Extension("a.tar.PNG") == "png"
    ensures Extension("png") == "png"
  {
    assert "a.tar.PNG" == "a.tar" + "." + "PNG";
    ExtensionAfterLastDot("a.tar", "PNG");
    ExtensionAfterLastDot("", "png");
    LowerPng();
  }

  /** An oversized file gets the size verdict whatever its name and content. */
  lemma SizeCheckedFirst(file: Upload, formats: seq<string>, maxSize: int, decode: DecodeCheck)
    requires file.size > maxSize
    ensures ValidateImage(file, formats, maxSize, decode) == TooLarge(maxSize)
    ensures Message(ValidateImage(file, formats, maxSize, decode)) ==
      "File size exceeds the limit of " + MiBText(maxSize) + "MB"
  {
  }

  /** With the application's constants, a file one byte over 5 MiB is refused with the
      size message, whatever its name and content. */
  lemma OneByteOverLimit(name: string, decode: DecodeCheck)
    ensures ValidateImage(Upload(Config.MaxImageSize + 1, name), Config.SupportedFormats, Config.MaxImageSize, decode)
      == TooLarge(5242880)
    ensures Message(TooLarge(Config.MaxImageSize)) == "File size exceeds the limit of 5.0MB"
  {
    assert Config.MaxImageSize / MiB == 5;
    assert NatToString(5) == "5";
  }

  /** A decodable file of exactly 5 MiB whose extension is a supported format in upper case
      is accepted: the ceiling is inclusive and the comparison ignores case. */
  lemma ExactLimitUpperCaseAccepted()
    ensures ValidateImage(Upload(Config.MaxImageSize, "scan.PNG"), Config.SupportedFormats, Config.MaxImageSize, Decodes)
      == Valid
  {
    assert "scan.PNG" == "scan" + "." + "PNG";
    ExtensionAfterLastDot("scan", "PNG");
    LowerPng();
  }

  /** The format message lists the application's formats. */
  lemma FormatMessage()
    ensures Message(UnsupportedFormat(Config.SupportedFormats)) == "Unsupported file format. Please upload jpg, jpeg, png"
  {
    JoinThree("jpg", "jpeg", "png", ", ");
  }

  /** Width after `resize_image`: only a wider image is scaled, to exactly `maxWidth`. */
  function ResizedWidth(width: nat, maxWidth: nat): (w: nat)
    ensures w <= width
    ensures width <= maxWidth ==> w == width
    ensures width > maxWidth ==> w == maxWidth
  {
    if width > maxWidth then maxWidth else width
  }

  /** Resizing an already resized image changes nothing. */
  lemma ResizeIdempotent(width: nat, maxWidth: nat)
    ensures ResizedWidth(ResizedWidth(width, maxWidth), maxWidth) == ResizedWidth(width, maxWidth)
    ensures ResizedWidth(width, maxWidth) <= maxWidth
  {
  }
}
