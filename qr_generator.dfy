/**
 * The logo placement arithmetic of `generate_qr_code`: the logo width is clamped to a
 * third of the code image's width and the logo is centred by floor division. Building the
 * QR matrix, the resampling filter and PNG serialisation are library work; they enter
 * as parameters.
 */
module QrGenerator {
  import opened Wrappers
  import Base64

  datatype Size = Size(width: nat, height: nat)

  /** Module size in pixels and quiet-zone width in modules, as the generator is configured. */
  const BoxSize: nat := 10
  const Border: nat := 4

  /** Pixel side of the square code image for a QR version (1 to 40): 4v + 17 modules plus
      the border on both sides, each module `BoxSize` pixels. */
  function ImageSide(version: nat): (side: nat)
    requires 1 <= version <= 40
    ensures side % BoxSize == 0 && 290 <= side <= 1850
  {
    (4 * version + 17 + 2 * Border) * BoxSize
  }

  /** The widest logo that is pasted unscaled: the image width floor-divided by 3. */
  function LogoLimit(qrWidth: nat): (limit: nat)
    ensures 3 * limit <= qrWidth < 3 * limit + 3
  {
    qrWidth / 3
  }

  /** The logo size after the clamp. `scaledHeight` is what the float scaling of the height
      produced; it is used only when the logo is scaled down. */
  function FitLogo(qrWidth: nat, logo: Size, scaledHeight: nat): (r: Size)
    ensures r.width <= logo.width && r.width <= LogoLimit(qrWidth)
    ensures logo.width <= LogoLimit(qrWidth) ==> r == logo
    ensures logo.width > LogoLimit(qrWidth) ==> r == Size(LogoLimit(qrWidth), scaledHeight)
  {
    if logo.width > LogoLimit(qrWidth) then Size(LogoLimit(qrWidth), scaledHeight) else logo
  }

  /** Top-left corner of the pasted logo; Python's `//` floors, as Dafny's `/` does for a
      positive divisor, so a logo taller than the image gets a negative row. */
  function Position(qr: Size, logo: Size): (xy: (int, int))
    ensures 2 * xy.0 <= qr.width - logo.width < 2 * xy.0 + 2
    ensures 2 * xy.1 <= qr.height - logo.height < 2 * xy.1 + 2
  {
    ((qr.width - logo.width) / 2, (qr.height - logo.height) / 2)
  }

  /** After the clamp the logo lies inside the image horizontally, and the left and right
      margins differ by at most one pixel (the right one being the larger). */
  lemma HorizontallyCentred(qr: Size, logo: Size, scaledHeight: nat)
    ensures var fitted := FitLogo(qr.width, logo, scaledHeight);
      var x := Position(qr, fitted).0;
      0 <= x && x + fitted.width <= qr.width
      && 0 <= (qr.width - (x + fitted.width)) - x <= 1
      && 3 * fitted.width <= qr.width
  {
  }

  /** Only the width is clamped: a logo taller than the image is placed above its top edge. */
  lemma TallLogoOverflows(qr: Size, logo: Size, scaledHeight: nat)
    requires FitLogo(qr.width, logo, scaledHeight).height > qr.height
    ensures Position(qr, FitLogo(qr.width, logo, scaledHeight)).1 < 0
  {
  }

  /** A concrete instance on a version-1 code: a 10 x 400 logo is left unscaled and pasted at
      row -55. */
  lemma TallLogoExample()
    ensures ImageSide(1) == 290 && LogoLimit(290) == 96
    ensures var fitted := FitLogo(290, Size(10, 400), 0);
      fitted == Size(10, 400) && Position(Size(290, 290), fitted) == (140, -55)
  {
  }

  /** A logo already within the limit is never enlarged or rescaled. */
  lemma FitLogoIdempotent(qrWidth: nat, logo: Size, h1: nat, h2: nat)
    ensures var once := FitLogo(qrWidth, logo, h1);
      FitLogo(qrWidth, once, h2) == once
  {
  }

  /** What the library calls inside the `try` block did: opening, converting and resizing
      the logo and pasting it either went through, with the logo's pixel size and the height
      the float scaling gave, or raised. */
  datatype LogoLoad = Opened(size: Size, scaledHeight: nat) | Failed(message: string)

  datatype Paste = Paste(logo: Size, x: int, y: int)

  /** The logo paste `generate_qr_code` performs on an image of size `qr`, if any. An empty
      or absent path pastes nothing; a failure is swallowed and pastes nothing. */
  function LogoPaste(qr: Size, logoPath: Option<string>, load: LogoLoad): (p: Option<Paste>)
    ensures logoPath == None || logoPath == Some("") ==> p == None
    ensures load.Failed? ==> p == None
    ensures logoPath != None && logoPath != Some("") && load.Opened? ==>
              var fitted := FitLogo(qr.width, load.size, load.scaledHeight);
              p == Some(Paste(fitted, Position(qr, fitted).0, Position(qr, fitted).1))
    ensures p.Some? ==>
              p.value.logo.width <= LogoLimit(qr.width)
              && 0 <= p.value.x && p.value.x + p.value.logo.width <= qr.width
  {
    if logoPath == None || logoPath == Some("") then None
    else match load
      case Failed(_) => None
      case Opened(size, scaledHeight) =>
        var fitted := FitLogo(qr.width, size, scaledHeight);
        var xy := Position(qr, fitted);
        Some(Paste(fitted, xy.0, xy.1))
  }

  /** On the square image of any QR version, a given logo path with a logo that opens is
      always pasted: at most a third of the side wide, inside the image horizontally, and
      inside it vertically too when its height fits. */
  lemma LogoOnCode(version: nat, path: string, load: LogoLoad)
    requires 1 <= version <= 40 && path != "" && load.Opened?
    ensures var side := ImageSide(version);
      var p := LogoPaste(Size(side, side), Some(path), load);
      p.Some?
      && 3 * p.value.logo.width <= side && p.value.logo.width <= side / 3
      && 0 <= p.value.x && p.value.x + p.value.logo.width <= side
      && (p.value.logo.height <= side ==> 0 <= p.value.y && p.value.y + p.value.logo.height <= side)
  {
    var side := ImageSide(version);
    HorizontallyCentred(Size(side, side), load.size, load.scaledHeight);
  }

  /** What `generate_qr_code` returns: the base64 text of the PNG serialisation of the
      composed image, whether or not a logo went in. */
  function QrCodeText(png: seq<Base64.byte>): (text: string)
    ensures Base64.Decode(text) == Some(png)
  {
    Base64.RoundTrip(png);
    Base64.Encode(png)
  }
}
