/**
  The single-image transform of `utils/imageProcessor.ts`, with the canvas
  replaced by the parameters handed to it. `ProcessImage` yields a
  `RenderPlan`: the canvas size, the colour filter, whether the JPEG white
  background is painted, the rotation, the noise amount, the text and logo
  draws, the letterbox layout and the encoder arguments. The noise stage's
  byte loop itself is in module `Noise`.
 */
module ImageProcessor {

  import opened Common
  import opened Types

  /** A decoded image's width or height: always at least one pixel. */
  type Dim = d: int | d > 0 witness 1

  datatype Size = Size(width: Dim, height: Dim)

  // ---------------------------------------------------------------------
  // Colour filters
  // ---------------------------------------------------------------------

  /** One entry of the canvas `filter` list, with its percentage. */
  datatype Filter = Brightness(percent: int) | Contrast(percent: int) | Saturate(percent: int)

  /** The position a filter kind takes in the list. */
  function Rank(f: Filter): nat {
    match f
    case Brightness(_) => 0
    case Contrast(_) => 1
    case Saturate(_) => 2
  }

  /** True when `f` carries the percentage `s` holds for its kind. */
  predicate AgreesWith(f: Filter, s: EditorSettings) {
    match f
    case Brightness(p) => p == s.brightness
    case Contrast(p) => p == s.contrast
    case Saturate(p) => p == s.saturation
  }

  /**
    The filters pushed for non-identity settings: a brightness entry iff
    brightness is not 100, likewise contrast and saturate, in that order.
   */
  function Filters(s: EditorSettings): (r: seq<Filter>)
    ensures forall i, j :: 0 <= i < j < |r| ==> Rank(r[i]) < Rank(r[j])
    ensures forall i :: 0 <= i < |r| ==> AgreesWith(r[i], s)
    ensures Brightness(s.brightness) in r <==> s.brightness != 100
    ensures Contrast(s.contrast) in r <==> s.contrast != 100
    ensures Saturate(s.saturation) in r <==> s.saturation != 100
  {
    (if s.brightness != 100 then [Brightness(s.brightness)] else [])
    + (if s.contrast != 100 then [Contrast(s.contrast)] else [])
    + (if s.saturation != 100 then [Saturate(s.saturation)] else [])
  }

  /** The canvas filter: left unset (`None`) exactly when the list is empty. */
  function CanvasFilter(s: EditorSettings): (r: Option<seq<Filter>>)
    ensures r.None? <==> (s.brightness == 100 && s.contrast == 100 && s.saturation == 100)
    ensures r.Some? ==> r.value == Filters(s) && |r.value| > 0
  {
    var fs := Filters(s);
    if |fs| > 0 then Some(fs)
    else
      assert Brightness(s.brightness) !in fs;
      None
  }

  // ---------------------------------------------------------------------
  // Watermark geometry
  // ---------------------------------------------------------------------

  /**
    The position helper: the requested top-left corner is returned as given,
    whatever the main image's and the watermark's dimensions are.
   */
  function WatermarkPositionFor(mainWidth: real, mainHeight: real, wmWidth: real, wmHeight: real,
                                position: WatermarkPosition): (r: WatermarkPosition)
    ensures r.x == position.x && r.y == position.y
  {
    WatermarkPosition(position.x, position.y)
  }

  /** The text watermark's font size: `size` thousandths of the shorter side. */
  function FontSize(size: int, main: Size): (r: real)
    ensures r * 1000.0 <= size as real * main.width as real || size < 0
    ensures r * 1000.0 <= size as real * main.height as real || size < 0
    ensures r * 1000.0 == size as real * main.width as real || r * 1000.0 == size as real * main.height as real
  {
    var shorter := if main.width <= main.height then main.width else main.height;
    (size as real / 1000.0) * shorter as real
  }

  /**
    The logo's drawn box: the scale `size/100 * mainWidth/logoWidth` makes
    the drawn width `size` percent of the main width and keeps the logo's
    aspect ratio.
   */
  function LogoBox(size: int, main: Size, logo: Size): (r: (real, real))
    ensures r.0 * 100.0 == size as real * main.width as real
    ensures r.0 * logo.height as real == r.1 * logo.width as real
  {
    var scale := (size as real / 100.0) * (main.width as real / logo.width as real);
    var w := logo.width as real * scale;
    var h := logo.height as real * scale;
    assert w == (size as real / 100.0) * main.width as real;
    assert w * logo.height as real == h * logo.width as real;
    (w, h)
  }

  // ---------------------------------------------------------------------
  // Padding (letterbox)
  // ---------------------------------------------------------------------

  /**
    The padded canvas: its size and fill colour, and the box the current
    canvas is drawn into.
   */
  datatype PaddingLayout = PaddingLayout(
    canvasWidth: int,
    canvasHeight: int,
    color: string,
    x: real,
    y: real,
    drawWidth: real,
    drawHeight: real)

  /** `Math.min(a, b)` on reals. */
  function MinReal(a: real, b: real): (r: real)
    ensures r <= a && r <= b && (r == a || r == b)
  {
    if a <= b then a else b
  }

  const TwoTo31: int := 0x8000_0000
  const TwoTo32: int := 0x1_0000_0000

  /**
    What `canvas.width = v` (or `height`) stores. The attribute is an
    `unsigned long`, so `v` is first taken modulo 2^32; a result above
    2^31 - 1 is not stored and the canvas falls back to its default size
    (300 wide, 150 high).
   */
  function CanvasDimension(v: int, default: nat): (r: nat)
    requires default < TwoTo31
    ensures r < TwoTo31
    ensures 0 <= v < TwoTo31 ==> r == v
    ensures -TwoTo31 <= v < 0 ==> r == default
    ensures r == default || (r - v) % TwoTo32 == 0
  {
    var n := v % TwoTo32;
    if n < TwoTo31 then n else default
  }

  const DefaultCanvasWidth: nat := 300
  const DefaultCanvasHeight: nat := 150

  /**
    The letterbox layout for a `current`-sized canvas: the new canvas gets
    the padding size as `CanvasDimension` stores it (exactly `width x height`
    for sizes in [0, 2^31)); the content is scaled by `min(width/w, height/h)`
    computed from the settings, so it fits, touches at least one side and
    keeps its aspect ratio, and it is centred.
   */
  function Letterbox(current: Size, p: PaddingSettings): (r: PaddingLayout)
    ensures r.canvasWidth == CanvasDimension(p.width, DefaultCanvasWidth)
    ensures r.canvasHeight == CanvasDimension(p.height, DefaultCanvasHeight)
    ensures 0 <= p.width < TwoTo31 && 0 <= p.height < TwoTo31 ==> r.canvasWidth == p.width && r.canvasHeight == p.height
    ensures r.color == p.color
    ensures r.drawWidth <= p.width as real && r.drawHeight <= p.height as real
    ensures r.drawWidth == p.width as real || r.drawHeight == p.height as real
    ensures r.drawWidth * current.height as real == r.drawHeight * current.width as real
    ensures 0.0 <= r.x && 0.0 <= r.y
    ensures 2.0 * r.x + r.drawWidth == p.width as real
    ensures 2.0 * r.y + r.drawHeight == p.height as real
  {
    var w := current.width as real;
    var h := current.height as real;
    var W := p.width as real;
    var H := p.height as real;
    var scale := MinReal(W / w, H / h);
    var sw := w * scale;
    var sh := h * scale;
    ScaledBelow(w, scale, W);
    ScaledBelow(h, scale, H);
    assert scale == W / w ==> sw == W;
    assert scale == H / h ==> sh == H;
    assert sw * h == sh * w;
    PaddingLayout(CanvasDimension(p.width, DefaultCanvasWidth), CanvasDimension(p.height, DefaultCanvasHeight),
                  p.color, (W - sw) / 2.0, (H - sh) / 2.0, sw, sh)
  }

  /** Multiplying a positive length by a scale at most `bound/length` stays within `bound`. */
  lemma ScaledBelow(length: real, scale: real, bound: real)
    requires length > 0.0 && scale <= bound / length
    ensures length * scale <= bound
  {
    assert length * scale <= length * (bound / length);
  }

  /**
    The padding step: disabled padding hands back the current canvas
    (`None`), enabled padding the letterbox layout of a new canvas, whose
    size is the padding size unless that size is negative or beyond
    2^31 - 1.
   */
  function ApplyPadding(current: Size, p: PaddingSettings): (r: Option<PaddingLayout>)
    ensures r.None? <==> !p.enabled
    ensures r.Some? ==> r.value.canvasWidth == CanvasDimension(p.width, DefaultCanvasWidth)
                        && r.value.canvasHeight == CanvasDimension(p.height, DefaultCanvasHeight)
    ensures r.Some? && 0 <= p.width < TwoTo31 && 0 <= p.height < TwoTo31 ==>
              r.value.canvasWidth == p.width && r.value.canvasHeight == p.height
  {
    if !p.enabled then None else Some(Letterbox(current, p))
  }

  // ---------------------------------------------------------------------
  // Encoder arguments
  // ---------------------------------------------------------------------

  /** The arguments to `toDataURL`: a MIME type and an optional quality factor. */
  datatype Encoding = Encoding(mime: string, quality: Option<real>)

  /**
    `png` and `webp` are encoded without a quality argument; `jpeg` and
    every other value fall to the default branch: JPEG with
    `outputQuality / 100`.
   */
  function OutputEncoding(format: string, outputQuality: int): (r: Encoding)
    ensures format == Png ==> r == Encoding("image/png", None)
    ensures format == Webp ==> r == Encoding("image/webp", None)
    ensures format != Png && format != Webp ==>
              r.mime == "image/jpeg" && r.quality.Some? && r.quality.value * 100.0 == outputQuality as real
  {
    if format == Png then Encoding("image/png", None)
    else if format == Webp then Encoding("image/webp", None)
    else Encoding("image/jpeg", Some(outputQuality as real / 100.0))
  }

  /**
    For the three formats the UI offers, the MIME type is `image/` followed
    by the format name (which is also the download extension), and a
    quality factor is passed only for JPEG, where a quality in [1, 100]
    becomes a factor in [0.01, 1].
   */
  lemma EncodingMatchesFormat(format: string, outputQuality: int)
    requires format in {Jpeg, Png, Webp}
    ensures OutputEncoding(format, outputQuality).mime == "image/" + format
    ensures OutputEncoding(format, outputQuality).quality.Some? <==> format == Jpeg
    ensures format == Jpeg && 1 <= outputQuality <= 100 ==>
              0.01 <= OutputEncoding(format, outputQuality).quality.value <= 1.0
  {
  }

  // ---------------------------------------------------------------------
  // The whole transform
  // ---------------------------------------------------------------------

  datatype TextDraw = TextDraw(
    text: string,
    color: string,
    opacity: real,
    fontSize: real,
    at: WatermarkPosition)

  datatype LogoDraw = LogoDraw(
    opacity: real,
    width: real,
    height: real,
    at: WatermarkPosition)

  /**
    What `processImage` hands to the canvas, in stage order. `rotation` is
    in degrees (the source converts to radians for `rotate`); `noise` is
    the amount when the noise stage runs. Watermarks are drawn after the
    filter is reset, so they carry no filter.
   */
  datatype RenderPlan = RenderPlan(
    size: Size,
    filter: Option<seq<Filter>>,
    whiteBackground: bool,
    rotation: real,
    noise: Option<int>,
    text: Option<TextDraw>,
    logo: Option<LogoDraw>,
    padding: Option<PaddingLayout>,
    encoding: Encoding)
  {
    /** The width of the canvas that is finally encoded. */
    function OutputWidth(): int {
      if padding.Some? then padding.value.canvasWidth else size.width
    }

    /** The height of the canvas that is finally encoded. */
    function OutputHeight(): int {
      if padding.Some? then padding.value.canvasHeight else size.height
    }
  }

  /**
    Why a transform fails: the main image could not be loaded, or the
    finished canvas may not be read back because a logo from another origin
    was drawn on it (`toDataURL` throws a `SecurityError`).
   */
  datatype ProcessError = SourceLoadFailed | ExportBlocked

  /**
    A decoded logo: its size, and whether it came from the page's own origin
    (a `data:` URL does). `loadImage` sets no `crossOrigin`, so a logo from
    another origin loads but marks the canvas it is drawn on as not
    origin-clean.
   */
  datatype LoadedLogo = LoadedLogo(size: Size, originClean: bool)

  /** The text watermark draw: only when enabled and the text is non-empty. */
  function TextStage(s: EditorSettings, main: Size): (r: Option<TextDraw>)
    ensures r.Some? <==> s.isTextWatermarkEnabled && s.textWatermark.text != ""
    ensures r.Some? ==> r.value.at == s.textWatermark.position && r.value.text == s.textWatermark.text
                        && r.value.opacity == s.textWatermark.opacity && r.value.color == s.textWatermark.color
    ensures r.Some? ==> r.value.fontSize == FontSize(s.textWatermark.size, main)
  {
    if s.isTextWatermarkEnabled && s.textWatermark.text != "" then
      var fontSize := FontSize(s.textWatermark.size, main);
      var at := WatermarkPositionFor(main.width as real, main.height as real, 0.0, fontSize, s.textWatermark.position);
      Some(TextDraw(s.textWatermark.text, s.textWatermark.color, s.textWatermark.opacity, fontSize, at))
    else None
  }

  /**
    The logo draw: only when enabled, the logo source is a non-empty string
    and it loaded (`logoLoad` is the decoded logo, `None` when loading
    failed, which is caught and skips the logo).
   */
  function LogoStage(s: EditorSettings, main: Size, logoSrc: Option<string>, logoLoad: Option<LoadedLogo>): (r: Option<LogoDraw>)
    ensures r.Some? <==> s.isImageWatermarkEnabled && logoSrc.Some? && logoSrc.value != "" && logoLoad.Some?
    ensures r.Some? ==> r.value.at == s.imageWatermark.position && r.value.opacity == s.imageWatermark.opacity
    ensures r.Some? ==> r.value.width * 100.0 == s.imageWatermark.size as real * main.width as real
    ensures r.Some? ==> r.value.width * logoLoad.value.size.height as real == r.value.height * logoLoad.value.size.width as real
  {
    if s.isImageWatermarkEnabled && logoSrc.Some? && logoSrc.value != "" then
      match logoLoad
      case None => None
      case Some(logo) =>
        var box := LogoBox(s.imageWatermark.size, main, logo.size);
        var at := WatermarkPositionFor(main.width as real, main.height as real, box.0, box.1, s.imageWatermark.position);
        Some(LogoDraw(s.imageWatermark.opacity, box.0, box.1, at))
    else None
  }

  /** True when the logo stage draws a logo from another origin onto the canvas. */
  predicate TaintsCanvas(s: EditorSettings, logoSrc: Option<string>, logoLoad: Option<LoadedLogo>): (r: bool)
    ensures !s.isImageWatermarkEnabled || logoLoad.None? ==> !r
    ensures r ==> !logoLoad.value.originClean
  {
    && s.isImageWatermarkEnabled && logoSrc.Some? && logoSrc.value != ""
    && logoLoad.Some? && !logoLoad.value.originClean
  }

  /** The canvas is tainted exactly when the logo stage draws a logo that is not origin-clean. */
  lemma TaintsIffUncleanLogoDrawn(s: EditorSettings, main: Size, logoSrc: Option<string>, logoLoad: Option<LoadedLogo>)
    ensures TaintsCanvas(s, logoSrc, logoLoad) <==>
              LogoStage(s, main, logoSrc, logoLoad).Some? && !logoLoad.value.originClean
  {
  }

  /**
    `processImage(originalSrc, settings, watermarkImgSrc)`: `source` is the
    decoded main image (`None` when loading it fails, which rejects),
    `logoLoad` the decoded logo. The main image is a `data:` URL and never
    taints the canvas; a drawn cross-origin logo makes the final
    `toDataURL` throw, which rejects too.
   */
  function ProcessImage(source: Option<Size>, s: EditorSettings, logoSrc: Option<string>, logoLoad: Option<LoadedLogo>)
    : (r: Result<RenderPlan, ProcessError>)
    ensures r.Err? <==> source.None? || TaintsCanvas(s, logoSrc, logoLoad)
    ensures r.Err? ==> (r.error == SourceLoadFailed <==> source.None?)
    ensures r.Ok? ==> r.value.size == source.value
    ensures r.Ok? ==> r.value.filter == CanvasFilter(s)
    ensures r.Ok? ==> (r.value.whiteBackground <==> s.outputFormat == Jpeg)
    ensures r.Ok? ==> r.value.rotation == s.rotation
    ensures r.Ok? ==> (r.value.noise.Some? <==> s.noise > 0)
    ensures r.Ok? && r.value.noise.Some? ==> r.value.noise.value == s.noise
    ensures r.Ok? ==> r.value.text == TextStage(s, source.value)
    ensures r.Ok? ==> r.value.logo == LogoStage(s, source.value, logoSrc, logoLoad)
    ensures r.Ok? ==> r.value.padding == ApplyPadding(source.value, s.padding)
    ensures r.Ok? ==> (r.value.padding.None? <==> !s.padding.enabled)
    ensures r.Ok? && s.padding.enabled ==>
              r.value.OutputWidth() == CanvasDimension(s.padding.width, DefaultCanvasWidth)
              && r.value.OutputHeight() == CanvasDimension(s.padding.height, DefaultCanvasHeight)
    ensures r.Ok? && !s.padding.enabled ==> r.value.OutputWidth() == source.value.width && r.value.OutputHeight() == source.value.height
    ensures r.Ok? ==> r.value.encoding == OutputEncoding(s.outputFormat, s.outputQuality)
  {
    match source
    case None => Err(SourceLoadFailed)
    case Some(main) =>
      if TaintsCanvas(s, logoSrc, logoLoad) then Err(ExportBlocked)
      else
        Ok(RenderPlan(
          size := main,
          filter := CanvasFilter(s),
          whiteBackground := s.outputFormat == Jpeg,
          rotation := s.rotation,
          noise := if s.noise > 0 then Some(s.noise) else None,
          text := TextStage(s, main),
          logo := LogoStage(s, main, logoSrc, logoLoad),
          padding := ApplyPadding(main, s.padding),
          encoding := OutputEncoding(s.outputFormat, s.outputQuality)))
  }

  /**
    Identity settings (colour at 100, no noise, no rotation, no watermarks,
    no padding) give a plan that draws the source unchanged: no filter, no
    noise, no overlays, the source's own size.
   */
  lemma IdentitySettingsPlan(main: Size, s: EditorSettings, logoSrc: Option<string>, logoLoad: Option<LoadedLogo>)
    requires s.brightness == 100 && s.contrast == 100 && s.saturation == 100
    requires s.noise == 0 && s.rotation == 0.0
    requires !s.isTextWatermarkEnabled && !s.isImageWatermarkEnabled && !s.padding.enabled
    ensures var r := ProcessImage(Some(main), s, logoSrc, logoLoad);
            && r.Ok? && r.value.filter.None? && r.value.noise.None? && r.value.rotation == 0.0
            && r.value.text.None? && r.value.logo.None? && r.value.padding.None?
            && r.value.OutputWidth() == main.width && r.value.OutputHeight() == main.height
  {
  }

  /** A logo that fails to load never fails the transform; it is only left out. */
  lemma LogoFailureIsNotFatal(main: Size, s: EditorSettings, logoSrc: Option<string>)
    ensures var r := ProcessImage(Some(main), s, logoSrc, None);
            r.Ok? && r.value.logo.None? && r.value.text == TextStage(s, main)
  {
  }

  /**
    A logo from another origin that loads and is drawn makes the export
    fail, whatever else the settings ask for; the same logo from the page's
    own origin is drawn and exported.
   */
  lemma CrossOriginLogoBlocksExport(main: Size, s: EditorSettings, logoSrc: string, logo: Size)
    requires s.isImageWatermarkEnabled && logoSrc != ""
    ensures ProcessImage(Some(main), s, Some(logoSrc), Some(LoadedLogo(logo, false))) == Err(ExportBlocked)
    ensures var r := ProcessImage(Some(main), s, Some(logoSrc), Some(LoadedLogo(logo, true)));
            r.Ok? && r.value.logo.Some?
  {
  }

  /**
    A padding width typed as -5 is stored as is, but the canvas cannot take
    it: the padded canvas is 300 pixels wide, the default width.
   */
  lemma NegativePaddingWidthGivesDefaultCanvas(main: Size)
    ensures var r := ApplyPadding(main, PaddingSettings(true, -5, 1600, "#ffffff"));
            r.Some? && r.value.canvasWidth == 300 && r.value.canvasHeight == 1600
  {
  }

  /**
    A non-positive noise amount is no amount at all: the plan is the one
    for noise 0, whatever the other settings are.
   */
  lemma NonPositiveNoiseIsNoNoise(source: Option<Size>, s: EditorSettings, n: int,
                                  logoSrc: Option<string>, logoLoad: Option<LoadedLogo>)
    requires n <= 0
    ensures ProcessImage(source, s.(noise := n), logoSrc, logoLoad)
         == ProcessImage(source, s.(noise := 0), logoSrc, logoLoad)
  {
  }

  /**
    A 100 x 100 image letterboxed into 200 x 100 is drawn at its own size,
    50 pixels from the left edge and flush with the top and bottom.
   */
  lemma LetterboxWideTarget()
    ensures var r := Letterbox(Size(100, 100), PaddingSettings(true, 200, 100, "#000000"));
            r.canvasWidth == 200 && r.canvasHeight == 100
            && r.drawWidth == 100.0 && r.drawHeight == 100.0 && r.x == 50.0 && r.y == 0.0
  {
  }
}
