/**
  The settings updates of `components/ControlsPanel.tsx`. Every handler
  builds a new `EditorSettings` from the snapshot it was rendered with and
  hands it to the application's state setter, which stores it whole. The
  numeric inputs turn the browser's parse result into a stored value with
  the clamp-or-default expressions of their `onChange` handlers.
 */
module Controls {

  import opened Common
  import opened Types
  import ImageProcessor

  // ---------------------------------------------------------------------
  // handleSettingChange: one top-level field
  // ---------------------------------------------------------------------

  /** A top-level field of `EditorSettings` together with its new value. */
  datatype SettingUpdate =
    | SetRotation(rotation: real)
    | SetTextWatermarkEnabled(textEnabled: bool)
    | SetTextWatermark(text: TextWatermark)
    | SetImageWatermarkEnabled(imageEnabled: bool)
    | SetImageWatermark(image: ImageWatermark)
    | SetBrightness(brightness: int)
    | SetContrast(contrast: int)
    | SetSaturation(saturation: int)
    | SetNoise(noise: int)
    | SetOutputQuality(quality: int)
    | SetOutputFormat(format: string)
    | SetPadding(padding: PaddingSettings)

  /** `s` holds the value that `u` writes. */
  predicate Holds(s: EditorSettings, u: SettingUpdate) {
    match u
    case SetRotation(v) => s.rotation == v
    case SetTextWatermarkEnabled(v) => s.isTextWatermarkEnabled == v
    case SetTextWatermark(v) => s.textWatermark == v
    case SetImageWatermarkEnabled(v) => s.isImageWatermarkEnabled == v
    case SetImageWatermark(v) => s.imageWatermark == v
    case SetBrightness(v) => s.brightness == v
    case SetContrast(v) => s.contrast == v
    case SetSaturation(v) => s.saturation == v
    case SetNoise(v) => s.noise == v
    case SetOutputQuality(v) => s.outputQuality == v
    case SetOutputFormat(v) => s.outputFormat == v
    case SetPadding(v) => s.padding == v
  }

  /** `a` and `b` agree on every top-level field except the one `u` writes. */
  predicate SameExcept(a: EditorSettings, b: EditorSettings, u: SettingUpdate) {
    && (u.SetRotation? || a.rotation == b.rotation)
    && (u.SetTextWatermarkEnabled? || a.isTextWatermarkEnabled == b.isTextWatermarkEnabled)
    && (u.SetTextWatermark? || a.textWatermark == b.textWatermark)
    && (u.SetImageWatermarkEnabled? || a.isImageWatermarkEnabled == b.isImageWatermarkEnabled)
    && (u.SetImageWatermark? || a.imageWatermark == b.imageWatermark)
    && (u.SetBrightness? || a.brightness == b.brightness)
    && (u.SetContrast? || a.contrast == b.contrast)
    && (u.SetSaturation? || a.saturation == b.saturation)
    && (u.SetNoise? || a.noise == b.noise)
    && (u.SetOutputQuality? || a.outputQuality == b.outputQuality)
    && (u.SetOutputFormat? || a.outputFormat == b.outputFormat)
    && (u.SetPadding? || a.padding == b.padding)
  }

  /** `{ ...settings, [key]: value }`: the field takes the value, nothing else changes. */
  function HandleSettingChange(s: EditorSettings, u: SettingUpdate): (r: EditorSettings)
    ensures Holds(r, u)
    ensures SameExcept(s, r, u)
  {
    match u
    case SetRotation(v) => s.(rotation := v)
    case SetTextWatermarkEnabled(v) => s.(isTextWatermarkEnabled := v)
    case SetTextWatermark(v) => s.(textWatermark := v)
    case SetImageWatermarkEnabled(v) => s.(isImageWatermarkEnabled := v)
    case SetImageWatermark(v) => s.(imageWatermark := v)
    case SetBrightness(v) => s.(brightness := v)
    case SetContrast(v) => s.(contrast := v)
    case SetSaturation(v) => s.(saturation := v)
    case SetNoise(v) => s.(noise := v)
    case SetOutputQuality(v) => s.(outputQuality := v)
    case SetOutputFormat(v) => s.(outputFormat := v)
    case SetPadding(v) => s.(padding := v)
  }

  /**
    An update is determined by its two halves: any settings that hold the
    written value and agree with `s` elsewhere are the handler's result.
   */
  lemma SettingChangeUnique(s: EditorSettings, u: SettingUpdate, t: EditorSettings)
    requires Holds(t, u) && SameExcept(s, t, u)
    ensures t == HandleSettingChange(s, u)
  {
  }

  /** Writing the value a field already holds changes nothing; writing twice is writing once. */
  lemma SettingChangeIdempotent(s: EditorSettings, u: SettingUpdate)
    ensures Holds(s, u) ==> HandleSettingChange(s, u) == s
    ensures HandleSettingChange(HandleSettingChange(s, u), u) == HandleSettingChange(s, u)
  {
  }

  // ---------------------------------------------------------------------
  // handleWatermarkChange and handlePaddingChange: one nested field
  // ---------------------------------------------------------------------

  /** A field of the text watermark and its new value. */
  datatype TextKey =
    | TextContent(text: string)
    | TextColor(color: string)
    | TextSize(size: int)
    | TextOpacity(opacity: real)
    | TextPosition(position: WatermarkPosition)

  /** A field of the image watermark and its new value. */
  datatype ImageKey =
    | ImageSrc(src: Option<string>)
    | ImageSize(size: int)
    | ImageOpacity(opacity: real)
    | ImagePosition(position: WatermarkPosition)

  /** `handleWatermarkChange(type, key, value)`: the `type` is which constructor. */
  datatype WatermarkChange = TextChange(textKey: TextKey) | ImageChange(imageKey: ImageKey)

  function UpdateText(w: TextWatermark, k: TextKey): (r: TextWatermark)
    ensures k.TextContent? ==> r.text == k.text
    ensures k.TextColor? ==> r.color == k.color
    ensures k.TextSize? ==> r.size == k.size
    ensures k.TextOpacity? ==> r.opacity == k.opacity
    ensures k.TextPosition? ==> r.position == k.position
    ensures !k.TextContent? ==> r.text == w.text
    ensures !k.TextColor? ==> r.color == w.color
    ensures !k.TextSize? ==> r.size == w.size
    ensures !k.TextOpacity? ==> r.opacity == w.opacity
    ensures !k.TextPosition? ==> r.position == w.position
  {
    match k
    case TextContent(v) => w.(text := v)
    case TextColor(v) => w.(color := v)
    case TextSize(v) => w.(size := v)
    case TextOpacity(v) => w.(opacity := v)
    case TextPosition(v) => w.(position := v)
  }

  function UpdateImage(w: ImageWatermark, k: ImageKey): (r: ImageWatermark)
    ensures k.ImageSrc? ==> r.src == k.src
    ensures k.ImageSize? ==> r.size == k.size
    ensures k.ImageOpacity? ==> r.opacity == k.opacity
    ensures k.ImagePosition? ==> r.position == k.position
    ensures !k.ImageSrc? ==> r.src == w.src
    ensures !k.ImageSize? ==> r.size == w.size
    ensures !k.ImageOpacity? ==> r.opacity == w.opacity
    ensures !k.ImagePosition? ==> r.position == w.position
  {
    match k
    case ImageSrc(v) => w.(src := v)
    case ImageSize(v) => w.(size := v)
    case ImageOpacity(v) => w.(opacity := v)
    case ImagePosition(v) => w.(position := v)
  }

  /**
    `{ ...settings, [watermarkKey]: { ...settings[watermarkKey], [key]: value } }`:
    exactly one watermark record changes, in exactly one field; it is the
    top-level update of that record.
   */
  function HandleWatermarkChange(s: EditorSettings, c: WatermarkChange): (r: EditorSettings)
    ensures c.TextChange? ==> r == HandleSettingChange(s, SetTextWatermark(UpdateText(s.textWatermark, c.textKey)))
    ensures c.ImageChange? ==> r == HandleSettingChange(s, SetImageWatermark(UpdateImage(s.imageWatermark, c.imageKey)))
    ensures c.TextChange? ==> r.imageWatermark == s.imageWatermark
    ensures c.ImageChange? ==> r.textWatermark == s.textWatermark
  {
    match c
    case TextChange(k) => s.(textWatermark := UpdateText(s.textWatermark, k))
    case ImageChange(k) => s.(imageWatermark := UpdateImage(s.imageWatermark, k))
  }

  /** A field of the padding settings and its new value. */
  datatype PaddingKey =
    | PaddingEnabled(enabled: bool)
    | PaddingWidth(width: int)
    | PaddingHeight(height: int)
    | PaddingColor(color: string)

  function UpdatePadding(p: PaddingSettings, k: PaddingKey): (r: PaddingSettings)
    ensures k.PaddingEnabled? ==> r.enabled == k.enabled
    ensures k.PaddingWidth? ==> r.width == k.width
    ensures k.PaddingHeight? ==> r.height == k.height
    ensures k.PaddingColor? ==> r.color == k.color
    ensures !k.PaddingEnabled? ==> r.enabled == p.enabled
    ensures !k.PaddingWidth? ==> r.width == p.width
    ensures !k.PaddingHeight? ==> r.height == p.height
    ensures !k.PaddingColor? ==> r.color == p.color
  {
    match k
    case PaddingEnabled(v) => p.(enabled := v)
    case PaddingWidth(v) => p.(width := v)
    case PaddingHeight(v) => p.(height := v)
    case PaddingColor(v) => p.(color := v)
  }

  /** `{ ...settings, padding: { ...settings.padding, [key]: value } }`. */
  function HandlePaddingChange(s: EditorSettings, k: PaddingKey): (r: EditorSettings)
    ensures r == HandleSettingChange(s, SetPadding(UpdatePadding(s.padding, k)))
  {
    s.(padding := UpdatePadding(s.padding, k))
  }

  // ---------------------------------------------------------------------
  // clearWatermarks
  // ---------------------------------------------------------------------

  /**
    Both watermarks are switched off, the text emptied and the logo source
    dropped; colour, size, opacity and position of both are kept, and so is
    every other setting.
   */
  function ClearWatermarks(s: EditorSettings): (r: EditorSettings)
    ensures !r.isTextWatermarkEnabled && !r.isImageWatermarkEnabled
    ensures r.textWatermark == s.textWatermark.(text := "")
    ensures r.imageWatermark == s.imageWatermark.(src := None)
    ensures r.(isTextWatermarkEnabled := s.isTextWatermarkEnabled,
               isImageWatermarkEnabled := s.isImageWatermarkEnabled,
               textWatermark := s.textWatermark,
               imageWatermark := s.imageWatermark) == s
  {
    s.(isTextWatermarkEnabled := false,
       isImageWatermarkEnabled := false,
       textWatermark := s.textWatermark.(text := ""),
       imageWatermark := s.imageWatermark.(src := None))
  }

  /** Clearing twice is clearing once. */
  lemma ClearWatermarksIdempotent(s: EditorSettings)
    ensures ClearWatermarks(ClearWatermarks(s)) == ClearWatermarks(s)
  {
  }

  /**
    After clearing, processing draws neither watermark, whatever logo the
    caller still passes, so it fails only when the main image does not
    load; every other stage of the plan is as before.
   */
  lemma ClearedSettingsDrawNoWatermark(source: Option<ImageProcessor.Size>, s: EditorSettings,
                                       logoSrc: Option<string>, logoLoad: Option<ImageProcessor.LoadedLogo>)
    ensures var r := ImageProcessor.ProcessImage(source, ClearWatermarks(s), logoSrc, logoLoad);
            var q := ImageProcessor.ProcessImage(source, s, logoSrc, logoLoad);
            && (r.Ok? <==> source.Some?)
            && (r.Ok? ==> r.value.text.None? && r.value.logo.None?)
            && (q.Ok? ==> r.Ok? && r.value.(text := q.value.text, logo := q.value.logo) == q.value)
  {
  }

  // ---------------------------------------------------------------------
  // The numeric inputs
  // ---------------------------------------------------------------------

  /**
    The rotation number box: `Math.max(-5, Math.min(5, parseFloat(v) || 0))`.
    `parsed` is `parseFloat`'s result, `None` for NaN.
   */
  function RotationInput(parsed: Option<real>): (r: real)
    ensures -5.0 <= r <= 5.0
    ensures parsed.None? ==> r == 0.0
    ensures parsed.Some? && -5.0 <= parsed.value <= 5.0 ==> r == parsed.value
    ensures parsed.Some? && parsed.value > 5.0 ==> r == 5.0
    ensures parsed.Some? && parsed.value < -5.0 ==> r == -5.0
  {
    ClampReal(RealOr(parsed, 0.0), -5.0, 5.0)
  }

  /**
    The offset number box of brightness, contrast and saturation: it shows
    `value - 100` and stores `Math.max(0, Math.min(200, (parseInt(v) || 0) + 100))`.
   */
  function PercentOffsetInput(parsed: Option<int>): (r: int)
    ensures 0 <= r <= 200
    ensures parsed.None? ==> r == 100
    ensures parsed.Some? && -100 <= parsed.value <= 100 ==> r == parsed.value + 100
    ensures parsed.Some? && parsed.value > 100 ==> r == 200
    ensures parsed.Some? && parsed.value < -100 ==> r == 0
  {
    Clamp(IntOr(parsed, 0) + 100, 0, 200)
  }

  /** Reading back the displayed offset of a stored percentage in [0, 200] stores it again. */
  lemma PercentOffsetRoundTrip(stored: int)
    requires 0 <= stored <= 200
    ensures PercentOffsetInput(Some(stored - 100)) == stored
  {
  }

  /** The noise number box: `Math.max(0, Math.min(100, parseInt(v) || 0))`. */
  function NoiseInput(parsed: Option<int>): (r: int)
    ensures 0 <= r <= 100
    ensures parsed.None? ==> r == 0
    ensures parsed.Some? && 0 <= parsed.value <= 100 ==> r == parsed.value
    ensures parsed.Some? && parsed.value > 100 ==> r == 100
    ensures parsed.Some? && parsed.value < 0 ==> r == 0
  {
    Clamp(IntOr(parsed, 0), 0, 100)
  }

  /**
    The quality number box: `Math.max(1, Math.min(100, parseInt(v) || 0))`.
    An unparsable entry or a 0 falls to the default 0 and is raised to 1.
   */
  function QualityInput(parsed: Option<int>): (r: int)
    ensures 1 <= r <= 100
    ensures parsed.None? ==> r == 1
    ensures parsed.Some? && 1 <= parsed.value <= 100 ==> r == parsed.value
    ensures parsed.Some? && parsed.value <= 0 ==> r == 1
    ensures parsed.Some? && parsed.value > 100 ==> r == 100
  {
    Clamp(IntOr(parsed, 0), 1, 100)
  }

  /**
    The padding width box: `parseInt(v) || 1200`. There is no clamp, so a
    negative entry is stored as typed; only NaN and 0 fall back.
   */
  function PaddingWidthInput(parsed: Option<int>): (r: int)
    ensures r != 0
    ensures parsed.None? ==> r == 1200
    ensures parsed.Some? ==> r == (if parsed.value == 0 then 1200 else parsed.value)
  {
    IntOr(parsed, 1200)
  }

  /** The padding height box: `parseInt(v) || 1600`, the same shape as the width. */
  function PaddingHeightInput(parsed: Option<int>): (r: int)
    ensures r != 0
    ensures parsed.None? ==> r == 1600
    ensures parsed.Some? ==> r == (if parsed.value == 0 then 1600 else parsed.value)
  {
    IntOr(parsed, 1600)
  }

  /** Which coordinate a watermark position box edits. */
  datatype Axis = X | Y

  /**
    A watermark coordinate box: `{ ...position, [axis]: parseInt(v) || 0 }`
    written through `handleWatermarkChange`. Only that coordinate of that
    watermark changes.
   */
  function CoordinateInput(s: EditorSettings, forText: bool, axis: Axis, parsed: Option<int>): (r: EditorSettings)
    ensures var v := IntOr(parsed, 0);
            var before := if forText then s.textWatermark.position else s.imageWatermark.position;
            var now := if forText then r.textWatermark.position else r.imageWatermark.position;
            now == (if axis == X then before.(x := v) else before.(y := v))
    ensures forText ==> r == s.(textWatermark := r.textWatermark)
                        && r.textWatermark == s.textWatermark.(position := r.textWatermark.position)
    ensures !forText ==> r == s.(imageWatermark := r.imageWatermark)
                         && r.imageWatermark == s.imageWatermark.(position := r.imageWatermark.position)
  {
    var v := IntOr(parsed, 0);
    var before := if forText then s.textWatermark.position else s.imageWatermark.position;
    var moved := if axis == X then before.(x := v) else before.(y := v);
    if forText then HandleWatermarkChange(s, TextChange(TextPosition(moved)))
    else HandleWatermarkChange(s, ImageChange(ImagePosition(moved)))
  }

  // ---------------------------------------------------------------------
  // Buttons
  // ---------------------------------------------------------------------

  /** The seven position presets, top-left through bottom-right. */
  const PresetPositions: seq<WatermarkPosition> := [
    WatermarkPosition(20, 20), WatermarkPosition(200, 20), WatermarkPosition(400, 20),
    WatermarkPosition(200, 200),
    WatermarkPosition(20, 400), WatermarkPosition(200, 400), WatermarkPosition(400, 400)
  ]

  /** The preset coordinates come from the grid {20, 200, 400} and no two presets coincide. */
  lemma PresetPositionsGrid()
    ensures forall i :: 0 <= i < |PresetPositions| ==>
              PresetPositions[i].x in {20, 200, 400} && PresetPositions[i].y in {20, 200, 400}
    ensures forall i, j :: 0 <= i < j < |PresetPositions| ==> PresetPositions[i] != PresetPositions[j]
  {
  }

  /** The three format buttons. */
  const FormatChoices: seq<string> := [Jpeg, Png, Webp]

  /**
    Whatever a user types into a number box, the stored value stays inside
    the range the controls advertise, so the controls keep the settings in
    range when they start there.
   */
  lemma NumberInputsKeepRanges(s: EditorSettings, rot: Option<real>, pct: Option<int>, noise: Option<int>, q: Option<int>)
    requires InControlRanges(s)
    ensures InControlRanges(s.(rotation := RotationInput(rot)))
    ensures InControlRanges(s.(brightness := PercentOffsetInput(pct)))
    ensures InControlRanges(s.(contrast := PercentOffsetInput(pct)))
    ensures InControlRanges(s.(saturation := PercentOffsetInput(pct)))
    ensures InControlRanges(s.(noise := NoiseInput(noise)))
    ensures InControlRanges(s.(outputQuality := QualityInput(q)))
  {
  }

  /** The format buttons store one of the three formats the encoder knows. */
  lemma FormatButtonsKeepRanges(s: EditorSettings, k: nat)
    requires InControlRanges(s) && k < |FormatChoices|
    ensures InControlRanges(HandleSettingChange(s, SetOutputFormat(FormatChoices[k])))
  {
  }

  // ---------------------------------------------------------------------
  // The padding presets
  // ---------------------------------------------------------------------

  /**
    A preset button as written: it calls `handlePaddingChange('width', w)`
    and then `handlePaddingChange('height', h)`. Both calls spread the same
    rendered `settings`, and the state setter keeps the last object it is
    handed, so the stored settings are the second update of the ORIGINAL
    snapshot.
   */
  function PresetAsWritten(s: EditorSettings, w: int, h: int): (r: EditorSettings)
    ensures r.padding.height == h
    ensures r.padding.width == s.padding.width
    ensures r == s.(padding := s.padding.(height := h))
  {
    var first := HandlePaddingChange(s, PaddingWidth(w));
    var second := HandlePaddingChange(s, PaddingHeight(h));
    second
  }

  /** From the start-up settings the 1:1 button leaves a 1200 x 1080 canvas instead of 1080 x 1080. */
  lemma PresetAsWrittenLosesWidth()
    ensures PresetAsWritten(DefaultSettings, 1080, 1080).padding.width == 1200
    ensures PresetAsWritten(DefaultSettings, 1080, 1080).padding.width != 1080
  {
  }

  /**
    The preset as intended: the height update applied to the result of the
    width update, so both dimensions take the preset and nothing else
    changes.
   */
  function PresetCorrected(s: EditorSettings, w: int, h: int): (r: EditorSettings)
    ensures r.padding == s.padding.(width := w, height := h)
    ensures r == s.(padding := r.padding)
  {
    HandlePaddingChange(HandlePaddingChange(s, PaddingWidth(w)), PaddingHeight(h))
  }

  /**
    The "1200×1600" button as written: only the height reaches the stored
    settings.
   */
  function ThreeByFourButton(s: EditorSettings): (r: EditorSettings)
    ensures r.padding.height == 1600
    ensures r.padding.width == s.padding.width
    ensures s.padding.width != 1200 ==> r.padding.width * 4 != r.padding.height * 3
  {
    PresetAsWritten(s, 1200, 1600)
  }

  /** The "1080×1080" button as written: only the height reaches the stored settings. */
  function SquareButton(s: EditorSettings): (r: EditorSettings)
    ensures r.padding.height == 1080
    ensures r.padding.width == s.padding.width
    ensures s.padding.width != 1080 ==> r.padding.width != r.padding.height
  {
    PresetAsWritten(s, 1080, 1080)
  }

  /** The "1200×1600" button as intended: a 1200 x 1600 canvas, a 3:4 ratio. */
  function ThreeByFourIntended(s: EditorSettings): (r: EditorSettings)
    ensures r.padding.width == 1200 && r.padding.height == 1600
    ensures r.padding.width * 4 == r.padding.height * 3
    ensures r == s.(padding := r.padding)
  {
    PresetCorrected(s, 1200, 1600)
  }

  /** The "1080×1080" button as intended: a square 1080 x 1080 canvas. */
  function SquareIntended(s: EditorSettings): (r: EditorSettings)
    ensures r.padding.width == 1080 && r.padding.height == 1080
    ensures r == s.(padding := r.padding)
  {
    PresetCorrected(s, 1080, 1080)
  }

  /**
    With the corrected presets, applying one preset after another is the
    same as applying only the last, and the result is independent of the
    order the two fields are written in.
   */
  lemma PresetsCommute(s: EditorSettings, w: int, h: int, w2: int, h2: int)
    ensures PresetCorrected(PresetCorrected(s, w, h), w2, h2) == PresetCorrected(s, w2, h2)
    ensures PresetCorrected(s, w, h) == HandlePaddingChange(HandlePaddingChange(s, PaddingHeight(h)), PaddingWidth(w))
  {
  }
}
