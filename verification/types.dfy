/**
  The editor's records: one datatype per interface of the type declarations
  (`ImageInfo`, `WatermarkPosition`, `TextWatermark`, `ImageWatermark`,
  `PaddingSettings`, `EditorSettings`), plus the browser `File` reduced to the
  two attributes the editor reads.
 */
module Types {

  import opened Common

  /** A browser `File`: its name and MIME type; the bytes are opaque. */
  datatype File = File(name: string, mimeType: string)

  /**
    One image of the gallery. `hash` is the integer that `simpleHash`
    renders as a decimal string; decimal rendering is injective, so
    comparing the integers is comparing the strings.
   */
  datatype ImageInfo = ImageInfo(
    id: string,
    file: File,
    originalSrc: string,
    processedSrc: Option<string>,
    hash: int)

  /** An absolute top-left coordinate in the main image's pixel space. */
  datatype WatermarkPosition = WatermarkPosition(x: int, y: int)

  datatype TextWatermark = TextWatermark(
    text: string,
    color: string,
    size: int,
    opacity: real,
    position: WatermarkPosition)

  /** `size` is a percentage of the main image's width. */
  datatype ImageWatermark = ImageWatermark(
    src: Option<string>,
    size: int,
    opacity: real,
    position: WatermarkPosition)

  datatype PaddingSettings = PaddingSettings(
    enabled: bool,
    width: int,
    height: int,
    color: string)

  /**
    The settings of one edit. `outputFormat` is kept as the string the UI
    stores, because the encoder's switch has a default branch for any other
    value.
   */
  datatype EditorSettings = EditorSettings(
    rotation: real,
    isTextWatermarkEnabled: bool,
    textWatermark: TextWatermark,
    isImageWatermarkEnabled: bool,
    imageWatermark: ImageWatermark,
    brightness: int,
    contrast: int,
    saturation: int,
    noise: int,
    outputQuality: int,
    outputFormat: string,
    padding: PaddingSettings)

  const Jpeg: string := "jpeg"
  const Png: string := "png"
  const Webp: string := "webp"

  /** The settings the application starts with. */
  const DefaultSettings: EditorSettings := EditorSettings(
    rotation := 0.0,
    isTextWatermarkEnabled := false,
    textWatermark := TextWatermark("© 你的品牌", "#ffffff", 48, 0.7, WatermarkPosition(400, 400)),
    isImageWatermarkEnabled := false,
    imageWatermark := ImageWatermark(None, 15, 0.7, WatermarkPosition(200, 200)),
    brightness := 100,
    contrast := 100,
    saturation := 100,
    noise := 0,
    outputQuality := 92,
    outputFormat := Jpeg,
    padding := PaddingSettings(false, 1200, 1600, "#ffffff"))

  /**
    The ranges the controls offer: rotation within 5 degrees, the three
    colour percentages in [0, 200], noise in [0, 100], quality in [1, 100],
    text size in [10, 100], logo size in [1, 50], opacities in [0, 1] and
    one of the three formats.
   */
  predicate InControlRanges(s: EditorSettings) {
    && -5.0 <= s.rotation <= 5.0
    && 0 <= s.brightness <= 200
    && 0 <= s.contrast <= 200
    && 0 <= s.saturation <= 200
    && 0 <= s.noise <= 100
    && 1 <= s.outputQuality <= 100
    && 10 <= s.textWatermark.size <= 100
    && 1 <= s.imageWatermark.size <= 50
    && 0.0 <= s.textWatermark.opacity <= 1.0
    && 0.0 <= s.imageWatermark.opacity <= 1.0
    && s.outputFormat in {Jpeg, Png, Webp}
  }
}
