# Image batch editor — verified model of the editing core

The image batch editor is a browser application. The user drops images or
imports them by URL. They tune rotation, colour filters, noise, a text or
logo watermark, letterbox padding and the output format. Every image is then
re-encoded and downloaded as one ZIP archive. A small edge worker serves the
application under the `/Image-processing` path.

This project models the deterministic logic under that UI in Dafny and proves
what the code promises. It covers five parts:

- **The single-image transform** (`utils/imageProcessor.ts`).
  - Module `ImageProcessor` computes the plan the canvas is driven with. That
    plan holds the filter list, the JPEG white background, the rotation, the
    text and logo geometry, the letterbox layout and the encoder arguments.
  - Module `Noise` runs the noise stage as a loop over the RGBA byte buffer.
    Instead of `Math.random()` it takes one injected draw per pixel.
- **The gallery state of `App.tsx`**.
  - Module `Hashing` computes `simpleHash`, with signed 32-bit wrap-around.
  - Module `Gallery` covers dedup-on-add, removal with re-selection, clearing,
    splice-based reordering and batch processing.
  - Module `DownloadNames` names the entries of the download archive.
- **The settings handlers of `components/ControlsPanel.tsx`** (module
  `Controls`): the record updates, the clamp-or-default number boxes, clearing
  the watermarks, and the padding presets.
- **The URL import of `components/ImageDropzone.tsx`** (module `Dropzone`):
  parsing the URL list, deriving the file name, the ordered proxy fallback over
  abstract outcomes, the success/failure partition and the retry text.
- **The path-rewriting proxy of `_worker.js`** (module `Worker`).

Shared vocabulary:

- Module `Types` holds the records of `types.ts` and the start-up settings.
- Module `Common` holds `Option`/`Result`, a generic `FlatMap`, the `Math.max(lo, Math.min(hi, v))`
  clamp and the `parseInt(v) || d` default.
- Module `Text` holds the JavaScript string operations the code relies on:
  `split`, `join`, `trim`, `lastIndexOf`, `replace`, `String(n)` and `padStart`.

How JavaScript values are represented:

- Numbers are `int` where they come from `parseInt` or from image dimensions.
- Numbers are `real` where they come from `parseFloat` or from a division.
- A `NaN` parse result is `None`.
- Wrap-around is written out explicitly: `Hashing.Wrap32` is ECMAScript
  `ToInt32`, and `Hashing.Imul` is `Math.imul`.
- Storing into a `Uint8ClampedArray` is modelled as clamping to [0, 255]
  followed by rounding half to even.

## Model

| member | source | states |
|---|---|---|
| Common.Clamp | components/ControlsPanel.tsx:149 | `Math.max(lo, Math.min(hi, v))` lies in [lo, hi], is `v` when `v` is in range and the nearer bound otherwise |
| Common.ClampReal | components/ControlsPanel.tsx:119 | the same clamp on reals |
| Common.IntOr | components/ControlsPanel.tsx:304 | `parseInt(v) \|\| d`: NaN and a parsed 0 give the default, any other parse is kept |
| Common.RealOr | components/ControlsPanel.tsx:119 | `parseFloat(v) \|\| d`, with the same falsy rule |
| Text.IndexOfFrom | _worker.js:8 | the found index is an occurrence at or after the start and there is none before it; no index means no occurrence at all |
| Text.StartsWithChars | _worker.js:6 | `startsWith(p)` holds exactly when `p` is no longer than the text and matches it character by character from the first |
| Text.ReplaceFirstSpec | _worker.js:8 | `replace` with a string pattern keeps a text without an occurrence, and otherwise replaces the first occurrence only, keeping what is before and after it |
| Text.ReplaceLeadingPrefix | _worker.js:6-8 | when the text starts with the pattern, `replace(pattern, '')` removes exactly the leading prefix |
| Text.LastIndexOf | App.tsx:207 | the result is -1 or an index holding the character, and no later index holds it |
| Text.LastIndexOfBeforeSuffix | components/ImageDropzone.tsx:98 | in `p + c + t` with `t` free of `c`, the last `c` is the one at position `\|p\|` |
| Text.Split | components/ImageDropzone.tsx:43 | `split` yields at least one piece and no piece contains the separator |
| Text.JoinSplit | components/ImageDropzone.tsx:43 | joining the pieces of a split with the same separator gives the text back |
| Text.SplitConcat | components/ImageDropzone.tsx:43 | splitting `a + c + b` gives the pieces of `a` followed by the pieces of `b` |
| Text.SplitJoin | components/ImageDropzone.tsx:130 | pieces free of the separator, once joined, split back into exactly those pieces |
| Text.Join | components/ImageDropzone.tsx:130 | `join` of no parts is empty; a join opens with the first part, followed by the separator when a second part exists |
| Text.JsWhitespaceEdges | components/ImageDropzone.tsx:43 | the edges of `IsJsWhitespace`, the set `trim()` removes: no visible ASCII character is in it, NEL and the zero-width space are not, and among the C0 controls exactly TAB, LF, VT, FF and CR are |
| Text.TrimStart | components/ImageDropzone.tsx:43 | the result is a suffix of the input, does not start with whitespace, and everything removed is whitespace |
| Text.TrimEnd | components/ImageDropzone.tsx:43 | the result is a prefix of the input, does not end with whitespace, and everything removed is whitespace |
| Text.Trim | components/ImageDropzone.tsx:43 | `trim()` gives a text that neither starts nor ends with whitespace and sits in the input with only whitespace before and after it, so exactly the leading and trailing whitespace is removed |
| Text.TrimIsUnique | components/ImageDropzone.tsx:43 | any trimmed infix with only whitespace around it is the result of `trim()`, so that description determines `trim()` |
| Text.TrimTrimmed | components/ImageDropzone.tsx:43 | trimming an already trimmed text changes nothing |
| Text.NatToDecimal | App.tsx:198 | `String(n)` is a non-empty digit string without a leading zero |
| Text.DecimalRoundTrip | App.tsx:204 | reading back the decimal rendering of `n` gives `n` |
| Text.PadStartZeros | App.tsx:204 | `padStart(width, '0')` has length `max(\|s\|, width)` |
| Text.PadStartZerosShape | App.tsx:204 | the padded text ends with the original text and holds only `'0'` characters before it |
| Text.PaddedDecimalValue | App.tsx:204 | a zero-padded rendering of `n` is a digit string whose value is still `n` |
| Text.PaddedDecimalInjective | App.tsx:204 | two numbers padded to the same width have equal renderings only when they are equal |
| Text.DigitCountMonotone | App.tsx:198-204 | a smaller number never has more digits |
| Hashing.Wrap32 | App.tsx:89 | `ToInt32` is a signed 32-bit value congruent to its argument modulo 2^32, and leaves values already in range unchanged |
| Hashing.Imul | App.tsx:89 | `Math.imul` is the signed 32-bit value congruent to the exact product modulo 2^32 |
| Hashing.Wrap32Add | App.tsx:89 | wrapping an intermediate sum before adding more gives the same 32-bit result |
| Hashing.CodeUnits | App.tsx:89 | a character is one UTF-16 unit below U+10000 and a surrogate pair above it, each unit in [0, 65535] |
| Hashing.Utf16 | App.tsx:88-89 | the units `charCodeAt` visits are all in [0, 65535] |
| Hashing.HashUnits | App.tsx:86-92 | the polynomial hash of a unit sequence is always a signed 32-bit integer |
| Hashing.SimpleHash | App.tsx:86-92 | the source loop computes the polynomial hash of the string's UTF-16 units and ends in signed 32-bit range |
| Hashing.HashEmpty | App.tsx:86-92 | the empty string hashes to 0 |
| Hashing.HashAppend | App.tsx:86-92 | appending a character below U+10000 gives `wrap32(31 * hash(s) + code)` |
| Gallery.Candidate | App.tsx:102-113 | a file yields an image exactly when it was read; that image has the given id, the data URL as source, no processed source, and the hash of the data URL |
| Gallery.Candidates | App.tsx:101-118 | one candidate per file, in input order |
| Gallery.IsAddedIffUnseen | App.tsx:104-106 | a read file is appended exactly when its hash is neither already known nor produced by an earlier file of the batch |
| Gallery.AddStep | App.tsx:104-114 | one loop step: an unread file or a seen hash changes nothing, and an unseen hash is appended and recorded |
| Gallery.CollectNew | App.tsx:98-118 | the loop collects exactly the unseen candidates in input order and adds exactly their hashes to the set |
| Gallery.AddImages | App.tsx:95-125 | the old list stays an unchanged prefix; the new images are the unseen candidates in order; the selection moves to the first image only when it was empty and the list is not |
| Gallery.AddedAreFresh | App.tsx:104-106 | the appended images have pairwise distinct hashes, none of them already known |
| Gallery.AddedIds | App.tsx:107-108 | with distinct ids per file, the appended images have distinct ids, each from one of the batch's candidates |
| Gallery.AddImagesValid | App.tsx:120-122 | adding keeps ids and hashes unique and the hash set equal to the list's hashes |
| Gallery.FindIndex | App.tsx:143 | `findIndex` returns the first position with that id, or reports that there is none |
| Gallery.WithoutId | App.tsx:134 | `filter(img => img.id !== id)` keeps no image with that id and is shorter than the list exactly when some image has it |
| Gallery.WithoutIdMembers | App.tsx:134 | `filter(img => img.id !== id)` keeps exactly the images with another id |
| Gallery.WithoutIdKeepsPrefix | App.tsx:134 | images before the first match keep their positions after filtering |
| Gallery.WithoutUniqueId | App.tsx:134 | with unique ids, filtering out an id removes exactly its one position |
| Gallery.RemoveImage | App.tsx:130-149 | an unknown id changes nothing; otherwise the filtered list is stored and the image's hash is deleted. A removed selection moves to a remaining image, or is cleared when none remains. Any other selection is kept |
| Gallery.RemoveSelectsNeighbour | App.tsx:141-145 | removing the selected image at `idx` selects the remaining image at `max(0, idx - 1)`, which is always in bounds |
| Gallery.RemoveAtSets | App.tsx:134-139 | removing one position keeps uniqueness and removes exactly that image's hash and id from the sets |
| Gallery.RemovePreservesValid | App.tsx:130-149 | removal keeps the gallery valid |
| Gallery.ClearImages | App.tsx:152-156 | clearing leaves an empty, valid gallery with no selection |
| Gallery.Reorder | App.tsx:158-168 | the splice pair keeps length and multiset, puts the dragged image at the hover index, and keeps the relative order of all other images |
| Gallery.RemoveAt | App.tsx:163 | `splice(i, 1)` removes position `i`: earlier elements keep their places and later ones move down by one |
| Gallery.InsertAt | App.tsx:164 | `splice(i, 0, x)` puts `x` at position `i`: earlier elements keep their places and later ones move up by one |
| Gallery.ReorderInverse | App.tsx:158-168 | dragging back from the hover index to the drag index restores the list |
| Gallery.ReorderPreservesValid | App.tsx:158-168 | reordering keeps the gallery valid |
| Gallery.PermutationKeepsUnique | App.tsx:158-168 | any permutation of a list with unique ids and hashes keeps them unique and keeps both sets |
| Gallery.ProcessImages | App.tsx:175-185 | batch processing keeps length and order and changes only `processedSrc`, which becomes each image's outcome (`null` for a failure) |
| Gallery.ProcessPreservesValid | App.tsx:175-187 | storing the processed list keeps the gallery valid |
| Noise.Offset | utils/imageProcessor.ts:104 | `(u - 0.5) * noise` lies within half the amount on either side of zero, and is zero for the middle draw |
| Noise.RoundHalfEven | utils/imageProcessor.ts:105-107 | the stored integer is within one half of the value, and an exact tie goes to the even neighbour |
| Noise.ClampToByte | utils/imageProcessor.ts:105-107 | an in-range value stores a byte within one half of it, ties going to the even byte; values at or below 0 store 0, and values at or above 255 store 255 |
| Noise.ZeroOffsetKeepsByte | utils/imageProcessor.ts:105 | a byte plus a zero offset is stored back unchanged |
| Noise.ApplyNoise | utils/imageProcessor.ts:97-111 | the buffer keeps its length; a non-positive amount changes nothing; otherwise every byte takes its reference value, so alpha bytes and every byte of a fully transparent pixel are kept |
| Noise.NoisedChannelNear | utils/imageProcessor.ts:102-107 | in `NoisedChannel`, the reference each byte is proved against, alpha bytes and transparent pixels keep their value, and any other colour byte moves at most half the noise amount plus half a unit of rounding |
| Noise.NoisePass | utils/imageProcessor.ts:101-109 | the four-bytes-at-a-time loop leaves every channel of every pixel at its reference value |
| Noise.SharedOffsetPerPixel | utils/imageProcessor.ts:103-107 | the R, G and B bytes of an opaque pixel get one shared offset of size at most half the amount |
| ImageProcessor.Filters | utils/imageProcessor.ts:75-78 | there is a brightness, contrast or saturate entry exactly when that setting is not 100; entries come in that order and carry the setting's percentage |
| ImageProcessor.CanvasFilter | utils/imageProcessor.ts:80-82 | the canvas filter is left unset exactly when all three settings are 100 |
| ImageProcessor.WatermarkPositionFor | utils/imageProcessor.ts:12-18 | the position helper returns the requested corner unchanged, whatever the dimensions |
| ImageProcessor.FontSize | utils/imageProcessor.ts:122 | the font size is `size` thousandths of the shorter side: it equals that fraction of one side and is at most that fraction of either side |
| ImageProcessor.LogoBox | utils/imageProcessor.ts:139-141 | the logo's drawn width is `size` percent of the main width, and its aspect ratio is kept |
| ImageProcessor.MinReal | utils/imageProcessor.ts:42-45 | `Math.min` is at most both arguments and equals one of them |
| ImageProcessor.CanvasDimension | utils/imageProcessor.ts:34-35 | assigning `canvas.width`/`height` keeps any value in [0, 2^31); a negative value down to -2^31 gives the default (300 wide, 150 high); any other result is congruent to the value modulo 2^32 |
| ImageProcessor.Letterbox | utils/imageProcessor.ts:30-50 | the new canvas has the size the canvas attributes store for the padding size (exactly that size for sizes in [0, 2^31)) and the padding colour; the scaled content fits the padding size, touches at least one side, keeps its aspect ratio and is centred with non-negative offsets |
| ImageProcessor.LetterboxWideTarget | utils/imageProcessor.ts:42-50 | a 100 x 100 image padded to 200 x 100 is drawn 100 x 100 at (50, 0) |
| ImageProcessor.NegativePaddingWidthGivesDefaultCanvas | utils/imageProcessor.ts:34-35 | a padding width of -5 gives a 300-wide canvas, the browser default, while the height of 1600 is kept |
| ImageProcessor.ApplyPadding | utils/imageProcessor.ts:26-35 | disabled padding keeps the current canvas; enabled padding yields the canvas size the attributes store for the padding size, exactly that size for sizes in [0, 2^31) |
| ImageProcessor.OutputEncoding | utils/imageProcessor.ts:156-164 | png and webp are encoded without a quality; any other format is JPEG with quality `outputQuality / 100` |
| ImageProcessor.EncodingMatchesFormat | utils/imageProcessor.ts:156-164 | for the three offered formats the MIME type is `image/<format>`; only JPEG gets a quality, and qualities 1..100 become factors in [0.01, 1] |
| ImageProcessor.TextStage | utils/imageProcessor.ts:119-131 | text is drawn exactly when it is enabled and non-empty, with its own text, colour, opacity and position, at the font size that `size` gives for the main image |
| ImageProcessor.LogoStage | utils/imageProcessor.ts:134-150 | the logo is drawn exactly when it is enabled, has a non-empty source and loaded; it is drawn at its position with its opacity, its width is `size` percent of the main width, and its aspect ratio is the logo's own |
| ImageProcessor.ProcessImage | utils/imageProcessor.ts:58-164 | the transform fails exactly when the main image fails to load or a drawn logo taints the canvas, and says which. A plan keeps the image size and carries the filter string, the white background only for JPEG, the rotation, noise only for a positive amount, the text and logo stages, the padding layout `ApplyPadding` computes for the image (so the letterbox colour, fitted draw box and centring offsets of `Letterbox`), its canvas size when padding is on and the image size otherwise, and the encoder arguments |
| ImageProcessor.IdentitySettingsPlan | utils/imageProcessor.ts:68-111 | identity settings give a plan with no filter, no noise, no rotation, no overlays and the source's own size |
| ImageProcessor.LogoFailureIsNotFatal | utils/imageProcessor.ts:134-150 | a logo that fails to load only drops the logo; the transform still succeeds |
| ImageProcessor.TaintsCanvas | utils/imageProcessor.ts:134-164 | the export-failure rule: without the image watermark or without a loaded logo nothing taints, and a taint needs a logo that is not origin-clean |
| ImageProcessor.TaintsIffUncleanLogoDrawn | utils/imageProcessor.ts:134-164 | the canvas is tainted exactly when the logo stage draws a logo that is not origin-clean |
| ImageProcessor.CrossOriginLogoBlocksExport | utils/imageProcessor.ts:134-164 | a logo that loads but is not origin-clean makes the export fail; the same logo loaded origin-clean is drawn and the transform succeeds |
| ImageProcessor.NonPositiveNoiseIsNoNoise | utils/imageProcessor.ts:97 | any non-positive noise amount gives the same plan as noise 0 |
| DownloadNames.DigitCount | App.tsx:198 | `String(images.length).length` is at least 1 |
| DownloadNames.DigitCountBounds | App.tsx:198 | that length is the number of decimal digits: the count lies below `10^d` and, unless it is 0, at or above `10^(d-1)` |
| DownloadNames.FalsyValues | App.tsx:199 | `Truthy`, the test `processedSrc \|\| originalSrc` makes, fails exactly for `null` and `""` |
| DownloadNames.FileIndexLength | App.tsx:198-204 | every index prefix has exactly the digit count of the list length |
| DownloadNames.FileIndex | App.tsx:198-204 | the index prefix is at least as long as the digit count of the list length |
| DownloadNames.FileIndexValue | App.tsx:204 | the index prefix ends with the decimal 1-based position, is all digits, and reads back as that position |
| DownloadNames.FileIndexInjective | App.tsx:204 | different positions get different prefixes |
| DownloadNames.Stem | App.tsx:207 | the extension is cut at the last dot only when that dot is past the first character; otherwise the name is kept whole |
| DownloadNames.EntryFor | App.tsx:200-209 | an entry is written exactly when there is a processed or an original source; the processed source is preferred and named `prefix_stem.format`, and an original is named `prefix_name` |
| DownloadNames.EntriesFrom | App.tsx:200-213 | each entry is the one its image's position gives, and entries come in list order |
| DownloadNames.EntriesFromComplete | App.tsx:200-213 | every image with something to write has an entry |
| DownloadNames.Entries | App.tsx:198-213 | the archive holds exactly the writable images, in list order, under pairwise distinct names |
| DownloadNames.DistinctPositionsDistinctNames | App.tsx:204-208 | entries of different positions never share a name |
| DownloadNames.DownloadAll | App.tsx:193-233 | the "nothing to download" notice appears exactly when no image has a source; otherwise the archive is non-empty, holds the entries of the writable images in list order, and no two of them share a name |
| Controls.HandleSettingChange | components/ControlsPanel.tsx:32-34 | the named field takes the value and every other field is as before |
| Controls.SettingChangeUnique | components/ControlsPanel.tsx:32-34 | any settings that hold the value and agree elsewhere are the handler's result |
| Controls.SettingChangeIdempotent | components/ControlsPanel.tsx:32-34 | writing a value already held changes nothing, and writing twice is writing once |
| Controls.UpdateText | components/ControlsPanel.tsx:36-45 | in the text watermark, exactly the named field changes |
| Controls.UpdateImage | components/ControlsPanel.tsx:36-45 | in the image watermark, exactly the named field changes |
| Controls.HandleWatermarkChange | components/ControlsPanel.tsx:36-45 | one watermark record changes in one field, and the other watermark is untouched |
| Controls.UpdatePadding | components/ControlsPanel.tsx:47-55 | in the padding settings, exactly the named field changes |
| Controls.HandlePaddingChange | components/ControlsPanel.tsx:47-55 | a padding update is the top-level update of the padding record |
| Controls.ClearWatermarks | components/ControlsPanel.tsx:58-72 | both watermarks are switched off, the text is emptied and the logo source dropped; everything else is kept |
| Controls.ClearWatermarksIdempotent | components/ControlsPanel.tsx:58-72 | clearing twice is clearing once |
| Controls.ClearedSettingsDrawNoWatermark | components/ControlsPanel.tsx:58-72 | after clearing, the transform succeeds exactly when the main image loads (so a tainting logo no longer blocks it), draws neither watermark, and every other stage of its plan is as before |
| Controls.RotationInput | components/ControlsPanel.tsx:119 | the stored rotation lies in [-5, 5], is 0 for non-numbers and is clamped otherwise |
| Controls.PercentOffsetInput | components/ControlsPanel.tsx:146-150 | the stored percentage is the entered offset plus 100, clamped to [0, 200]; a non-number stores 100 |
| Controls.PercentOffsetRoundTrip | components/ControlsPanel.tsx:146-150 | re-entering the displayed offset of any stored value in [0, 200] stores that value again |
| Controls.NoiseInput | components/ControlsPanel.tsx:217-219 | the stored noise lies in [0, 100]: a non-number or a negative entry stores 0, an entry above 100 stores 100, and an in-range entry is kept |
| Controls.QualityInput | components/ControlsPanel.tsx:274 | the stored quality lies in [1, 100]: a non-number or a non-positive entry stores 1, an entry above 100 stores 100, and an in-range entry is kept |
| Controls.PaddingWidthInput | components/ControlsPanel.tsx:304 | the width is stored unclamped, with NaN and 0 becoming 1200, so it is never 0 |
| Controls.PaddingHeightInput | components/ControlsPanel.tsx:314 | the height is stored unclamped, with NaN and 0 becoming 1600, so it is never 0 |
| Controls.CoordinateInput | components/ControlsPanel.tsx:379-389 | a coordinate box replaces one coordinate of one watermark with `parseInt \|\| 0`; everything else is kept |
| Controls.PresetPositionsGrid | components/ControlsPanel.tsx:85-93 | the seven preset positions lie on the grid {20, 200, 400} and are pairwise distinct |
| Controls.NumberInputsKeepRanges | components/ControlsPanel.tsx:119-274 | whatever is typed, the number boxes keep in-range settings in range |
| Controls.FormatButtonsKeepRanges | components/ControlsPanel.tsx:232-235 | the format buttons store one of the three known formats |
| Controls.PresetAsWritten | components/ControlsPanel.tsx:329-331 | as written, a preset stores the height and leaves the width and every other setting unchanged |
| Controls.PresetAsWrittenLosesWidth | components/ControlsPanel.tsx:338-341 | from the start-up settings, the 1:1 button leaves the width at 1200 |
| Controls.PresetCorrected | components/ControlsPanel.tsx:329-331 | the corrected preset sets both width and height and changes nothing else |
| Controls.ThreeByFourButton | components/ControlsPanel.tsx:329-331 | as written, the 3:4 button stores height 1600 and keeps the old width, so the ratio is not 3:4 unless the width already was 1200 |
| Controls.ThreeByFourIntended | components/ControlsPanel.tsx:329-331 | as intended, the 3:4 button gives 1200 x 1600, a 3:4 ratio, and changes nothing but the padding size |
| Controls.SquareButton | components/ControlsPanel.tsx:338-341 | as written, the 1:1 button stores height 1080 and keeps the old width, so the result is square only when the width already was 1080 |
| Controls.SquareIntended | components/ControlsPanel.tsx:338-341 | as intended, the 1:1 button gives 1080 x 1080 and changes nothing but the padding size |
| Controls.PresetsCommute | components/ControlsPanel.tsx:329-341 | a later preset overrides an earlier one, and the order of the two field writes does not matter |
| Dropzone.FilesToAdd | components/ImageDropzone.tsx:22-36 | dropped or selected files are passed on exactly when there are some, and unchanged |
| Dropzone.TrimmedLine | components/ImageDropzone.tsx:43 | a line contributes at most one entry: nothing exactly when it trims to the empty text, otherwise its trimmed text |
| Dropzone.TrimmedLineEntry | components/ImageDropzone.tsx:43 | what a single line contributes is non-empty, trimmed and free of line breaks |
| Dropzone.BlankIffTrimsToNothing | components/ImageDropzone.tsx:43 | a line trims to the empty text, and so is dropped by `filter(Boolean)`, exactly when it is all whitespace |
| Dropzone.NonBlank | components/ImageDropzone.tsx:43 | the trimmed, filtered list is no longer than the list of lines |
| Dropzone.NonBlankKeepsLines | components/ImageDropzone.tsx:43 | every line with a non-empty trimmed text contributes that text |
| Dropzone.NonBlankSource | components/ImageDropzone.tsx:43 | every entry of the filtered list is the non-empty trimmed text of one of the lines |
| Dropzone.NonBlankEntries | components/ImageDropzone.tsx:43 | filtering trimmed single lines leaves only entries |
| Dropzone.ParseUrlList | components/ImageDropzone.tsx:43 | every parsed URL is non-empty, trimmed and contains no line break |
| Dropzone.ParseUrlListKeepsLines | components/ImageDropzone.tsx:43 | every line of the text that is not all whitespace contributes its trimmed text |
| Dropzone.ParseUrlListSource | components/ImageDropzone.tsx:43 | every parsed URL is the trimmed text of a line that is not all whitespace |
| Dropzone.ParseUrlListOneLine | components/ImageDropzone.tsx:43 | a text of one line gives that line trimmed, or nothing when the line is all whitespace |
| Dropzone.ParseUrlListEmpty | components/ImageDropzone.tsx:43 | the empty text holds no URL |
| Dropzone.NonBlankConcat | components/ImageDropzone.tsx:43 | the trim-and-filter step distributes over concatenation |
| Dropzone.ParseUrlListConcat | components/ImageDropzone.tsx:43 | parsing keeps input order: two blocks of lines give the first block's URLs, then the second's |
| Dropzone.RetryRoundTrip | components/ImageDropzone.tsx:122-130 | writing parsed URLs back one per line and parsing again gives the same list |
| Dropzone.FileNameFromUrl | components/ImageDropzone.tsx:98 | the derived file name is never empty and contains neither `/` nor `?` |
| Dropzone.LastSegment | components/ImageDropzone.tsx:98 | `substring(lastIndexOf('/') + 1).split('?')[0]` is the text starting right after the last `/`, free of `/` and `?`, and followed by a `?` or the end of the URL |
| Dropzone.FileNameOfUrl | components/ImageDropzone.tsx:98 | a URL `.../name?query` or `.../name` yields the file name `name` |
| Dropzone.MimeOrDefault | components/ImageDropzone.tsx:99 | an empty blob type becomes `image/jpeg`, and any other is kept |
| Dropzone.AttemptError | components/ImageDropzone.tsx:84-88 | a bad status leaves a status error, a rejection leaves its reason, and only a falsy rejection value leaves no error, so `lastError \|\| new Error(...)` falls to the generic one |
| Dropzone.FirstSuccess | components/ImageDropzone.tsx:78-92 | the first proxy with an ok response, with none before it, or none at all |
| Dropzone.FetchWithFallback | components/ImageDropzone.tsx:78-92 | proxies are tried in order; the first ok response is returned and later proxies are not contacted; otherwise the last attempt's error, or the generic error, is raised |
| Dropzone.FirstSuccessAt | components/ImageDropzone.tsx:80-85 | a success with only failures before it is the first success |
| Dropzone.ImportOne | components/ImageDropzone.tsx:94-101 | a URL yields a file exactly when some proxy succeeds; the file is named after the URL and typed after the body |
| Dropzone.Partition | components/ImageDropzone.tsx:106-116 | the counts of files and failed URLs add up to the list length; nothing fails exactly when every result succeeded; every rejected URL is listed, and each listed URL was rejected at some position |
| Dropzone.PartitionConcat | components/ImageDropzone.tsx:106-116 | the partition of a concatenation is the concatenation of the partitions, so both lists keep input order |
| Dropzone.HandleUrlImport | components/ImageDropzone.tsx:38-135 | empty text does nothing; text without URLs only resets the flags; otherwise successful files go to the gallery; after failures the text is the failed URLs joined by newlines, which parses back to exactly those URLs, and the error is `FailureMessage` of the success and failure counts; with no failures everything is reset and the dialog closed |
| Dropzone.FailureMessage | components/ImageDropzone.tsx:125-129 | the error message opens with the number of imported URLs and then the number of failures when some URLs were imported, and with the number of failures otherwise |
| Dropzone.RetryTextLists | components/ImageDropzone.tsx:122-130 | the retry text parses back to exactly the failed URLs |
| Worker.NewPath | _worker.js:8 | the rewritten path is never empty; the bare prefix maps to `/`, and any longer path loses exactly the prefix |
| Worker.NewPathUndoesPrefix | _worker.js:6-8 | prefixing a `/`-path and rewriting it gives the path back |
| Worker.NewPathExamples | _worker.js:6-8 | matching is on characters, not path segments: `/Image-processingX` maps to `X` |
| Worker.TargetUrl | _worker.js:11 | the target is the origin, then the new path, then the query verbatim |
| Worker.Route | _worker.js:6-31 | a request is rewritten exactly when its path starts with the prefix, keeping method, headers and body; any other request passes through unchanged |
| Worker.Respond | _worker.js:24-27 | a proxied response gains `access-control-allow-origin: *` and keeps status, body and every other header; a passed-through response is returned as is |
| Worker.RespondIdempotent | _worker.js:24-25 | setting the header a second time changes nothing |

## Left out

- Canvas rendering is not modelled: `translate`, `rotate`, `drawImage`, filter rendering, `fillRect`, `fillText`/`measureText` and `globalAlpha` compositing are browser calls. The model only computes the arguments passed to them, as a `RenderPlan`.
- The JPEG, PNG and WebP encoders behind `toDataURL` are foreign code. Only the MIME type and quality passed to them are modelled.
- `Math.random()` is replaced by one injected draw in [0, 1) per pixel. A draw is consumed for every pixel, transparent or not; this is the same distribution of outcomes.
- IEEE doubles are modelled as exact reals. The `Uint8ClampedArray` store is modelled as clamping followed by rounding half to even.
- Asynchronous machinery is not modelled: `loadImage`, `FileReader`, `fetch`, `fetchWithTimeout` with its timer and `AbortController`, `Promise.all`/`allSettled` concurrency, the preview debounce, and the progress messages. A load or fetch becomes its outcome, passed in as a parameter.
- A timed-out proxy request is one more `Rejected` outcome. The timeout itself is not modelled.
- `encodeURIComponent` and the two proxy URL templates are not modelled. Only the order of the two proxies matters, and each proxy's answer is an input.
- The `Date.now()`-based image ids are inputs. `Gallery.AddImagesValid` requires that they are distinct and new. This is an assumption: two files with the same name read in the same millisecond would get the same id.
- JSZip packaging and the browser download link are not modelled. The model stops at the list of entry names and sources.
- The archive's base64 payload is not modelled. `split(',')[1]` takes the text between the first and the second comma of the data URL; an entry keeps the whole source.
- `response.blob()` failing after an ok response is not modelled. Every ok response yields a file typed after its body.
- Images of zero width or height are excluded: `ImageProcessor.Dim` is positive, because the division in the scale is undefined for them.
- The range sliders store the browser's parse of a bounded slider, so they are not modelled separately from the number boxes.
- The display components (`ImageGrid.tsx`, `ImagePreview.tsx`, `MainPreview.tsx`) are not modelled. The reorder they trigger is modelled in `Gallery.Reorder`.
- The main image is a `data:` URL read from a local file, so it is assumed origin-clean. Only the logo can taint the canvas.
- The unused `padding` constant of the transform (`utils/imageProcessor.ts:116`) is not modelled.
- The logo upload handler, which reads a file as a data URL, becomes the `ImageSrc` update it performs.
- Gallery.Reorder: requires both indices to be inside the list, because the grid only passes positions of rendered images. `splice` with an index past the end would instead append.
- Gallery.AddImages: the stored hash is the integer that `simpleHash` renders as a decimal string. Rendering an integer is injective, so comparing integers is comparing the strings.
- Worker.Respond: header names are kept in lower case, as the `Headers` object compares them case-insensitively. The response body is an opaque string.
- Dropzone.HandleUrlImport: takes one list of proxy outcomes per parsed URL (`|fetches|` equals the number of parsed URLs). The intermediate `isImporting == true` state between start and settlement is not modelled.
- Controls.NumberInputsKeepRanges: is stated over record updates of single fields, not over the handler. The handler's result is that record update (`Controls.HandleSettingChange`).

## Findings

| source | as written | input that shows it | evidently intended | confidence | as-written member | corrected member |
|---|---|---|---|---|---|---|
| components/ControlsPanel.tsx:329-331 | The preset buttons call `handlePaddingChange('width', w)` and then `handlePaddingChange('height', h)`. Both calls spread the same rendered `settings` snapshot, and the state setter keeps the last object it is given, so only the height changes. The same holds for lines 338-341. | The start-up settings (padding 1200 x 1600) and the 1:1 button: the stored padding is 1200 x 1080 instead of 1080 x 1080. | Both dimensions take the preset: the height update applies to the result of the width update. | not executed | Controls.PresetAsWritten, Controls.PresetAsWrittenLosesWidth, Controls.ThreeByFourButton, Controls.SquareButton | Controls.PresetCorrected, Controls.ThreeByFourIntended, Controls.SquareIntended |
