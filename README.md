# rust-resample-pdf, modelled in Dafny

This project models the core of `rust-resample-pdf`, a library that shrinks a PDF document by
re-encoding its images. Every image is sized for the largest size at which the scan of the pages
records it as drawn.

The library works in two passes over the same input bytes.

1. **The scanning pass.** A `ContentScanner` walks each page's content stream. It also enters the
   Form XObjects, soft-mask groups, tiling patterns and annotation appearance streams the page
   reaches, and keeps the graphics-state matrix stack as it goes. For each image it records the
   size, in points, at which each `Do` it reads draws it. A form, pattern or soft-mask group is
   scanned only the first time it is entered, so draws reached through a later entry are not
   recorded.
2. **The processing pass.** For every image XObject, in object-id order, `process_images_in_doc`
   works out the resolution at which the image is shown. It then does one of three things:
   - skips the image;
   - re-encodes it as JPEG at its own size;
   - resamples it to the target DPI first.

   An alpha channel, whether from the image itself or from its `/SMask`, becomes a FlateDecode RGB
   stream plus a new grey JPEG soft-mask object. The counts of images seen, replaced and skipped are
   reported.

The model also covers two smaller parts of the reporting side:
- the depth-first collection of a page's images;
- the `"num gen"` object-id parser.

## Modules

- **`PdfObject`** (`pdf_object.dfy`): the lopdf object graph. It has `Object`, `Dict` (an ordered
  entry list, like lopdf's IndexMap) and `Document`, an object map with `max_id`, the catalog root
  and the page list. It also has the dictionary readings the source repeats: `n as u32`, the first
  filter name and `get_color_space_name`.
- **`Matrix`**: `Matrix::identity`, `concat` and `scale_x`/`scale_y`. The square root is a parameter.
- **`DisplayInfo`**: `ImageDisplayInfo` and its DPI arithmetic. It also has the max-by-area choice of
  `get_display_info_map`.
- **`ContentTokens`**: the character-level tokenizer of `scan_content_stream`. It is given as a
  state-machine function and as the source's loop (`Tokenize`), proved equal. An independent
  description (`Depth`, `Visible`) states what the tokens are.
- **`GraphicsStack`**: the `q`/`Q`/`cm` arms of the token loop, and what they do to the matrix stack.
- **`Resources`**: the resource lookups. These are XObject and ExtGState maps, SMask groups, tiling
  patterns, `/Matrix`, page resources with inheritance, `decompress_stream`, `get_content_data`, and
  the appearance ids of an annotation.
- **`Scanner`**: `class ContentScanner`, with the fields the source mutates: `display_info`,
  `image_dims` and `scanned_forms`. Three ghost fields record the scan's history:
  - `enteredAt`: the parent matrix each form, pattern or appearance stream was first entered with;
  - `active`: the entered streams still being scanned;
  - `streams`: the content streams whose scan has begun.

  `Valid()` holds between any two steps and says two things.
  - Completeness: every entered stream that is no longer active has been scanned with its entry
    matrix (`FormsDone`, by way of `StreamScanned`).
  - Soundness (`Sound`):
    - each stream read is a page's content or an entered stream's data;
    - each entry is one the source makes from a stream read: a pattern with the stream's initial
      matrix, a `Do` or `gs` with the matrix then on top of the stack, or an annotation
      appearance with the identity;
    - each recorded size is the draw of an image by a `Do` of a stream read.

  The recursive methods are proved against `StreamScanned`, which states what scanning one stream
  has entered and recorded.
- **`Raster`**: decoded images, the RGB/RGBA conversions, and the split and merge loops for alpha. It
  also has `has_alpha`'s sampling and the codec interface.
- **`StreamDecode`**: `decode_smask_stream` and `decode_image_stream`, with their u32 size arithmetic.
- **`StreamEncode`**: `encode_as_jpeg_stream`, `create_smask_stream` and `encode_with_alpha_stream`,
  and what the dictionaries they write read back as.
- **`ResamplePlan`**: the options, results and errors. It also has the skip-and-resample decision of
  `process_images_in_doc`.
- **`Pipeline`**: `class PdfDocument`, the object table updated in place. It has the image loop as a
  method proved against the function `ProcessAll`, and `resample_pdf_bytes`.
- **`ImageCollect`**: `collect_page_images` and `collect_images_recursive`, as `class ImageCollector`.
- **`ObjectIdParse`**: `split_whitespace`, `str::parse::<u32>`/`<u16>`, and the object-id parser of
  `extract_image_native`.

The following are parameters of the model, trusted for nothing beyond their types:
- the codecs: zlib inflate and deflate, the JPEG and JPEG 2000 decoders, the JPEG encoder and
  Lanczos resizing;
- the f32 token parser and `sqrt`;
- lopdf's `load_mem`, `compress` and `save_to`.

Where a property needs more from a codec, the lemma states it as a hypothesis:
- the resized image has the requested size (`Raster.ResizeKeepsShape`);
- inflate undoes deflate.

## Model

| member | source | states |
|---|---|---|
| PdfObject.Dict.Set | src/lib.rs:1491 | after `dict.set(k, v)`, reading k gives v and every other key reads as before |
| PdfObject.GetMeaning | src/lib.rs:1417-1420 | `dict.get` finds a value exactly when some entry has the key, and the value is that of such an entry |
| PdfObject.GetOfUniqueKey | src/lib.rs:1299-1307 | with distinct keys (as in lopdf), `get` returns the value of the one entry holding the key |
| PdfObject.AsU32 | src/lib.rs:1304 | `n as u32` keeps n mod 2^32: below 2^32, equal to n when 0 <= n < 2^32, and n + 2^32 for small negative n |
| PdfObject.U32Entry | src/lib.rs:1299-1317 | an Integer entry is read as u32, and a missing or non-Integer entry gives the default (0 for Width and Height) |
| PdfObject.FirstFilterName | src/lib.rs:945-952 | the filter is named exactly when /Filter is a Name or an Array whose first element is a Name, and the name is that Name |
| PdfObject.ColorSpaceNameThroughReference | src/lib.rs:1213-1232 | a referenced colour space resolves to its Name, or to the first Name of its Array, otherwise "Unknown" |
| PdfObject.ColorSpaceNameFuelMonotone | src/lib.rs:1224-1226 | once a chain of references resolves, more fuel does not change the name |
| PdfObject.OutOfFuelIsChained | src/lib.rs:1224-1226 | the hops run out exactly on a chain of fuel + 1 references to objects of the document |
| PdfObject.Pigeonhole | src/lib.rs:1224-1226 | a sequence of ids longer than the set they come from repeats one |
| PdfObject.CycleNeverEnds | src/lib.rs:1224-1226 | a chain that returns to its start after p hops goes on for ever |
| PdfObject.OutOfFuelForEver | src/lib.rs:1224-1226 | a chain that outlasts one hop per object never ends, so the source would recurse without end on it |
| PdfObject.FuelOfObjectCountSuffices | src/lib.rs:1213-1232 | whatever resolves with any fuel resolves to the same name with one hop per object, the bound `ColorSpaceName` uses |
| Matrix.ConcatIsProduct | src/lib.rs:182-191 | `concat` is exactly the 3x3 matrix product self x other in the row-vector layout |
| Matrix.IdentityIsUnit | src/lib.rs:170-180 | `identity()` is a unit for `concat` on both sides |
| Matrix.AxisAlignedScales | src/lib.rs:194-200 | without rotation or skew, scale_x and scale_y are abs(a) and abs(d) |
| Matrix.SquareRootOfSquare | src/lib.rs:194-200 | the root of x*x is abs(x) for a square-root function |
| Matrix.ConcatOrderMatters | src/lib.rs:182-191 | a concrete scale and rotation whose two orders give different matrices, so the order CTM x M of `cm` matters |
| DisplayInfo.EffectiveDpi | src/lib.rs:121-137 | dpi * (points / 72) = pixels when the points are positive, and 0 otherwise |
| DisplayInfo.ImageDisplayInfo.MaxEffectiveDpi | src/lib.rs:139-141 | the larger of the two axes' DPI, and equal to one of them |
| DisplayInfo.RoundHalfAway | src/lib.rs:148 | `f32::round`: within 1/2 of x, with halves going away from zero |
| DisplayInfo.SaturateU32 | src/lib.rs:148 | the saturating `as u32` cast: identity on [0, 2^32), 0 below, u32::MAX above |
| DisplayInfo.TargetAxis | src/lib.rs:144-152 | a target side is in [1, u32::MAX] and within 1/2 of points/72*dpi when that is representable, with 1 and u32::MAX at the ends |
| DisplayInfo.PixelsAsPointsIs72Dpi | src/lib.rs:1346-1352 | the fallback of one point per pixel is 72 DPI on both axes |
| DisplayInfo.DpiInverselyProportional | src/lib.rs:121-128 | drawing k times larger divides the DPI by k |
| DisplayInfo.TargetAxisMeetsDpi | src/lib.rs:144-152 | for a side drawn at least half an inch, the target pixel count shows it within 1 DPI of the target |
| DisplayInfo.MaxByArea | src/lib.rs:916-924 | `max_by` on area: nothing when empty; otherwise an element of largest area, with every later element strictly smaller |
| DisplayInfo.MaxByAreaDistinctIsLargest | src/lib.rs:916-922 | when one size has strictly the largest area, it is chosen whatever the order |
| DisplayInfo.LargerOfTwoWins | src/lib.rs:916-922 | of two draws, the larger one is chosen in either order |
| DisplayInfo.TieGoesToLast | src/lib.rs:916-922 | of two draws of equal area, the later one is chosen |
| DisplayInfo.WorkedExample | src/lib.rs:119-153 | 3000x2000 px at 720x480 pt is 300 DPI and targets 1500x1000 at 150 DPI; at 360x240 pt it is 600 DPI and targets 750x500 |
| ContentTokens.DecodeText | src/lib.rs:484 | the content bytes become one character each, whose code point is the byte's value (Latin-1, not the source's UTF-8) |
| ContentTokens.Tokenize | src/lib.rs:489-540 | the character loop with `in_string`, `paren_depth` and the trailing push computes `Tokens(text)` |
| ContentTokens.LexKeepsInvariant | src/lib.rs:495-537 | after any prefix, in_string holds exactly when paren_depth > 0 (and then >= 1), the depth is `Depth`, tokens plus the pending token spell the text without out-of-string whitespace, every token is well formed |
| ContentTokens.StepKeepsInvariant | src/lib.rs:496-536 | one character keeps that invariant |
| ContentTokens.StepSpells | src/lib.rs:496-536 | one character adds itself to the spelled text unless it is whitespace outside a string |
| ContentTokens.StepTokensWellFormed | src/lib.rs:496-536 | one character keeps every token non-empty and either a string, a lone bracket or a run of plain characters |
| ContentTokens.TokensAreWellFormed | src/lib.rs:489-540 | every token is non-empty and either a string, a lone bracket or a run of plain characters; concatenated, they are the text without out-of-string whitespace; a string token is open on every proper prefix, so a `[`, `]` or anything else after its closing `)` starts a new token; when the text ends outside a string, every string token ends with its closing `)` |
| ContentTokens.StepNests | src/lib.rs:495-516 | one character keeps every emitted string token open until its last character and the string being read open at the loop's depth |
| ContentTokens.ClosedStringEndsToken | src/lib.rs:499-505 | a token in which a string closes before its last character, such as `(a)[b)`, is not open until its last character |
| ContentTokens.LexFromAppend | src/lib.rs:495-537 | the loop over a + b is the loop over b started where a left off |
| ContentTokens.LexFromPrefix | src/lib.rs:495-537 | tokens already pushed do not influence later ones |
| ContentTokens.NewlineFlushes | src/lib.rs:519-524 | a newline outside a string pushes the pending token and returns the loop to its starting state |
| ContentTokens.TokensOfJoined | src/lib.rs:808-815 | the tokens of two stream parts joined by `\n` are the tokens of each, in order, when the first ends outside a string |
| GraphicsStack.CmOperand | src/lib.rs:562-573 | `cm` has a matrix exactly when i >= 6 and all six preceding tokens parse, and it is made of them in order |
| GraphicsStack.SaveDepth | src/lib.rs:548-559 | an independent count of saved states, always at least 1 |
| GraphicsStack.StackDepthIsSaveDepth | src/lib.rs:487 | the matrix stack is never empty, and its size is 1 + #q - #effective Q |
| GraphicsStack.SavePushesCopy | src/lib.rs:548-553 | `q` pushes a copy of the top |
| GraphicsStack.RestorePops | src/lib.rs:554-559 | `Q` pops only when more than one entry remains, and is a no-op otherwise |
| GraphicsStack.ConcatReplacesTop | src/lib.rs:560-579 | `cm` with six parsed operands replaces only the top, by top.concat(M); without them nothing changes |
| GraphicsStack.LowerEntriesKept | src/lib.rs:542-640 | entries below level l are untouched while the stack stays above l |
| GraphicsStack.RestoreUndoesSave | src/lib.rs:548-559 | a `Q` matching a `q` restores the whole stack as it was before the `q` |
| Resources.RefMapMeaning | src/lib.rs:351-356 | a name is in the map exactly when some entry gives it a reference, and the last such entry wins |
| Resources.RefMapOfDict | src/lib.rs:350-356 | in a lopdf dictionary, a name is in the map exactly when its entry is a Reference, and maps to it |
| Resources.CollectReferences | src/lib.rs:351-356 | the insertion loop computes `RefMap` |
| Resources.XObjects | src/lib.rs:335-362 | `get_xobjects_from_resources`, resolving the resources and their XObject entry by reference, computes `NamedRefs(.., "XObject")` |
| Resources.ExtGStates | src/lib.rs:365-392 | `get_extgstates_from_resources` computes `NamedRefs(.., "ExtGState")` |
| Resources.NamedRefsInline | src/lib.rs:335-362 | for inline dictionaries, the map holds exactly the reference entries |
| Resources.SmaskForm | src/lib.rs:395-428 | a group found is the /G reference of the ExtGState's SMask dictionary, given inline or by reference |
| Resources.SmaskFormShapes | src/lib.rs:395-428 | both spellings of the SMask dictionary lead to its group; /None leads nowhere |
| Resources.TilingPatterns | src/lib.rs:446-463 | exactly the referenced PatternType 1 streams of the Pattern dictionary |
| Resources.PatternForms | src/lib.rs:431-469 | `get_pattern_forms_from_resources` computes `PatternIds` |
| Resources.ParseMatrixRoundTrip | src/lib.rs:706-730 | a /Matrix of six numbers, and anything after them, parses back to that matrix |
| Resources.ParseMatrixFallsBack | src/lib.rs:706-730 | fewer than six entries, a non-number among the first six, or no array gives the identity |
| Resources.PageResources | src/lib.rs:765-795 | the page's own Resources, else its Parent's, else the catalog's Pages node's, else Null |
| Resources.PageResourcesAgree | src/lib.rs:1841-1856 | the static version differs only for pages that inherit from the catalog's Pages node alone |
| Resources.FilterNames | src/lib.rs:205-216 | a Name filter is a one-element list |
| Resources.NamesIn | src/lib.rs:208-215 | the names of an Array filter are exactly its Name elements |
| Resources.FiltersOutcome | src/lib.rs:218-238 | the filter loop returns the original content, the data so far, or the content inflated once per leading FlateDecode |
| Resources.DecompressStream | src/lib.rs:204-241 | the loop with its two early returns computes `DecompressedContent` |
| Resources.DecompressSingleFilter | src/lib.rs:218-238 | one FlateDecode inflates, or keeps the content when inflating fails; no filter or an unknown first filter keeps it |
| Resources.ContentData | src/lib.rs:798-819 | the recursive `get_content_data`, with its array loop, computes `ContentDataWithin` |
| Resources.ContentDataOfPair | src/lib.rs:808-815 | a two-stream Contents array is each stream's data followed by `\n` |
| Resources.RefValues | src/lib.rs:882-886 | the ids listed are exactly the Reference values of the dictionary |
| Resources.CollectRefValues | src/lib.rs:894-898 | the push loop computes `RefValues` |
| Resources.AppearanceIds | src/lib.rs:868-901 | `ids_to_scan`: a referenced stream itself, or the references of a referenced or inline state dictionary |
| Scanner.CacheOverStep | src/lib.rs:290-323 | caching one more object extends the cache invariant to that object |
| Scanner.CachedImagesAreImages | src/lib.rs:289-324 | every cached id is an image stream with both sides positive, read as u32 from Width and Height |
| Scanner.TrimSlashes | src/lib.rs:583 | `trim_start_matches('/')` removes exactly the leading slashes |
| Scanner.Appended | src/lib.rs:621-624 | `entry(id).or_default().push(s)` records s for id and changes no other entry |
| Scanner.ReferencesIn | src/lib.rs:833-837 | the annotation ids are the Reference items of Annots |
| Scanner.ContentScanner.constructor | src/lib.rs:262-275 | a fresh scanner has empty tables and has cached every image's pixel size |
| Scanner.ContentScanner.CacheImageDimensions | src/lib.rs:289-324 | inserts the pixel size of every image stream with both sides positive |
| Scanner.ContentScanner.OriginKept | src/lib.rs:644-703 | a stream read from an entered stream stays accounted for as more streams are entered |
| Scanner.ContentScanner.SoundAfterEntering | src/lib.rs:646-649 | entering a stream in a way the source does keeps every entry, draw and stream read accounted for |
| Scanner.ContentScanner.SoundAfterReaching | src/lib.rs:472-478 | beginning to scan a page's content or an entered stream's data keeps the state sound |
| Scanner.ContentScanner.SoundAfterRecording | src/lib.rs:621-624 | recording the size of a draw the source makes keeps every recorded size accounted for |
| Scanner.ContentScanner.FormsDoneAfterEntering | src/lib.rs:646-649 | marking a new stream entered and active keeps every finished stream scanned |
| Scanner.ContentScanner.FormsDoneAfterRecording | src/lib.rs:621-624 | recording more sizes keeps every finished stream scanned |
| Scanner.ContentScanner.ConsistentAfterEntering | src/lib.rs:646-649 | `scanned_forms.insert`, for an entry the source makes, keeps the scanner valid with the stream active |
| Scanner.ContentScanner.ConsistentAfterLeaving | src/lib.rs:670-672 | a stream whose content has been scanned can stop being active |
| Scanner.ContentScanner.ConsistentAfterReaching | src/lib.rs:472-478 | beginning to scan a stream the source reads keeps the scanner valid |
| Scanner.ContentScanner.ConsistentAfterRecording | src/lib.rs:621-624 | recording a draw the source makes keeps the scanner valid |
| Scanner.ContentScanner.TokensScannedEach | src/lib.rs:542-640 | every token before n is scanned when the first n are |
| Scanner.ContentScanner.TokensScannedPersist | src/lib.rs:542-640 | a scanned token stays scanned as the tables grow |
| Scanner.ContentScanner.StreamScannedPersists | src/lib.rs:472-641 | a scanned stream stays scanned as the tables grow |
| Scanner.ContentScanner.PageScannedPersists | src/lib.rs:743-760 | a scanned page stays scanned as the tables grow |
| Scanner.ContentScanner.ScanFormXObject | src/lib.rs:644-703 | an entry the source makes: a stream already in `scanned_forms` changes nothing; otherwise it is entered with parent and, if a stream, its data has been scanned under parent x /Matrix with its own resources; the scanner stays valid |
| Scanner.ContentScanner.ScanFormStream | src/lib.rs:651-671 | a stream not yet entered is entered with parent, and its decompressed data is scanned under parent x /Matrix with its own resources |
| Scanner.ContentScanner.EnterStream | src/lib.rs:646-649 | `scanned_forms.insert(id)`: the stream is entered with parent and is active |
| Scanner.ContentScanner.LeaveStream | src/lib.rs:670-672 | a scanned stream stops being active and nothing else changes |
| Scanner.ContentScanner.RecordDraw | src/lib.rs:621-624 | `display_info.entry(id).or_default().push(size)`, for a draw the source makes, keeps the scanner valid |
| Scanner.ContentScanner.ScanXObject | src/lib.rs:596-636 | `Do`: an image drawn at a positive size has exactly that size appended; a form not yet entered is entered with the current matrix; anything else changes nothing |
| Scanner.ContentScanner.ScanTilingPatterns | src/lib.rs:479-482 | every tiling pattern of the resources is entered; the scanner stays valid, so each pattern is either still active or scanned under the matrix it was entered with, a matrix the source enters it with |
| Scanner.ContentScanner.ScanContentStream | src/lib.rs:472-641 | a stream the source reads is scanned: its patterns, then every token under the matrix the stack holds at it |
| Scanner.ContentScanner.ScanOperator | src/lib.rs:580-637 | `gs` enters the SMask group of the named ExtGState, and `Do` handles the named XObject, each with the current matrix when first entered |
| Scanner.ContentScanner.ScanTokens | src/lib.rs:542-640 | every token is scanned under the top of the stack after the tokens before it |
| Scanner.ContentScanner.ScanAppearanceEntry | src/lib.rs:867-907 | every id of the entry is entered; the scanner stays valid, so each is either still active or scanned under the matrix it was entered with |
| Scanner.ContentScanner.ScanAnnotation | src/lib.rs:841-864 | the N, R and D appearances of the annotation's AP dictionary are scanned |
| Scanner.ContentScanner.ScanPageAnnotations | src/lib.rs:822-838 | every annotation the page's Annots refers to is scanned |
| Scanner.ContentScanner.ScanPage | src/lib.rs:743-760 | a page dictionary has its Contents scanned with its resources and the identity matrix, then its annotations |
| Scanner.ContentScanner.PagesScannedPersist | src/lib.rs:733-762 | scanned pages stay scanned as the tables grow |
| Scanner.ContentScanner.PagesScannedEach | src/lib.rs:733-762 | every page before n is scanned when the first n are |
| Scanner.ContentScanner.ScanAllPages | src/lib.rs:733-762 | every page is scanned in page order; every stream entered from them, at any depth, has been scanned once, under the one matrix it was entered with; every stream read, every entry and every recorded size is one the source reads, makes or records |
| Scanner.ContentScanner.GetDisplayInfoMap | src/lib.rs:910-939 | the loop computes `BestDisplayInfo` |
| Scanner.BestDisplayInfoMeaning | src/lib.rs:910-939 | only images with recorded sizes and cached pixels appear; the choice has the cached pixels and a recorded size of largest area, the last of equal ones |
| Raster.FromRaw | src/lib.rs:1450-1452 | `from_raw` succeeds exactly when the buffer holds width x height x channels bytes |
| Raster.ToRgb8 | src/lib.rs:1440 | `to_rgb8` keeps the size and gives three bytes per pixel, each the pixel's converted channel |
| Raster.ToRgba8 | src/lib.rs:1173 | `to_rgba8` keeps the size and gives four bytes per pixel |
| Raster.RgbToRgbIsIdentity | src/lib.rs:1114 | an exact RGB image converts to itself |
| Raster.RgbThroughRgbaIsIdentity | src/lib.rs:1173 | adding an opaque alpha and dropping it again gives an RGB image back |
| Raster.ColorOf | src/lib.rs:1181-1186 | three colour bytes per RGBA pixel |
| Raster.AlphaOf | src/lib.rs:1181-1186 | one alpha byte per RGBA pixel |
| Raster.Interleave | src/lib.rs:1443-1448 | the zip gives four bytes per pixel for as many pixels as the shorter side has |
| Raster.SplitThenInterleave | src/lib.rs:1181-1186 | splitting RGBA data and zipping the halves gives the data back |
| Raster.InterleaveThenSplit | src/lib.rs:1443-1448 | zipping RGB with one alpha per pixel and splitting gives both halves back |
| Raster.SplitRgba | src/lib.rs:1178-1186 | the chunks(4) push loop computes `ColorOf` and `AlphaOf` |
| Raster.MergeAlpha | src/lib.rs:1441-1448 | the zip push loop computes `Interleave` |
| Raster.CmykChannel | src/lib.rs:1068-1075 | a channel is 255 exactly when both inks are 0, and 0 when either is 255 |
| Raster.CmykToRgb | src/lib.rs:1066-1080 | three RGB bytes per four CMYK bytes |
| Raster.ConvertCmyk | src/lib.rs:1066-1080 | the chunk loop computes `CmykToRgb` |
| Raster.SampleRate | src/lib.rs:1238 | the stride max(1, n / 10000) is at least 1 |
| Raster.SampledFromMeaning | src/lib.rs:1239 | the sampler finds exactly the transparent sampled pixels |
| Raster.HasAlpha | src/lib.rs:1235-1247 | true exactly for RGBA or grey-alpha images with a sampled pixel below 255 |
| Raster.OpaqueHasNoAlpha | src/lib.rs:1235-1247 | a fully opaque image never reports alpha |
| Raster.SmallImageAlphaExact | src/lib.rs:1235-1247 | below 20000 pixels every pixel is sampled, so the answer is exact |
| Raster.FirstPixelSampled | src/lib.rs:1239 | a transparent first pixel is always found |
| StreamDecode.MulU32 | src/lib.rs:969 | u32 multiplication wraps and is exact when the product fits |
| StreamDecode.DecodeSmaskStream | src/lib.rs:943-979 | the first w*h bytes (u32 product) of the content when unfiltered, or of its inflation under FlateDecode; too few bytes is a size mismatch; a failed inflation or another filter is an error |
| StreamDecode.SmaskExactSize | src/lib.rs:969-972 | an unfiltered mask of exactly w*h bytes is returned whole |
| StreamDecode.DecodeImageStream | src/lib.rs:982-1110 | `decode_image_stream`, with its CMYK loop, computes `DecodedImage` |
| StreamDecode.RawImageIsExact | src/lib.rs:1027-1109 | a raw image decoded is 8 bits per component with exactly width x height x channels bytes; RGB and CMYK give RGB, grey gives grey, ICCBased one of the two |
| StreamDecode.OversizedRgbRejected | src/lib.rs:1029-1032 | an RGB size whose u32 byte count wraps is rejected |
| StreamDecode.RawRgbDecodes | src/lib.rs:1028-1033 | unfiltered 8-bit RGB data decodes to its first w*h*3 bytes |
| StreamDecode.FlateImageIsRaw | src/lib.rs:1000-1007 | a FlateDecode image is read from the inflated bytes |
| StreamDecode.OtherDepthsRejected | src/lib.rs:1027-1109 | raw data of other than 8 bits per component is rejected |
| StreamDecode.FilterDispatch | src/lib.rs:999-1024 | DCTDecode and JPXDecode give the decoder's image, or its error when it fails; a failed inflation and an unknown filter are errors |
| StreamEncode.ImageDictGets | src/lib.rs:1129-1137 | the written dictionary reads back Subtype, Width, Height, ColorSpace, BitsPerComponent, Filter and Length |
| StreamEncode.ImageDictReadsBack | src/lib.rs:1129-1137 | a written stream reads back, through the program's own readers, as an image of that size, filter and colour space, with no SMask |
| StreamEncode.ImageDictUnique | src/lib.rs:1129-1137 | the written keys are distinct |
| StreamEncode.ImageDictHasNoSmask | src/lib.rs:1129-1137 | a freshly written dictionary has no SMask |
| StreamEncode.JpegStream | src/lib.rs:1113-1140 | succeeds exactly when the encoder does, on the RGB bytes and the sizes truncated to u16; the content is the encoder's output and the dictionary is DeviceRGB DCTDecode of the image's size and that length |
| StreamEncode.SmaskStream | src/lib.rs:1143-1166 | succeeds exactly when the grey encoder does; the content is the encoder's output in a DeviceGray DCTDecode stream of the given size |
| StreamEncode.EncodeWithAlphaStream | src/lib.rs:1169-1210 | with its split loop, computes `AlphaStreams` |
| StreamEncode.AlphaStreamsRoundTrip | src/lib.rs:1169-1210 | when inflate undoes deflate, the FlateDecode stream decodes back to the image's RGB, and the mask has the image's size |
| StreamEncode.ColorStreamDecodes | src/lib.rs:1188-1207 | a deflated RGB buffer of exactly w*h*3 bytes decodes to itself |
| StreamEncode.ColorOfRgba | src/lib.rs:1173-1186 | the colour half of `to_rgba8` is `to_rgb8` |
| StreamEncode.RgbBufferDecodes | src/lib.rs:1028-1033 | exactly w*h*3 RGB bytes decode to themselves |
| StreamEncode.JpegStreamReadsAsJpeg | src/lib.rs:1113-1140 | a written JPEG is read on a later pass as an already-JPEG image of the same size |
| ResamplePlan.InvalidDimensionsRule | src/lib.rs:1319-1325 | an image is skipped for its size exactly when a side is zero |
| ResamplePlan.AlreadyJpegRule | src/lib.rs:1380-1387 | a JPEG is left alone exactly when it has a size and needs no resampling |
| ResamplePlan.ResampleRule | src/lib.rs:1370-1396 | an image needing resampling is skipped exactly when the target is not smaller on either axis, and otherwise resampled to the target |
| ResamplePlan.ReencodeRule | src/lib.rs:1374-1396 | an image needing no resampling that is not a JPEG is re-encoded at its own size, and every unresized conversion is at its own size |
| ResamplePlan.BelowMinimumNeverResampled | src/lib.rs:1371 | at or below min_dpi nothing is resampled |
| ResamplePlan.UnseenImageUnderDefaults | src/lib.rs:1339-1353 | under the defaults an image never seen drawn counts as 72 DPI: a JPEG is kept, anything else is re-encoded at its size |
| ResamplePlan.WorkedExampleDecision | src/lib.rs:1339-1396 | 3000x2000 at 720x480 pt is resampled to 1500x1000 under the defaults |
| ResamplePlan.ResamplingIsSettled | src/lib.rs:1370-1396 | the target size of an image drawn at least half an inch wide, drawn the same way, needs no further resampling: a second run keeps it as a JPEG |
| ResamplePlan.TargetMeetsDpi | src/lib.rs:144-152 | the target size shows the drawing within 1 DPI of the target |
| Pipeline.CollectImageIds | src/lib.rs:1270-1283 | the image streams of the object table, in ascending id order, each once |
| Pipeline.SortedIdsMeaning | src/lib.rs:1272 | that order is strictly ascending and holds exactly the set |
| Pipeline.EncodeImage | src/lib.rs:1484-1505 | an image with alpha becomes a FlateDecode RGB stream and a grey JPEG mask of its size; any other image becomes one RGB JPEG; an error without alpha is a JPEG error |
| Pipeline.Encode | src/lib.rs:1484-1505 | the encoding branch computes `EncodeImage` |
| Pipeline.StepOutcome | src/lib.rs:1319-1507 | an image is skipped exactly when its plan skips or it does not decode; a resampled replacement reads back at the planned size |
| Pipeline.SoftMaskMerged | src/lib.rs:1436-1456 | a mask of w*h bytes on a w x h image gives an RGBA image whose colour is the image's and whose alpha is the mask |
| Pipeline.CountsAddUp | src/lib.rs:1265-1514 | on success total = resampled + skipped, and the total grows by at most one per id |
| Pipeline.EveryImageCounted | src/lib.rs:1290-1296 | when every listed id is a stream, every one is counted |
| Pipeline.StepMaskShape | src/lib.rs:1484-1505 | a step that writes a mask replaces the image with a stream and writes a DeviceGray DCTDecode mask |
| Pipeline.ApplyFrame | src/lib.rs:1489-1504 | writing a step changes only the image's entry and adds at most the mask above max_id, which the image names as /SMask |
| Pipeline.StepFrame | src/lib.rs:1486-1505 | one image changes only its own entry, plus one new entry above max_id holding a soft mask that it names as /SMask |
| Pipeline.ProcessFrame | src/lib.rs:1289-1508 | unlisted objects are untouched and none disappears; new objects are soft masks above the old max_id; root and pages unchanged |
| Pipeline.ProcessedDocument | src/lib.rs:1259-1515 | on success every image is counted once as resampled or skipped; non-images are untouched; new objects are soft masks |
| Pipeline.PdfDocument.constructor | src/lib.rs:1536-1537 | the object table of the loaded document |
| Pipeline.PdfDocument.AddObject | src/lib.rs:1490 | `add_object`: max_id + 1, generation 0, inserted |
| Pipeline.PdfDocument.ProcessImage | src/lib.rs:1290-1505 | the loop body up to encoding, on the current table, computes `ImageStep` |
| Pipeline.PdfDocument.MergeSoftMask | src/lib.rs:1436-1465 | the SMask branch computes `WithSoftMask` |
| Pipeline.PdfDocument.Apply | src/lib.rs:1489-1504 | the new table is `ApplyStep` of the old |
| Pipeline.PdfDocument.ProcessImagesInDoc | src/lib.rs:1259-1515 | the table and result afterwards are `ProcessAll` over the sorted image ids |
| Pipeline.ResamplePdf | src/lib.rs:1518-1560 | InvalidQuality exactly when quality is 0 or above 100; LoadError when loading fails; otherwise the display map holds images with their own pixel sizes, a ProcessingError comes exactly when `ProcessAll` fails, and the output is the save of the processed document, compressed first when asked; on success total = resampled + skipped = number of images |
| ImageCollect.ClosedHoldsPaths | src/lib.rs:1802-1838 | a set holding its forms' children holds everything reachable from it |
| ImageCollect.RootReachable | src/lib.rs:1793-1796 | each of the page's XObjects is reachable |
| ImageCollect.ChildReachable | src/lib.rs:1829-1834 | a child of a reachable form is reachable |
| ImageCollect.ImageCollector.constructor | src/lib.rs:1779-1780 | empty `images` and `seen` |
| ImageCollect.ImageCollector.Collect | src/lib.rs:1802-1838 | a seen id changes nothing; otherwise it is marked, an image is appended once, a form's children are entered; images are never removed; everything seen is reachable from the roots |
| ImageCollect.ImageCollector.Enter | src/lib.rs:1807-1811 | `seen.insert(id)` for a reachable id |
| ImageCollect.ImageCollector.AddImage | src/lib.rs:1824-1826 | `images.push(id)` for an image just entered |
| ImageCollect.ImageCollector.CollectChildren | src/lib.rs:1829-1834 | every child of the form ends up seen |
| ImageCollect.CollectPageImages | src/lib.rs:1778-1799 | exactly the images reachable from the page's XObjects through forms, each once |
| ObjectIdParse.Words | src/lib.rs:1647 | `split_whitespace` gives only non-empty runs without whitespace |
| ObjectIdParse.WordsKeepText | src/lib.rs:1647 | the parts concatenated are the text without whitespace |
| ObjectIdParse.WordsIgnorePadding | src/lib.rs:1647 | leading and trailing whitespace changes nothing |
| ObjectIdParse.WordsOfWord | src/lib.rs:1647 | one word is one part |
| ObjectIdParse.WordsOfJoinSpaced | src/lib.rs:1647 | words joined by spaces split back into the same words |
| ObjectIdParse.ParseUnsigned | src/lib.rs:1652-1655 | `parse::<u32>`/`<u16>`: a value exactly for an optional `+` then one or more digits whose value is below the limit |
| ObjectIdParse.ParseDecimal | src/lib.rs:1652-1655 | a number written in decimal, with or without `+`, parses back to itself |
| ObjectIdParse.LeadingZeroValue | src/lib.rs:1652-1653 | leading zeros do not change the value |
| ObjectIdParse.ParseObjectIdOutcome | src/lib.rs:1647-1657 | not two parts is InvalidFormat; then a bad u32 is InvalidNumber; then a bad u16 is InvalidGeneration; otherwise the id |
| ObjectIdParse.ParseFormatted | src/lib.rs:1647-1657 | "num gen", with any surrounding whitespace, parses back to the id |
| ObjectIdParse.RefusedShapes | src/lib.rs:1647-1650 | "12" and "12 0 R" are InvalidFormat |
| ObjectIdParse.RefusedSign | src/lib.rs:1652-1653 | "-1 0" is InvalidNumber |
| ObjectIdParse.RefusedGeneration | src/lib.rs:1654-1655 | "12 65536" is InvalidGeneration |

## Where the model follows the code over its documentation

- `cm` computes CTM x M (`self.concat(other)` is self x other). The PDF standard, section 8.3.4
  of ISO 32000-1, gives M x CTM. The model keeps the code's order, and
  `Matrix.ConcatOrderMatters` shows that the two differ.
- Of several display sizes with the same area, `max_by` keeps the last one recorded, not the first.
- An ICCBased image is read as RGB or grey by its data size. The /N entry is not looked at.
- Every image XObject of the document is processed. This includes the soft masks of other images,
  which are re-encoded like any image, and images no page draws (these count as 72 DPI).
- A Form XObject and a tiling pattern are entered by the same code, and `scanned_forms` is shared
  between them. `ScanFormXObject` models both `scan_form_xobject` and `scan_tiling_pattern`.

## Left out

- I/O and lopdf itself: `load_mem`, `save_to` and `compress` are parameters of `ResamplePdf`. lopdf's
  `get_object` is a plain lookup in the object map. `get_pages` is the document's page list.
  `catalog` is its root. Error strings are kept abstract.
- Codecs: zlib, JPEG, JPEG 2000 and Lanczos resizing are functions supplied to the model. The
  PNG/JPEG output of `extract_image_native` is not modelled beyond its object-id parsing.
- `extract_pdf_images_info`, `extract_image_info_from_stream` and the rest of
  `extract_image_native` are not modelled. They are reporting code over the same readers.
  `extract_image_native` loads the document before parsing the id, so a load error comes first;
  `ObjectIdParse.ParseObjectId` models the parse alone.
- f32 arithmetic is modelled as exact reals. The f32 token parser and `sqrt` are parameters.
  Conversions from u32 to f32 are exact.
- DisplayInfo.TargetAxisMeetsDpi: holds for exact arithmetic only. The f32 rounding of
  points / 72 * dpi is not modelled.
- Raster.CmykChannel: computed in exact integer arithmetic, (255 - C)(255 - K) / 255 truncated.
  The source's f32 expression can differ from it by one.
- HashMap iteration order is not modelled. Every map is iterated in an unspecified order, chosen
  by `:|`, and every contract holds for any order.
- Pipeline.PdfDocument.ProcessImage: the loop body is split into `MergeSoftMask` and the module-level
  `Encode` method. This keeps each proof small, and the behaviour is unchanged.
- `encode_with_alpha_stream` always returns its mask as `Some`. The model returns the pair directly.
- Failure of the in-memory zlib encoder is not modelled: deflate is total.
- Recursion through chains of references (`get_color_space_name`, `get_content_data`) carries fuel
  equal to the number of objects. For `get_color_space_name`, `PdfObject.OutOfFuelForEver` shows
  that this cuts off only chains the source would follow for ever.
- Resources.ContentData: the same bound is not proved sufficient for `get_content_data`. A Contents
  array can hold several references, and the pigeonhole argument is made only for a single chain.
- ContentTokens.DecodeText: reads each byte as the character with that code point (Latin-1).
  `from_utf8_lossy` decodes UTF-8 and turns each invalid sequence into U+FFFD. Every byte that the
  tokenizer and the operator match compare is ASCII, and an ASCII byte reads the same both ways. A
  token that holds non-ASCII bytes is spelled differently, and so can fail to match a resource name
  that the source would match.
- ContentTokens.Tokenize: `paren_depth` is an unbounded integer. The source's i32 would overflow
  only after 2^31 unclosed parentheses.
- Scanner.ContentScanner.ScanAllPages: a form, pattern or soft-mask group reached more than once
  is scanned only under its first entry in traversal order, as `scanned_forms.insert` runs before
  the scan. The contract states that each such stream is scanned under exactly one entry, and
  that this entry is one the source makes. It does not say that the entry is the first one in
  traversal order. Take a page `/F Do 2 0 0 2 0 0 cm /F Do`, where F draws an image. The source
  records only the identity-scale size, yet the contract admits a state that recorded only the
  doubled size. The contract also fixes neither the order of the recorded sizes nor how many times
  each occurs. When two draws of equal area have different shapes, `get_display_info_map` keeps
  the last one. So the size chosen for an image is not pinned down by the model.
- ContentTokens.TokensAreWellFormed: fixes how strings and brackets end tokens, but not where
  whitespace splits a run of plain characters (`a b` and `ab` both concatenate to `ab`).
  `Tokenize`'s own contract, `tokens == Tokens(text)`, fixes that split.
- Pipeline.ResamplePdf: the display map is related to the scan only through
  `ScanAllPages`'s contract. The contract of `ResamplePdf` itself states only that the map holds
  images with their own pixel sizes.
- Logging (`log`, `log_callback`, `println!`) and the `verbose` flag's output are not modelled.
- `file_ops`, src/main.rs, src/bin/test_load.rs and src/wasm.rs are wrappers and bindings, so they
  are not modelled.
- Inline images (`BI`/`ID`/`EI`) are not handled by the source, and so not by the model.
