/** The per-image decision of process_images_in_doc: which images are skipped,
    which are re-encoded at their own size and which are resampled, and to what
    size; together with the options, result and error types of the library. */
module ResamplePlan {
  import opened Wrappers
  import opened PdfObject
  import opened DisplayInfo

  /** ResampleOptions; the quality is a u8. */
  datatype ResampleOptions = ResampleOptions(
    targetDpi: real,
    quality: byte,
    minDpi: real,
    compressStreams: bool,
    verbose: bool)

  /** ResampleOptions::default. */
  const DEFAULT_OPTIONS: ResampleOptions := ResampleOptions(150.0, 75, 0.0, true, false)

  /** The counts process_images_in_doc reports. */
  datatype ResampleResult = ResampleResult(totalImages: nat, resampledImages: nat, skippedImages: nat)

  /** ResampleError; the error strings of lopdf are kept abstract. */
  datatype ResampleError<E> =
    | InvalidQuality
    | LoadError
    | SaveError
    | ProcessingError(cause: E)

  /** resample_pdf_bytes accepts a JPEG quality from 1 to 100. */
  predicate ValidQuality(q: byte) {
    !(q == 0 || q > 100)
  }

  /** An image is resampled when it is more than 1 DPI above the target and above
      the minimum. */
  predicate NeedsResampling(dpi: real, options: ResampleOptions) {
    dpi > options.targetDpi + 1.0 && dpi > options.minDpi
  }

  /** What happens to one image stream. */
  datatype Plan =
    | SkipInvalidDimensions
    | SkipAlreadyJpeg
    | SkipNotSmaller
    | Convert(resample: bool, target: Pixels)

  predicate IsSkip(p: Plan) {
    !p.Convert?
  }

  /** The display information an image is judged by: what the scanner found, or
      one point per pixel when the image was never seen drawn. */
  function InfoFor(info: Option<ImageDisplayInfo>, width: nat, height: nat): ImageDisplayInfo {
    info.GetOr(PixelsAsPoints(width, height))
  }

  /** The skip rules of process_images_in_doc, in their order, for an image of
      width x height pixels whose first filter is or is not DCTDecode. */
  function Decide(width: nat, height: nat, isJpeg: bool, info: Option<ImageDisplayInfo>,
                  options: ResampleOptions): Plan
  {
    if width == 0 || height == 0 then SkipInvalidDimensions
    else
      var display := InfoFor(info, width, height);
      var needs := NeedsResampling(display.MaxEffectiveDpi(), options);
      var target := if needs then display.TargetPixelsForDpi(options.targetDpi) else Pixels(width, height);
      if !needs && isJpeg then SkipAlreadyJpeg
      else if needs && target.width >= width && target.height >= height then SkipNotSmaller
      else Convert(needs, target)
  }

  /** An image is skipped for its size exactly when a side is zero. */
  lemma InvalidDimensionsRule(width: nat, height: nat, isJpeg: bool, info: Option<ImageDisplayInfo>,
                              options: ResampleOptions)
    ensures Decide(width, height, isJpeg, info, options) == SkipInvalidDimensions <==> width == 0 || height == 0
  {
  }

  /** A JPEG is left alone exactly when it has a size and needs no resampling. */
  lemma AlreadyJpegRule(width: nat, height: nat, isJpeg: bool, info: Option<ImageDisplayInfo>,
                        options: ResampleOptions)
    ensures Decide(width, height, isJpeg, info, options) == SkipAlreadyJpeg <==>
              width > 0 && height > 0 && isJpeg
              && !NeedsResampling(InfoFor(info, width, height).MaxEffectiveDpi(), options)
  {
  }

  /** An image that needs resampling is skipped exactly when its target is at least
      as large on both axes; otherwise it is resampled to the target, which is
      smaller on at least one axis. */
  lemma ResampleRule(width: nat, height: nat, isJpeg: bool, info: Option<ImageDisplayInfo>,
                     options: ResampleOptions)
    requires width > 0 && height > 0
    requires NeedsResampling(InfoFor(info, width, height).MaxEffectiveDpi(), options)
    ensures var target := InfoFor(info, width, height).TargetPixelsForDpi(options.targetDpi);
            var plan := Decide(width, height, isJpeg, info, options);
            && (plan == SkipNotSmaller <==> (target.width >= width && target.height >= height))
            && (plan != SkipNotSmaller ==> (plan == Convert(true, target) && (target.width < width || target.height < height)))
  {
  }

  /** An image that needs no resampling and is not a JPEG is re-encoded at its own
      size; only these and resampled images are ever converted. */
  lemma ReencodeRule(width: nat, height: nat, isJpeg: bool, info: Option<ImageDisplayInfo>,
                     options: ResampleOptions)
    ensures var plan := Decide(width, height, isJpeg, info, options);
            && (plan == Convert(false, Pixels(width, height)) <==>
                  width > 0 && height > 0 && !isJpeg
                  && !NeedsResampling(InfoFor(info, width, height).MaxEffectiveDpi(), options))
            && (plan.Convert? && !plan.resample ==> plan.target == Pixels(width, height))
  {
  }

  /** Below the minimum DPI nothing is resampled. */
  lemma BelowMinimumNeverResampled(width: nat, height: nat, isJpeg: bool, info: Option<ImageDisplayInfo>,
                                   options: ResampleOptions)
    requires InfoFor(info, width, height).MaxEffectiveDpi() <= options.minDpi
    ensures !(Decide(width, height, isJpeg, info, options).Convert? && Decide(width, height, isJpeg, info, options).resample)
  {
  }

  /** With the default options an image that was never seen drawn counts as 72 DPI:
      a JPEG is kept and anything else is re-encoded at its own size. */
  lemma UnseenImageUnderDefaults(width: nat, height: nat, isJpeg: bool)
    requires width > 0 && height > 0
    ensures Decide(width, height, isJpeg, None, DEFAULT_OPTIONS)
            == if isJpeg then SkipAlreadyJpeg else Convert(false, Pixels(width, height))
  {
    PixelsAsPointsIs72Dpi(width, height);
  }

  /** The worked example under the default options: 3000 x 2000 pixels drawn at
      720 x 480 points is resampled to 1500 x 1000. */
  lemma WorkedExampleDecision(isJpeg: bool)
    ensures Decide(3000, 2000, isJpeg, Some(ImageDisplayInfo(3000, 2000, 720.0, 480.0)), DEFAULT_OPTIONS)
            == Convert(true, Pixels(1500, 1000))
  {
    WorkedExample();
  }

  /** Resampling does not repeat: the target size of an image drawn at least half an
      inch on both axes, drawn the same way, is within 1 DPI of the target, so a
      second run keeps it (once it is a JPEG) or re-encodes it at the same size. */
  lemma ResamplingIsSettled(display: ImageDisplayInfo, options: ResampleOptions)
    requires display.displayWidthPoints >= 36.0 && display.displayHeightPoints >= 36.0
    requires 0.5 <= display.displayWidthPoints / POINTS_PER_INCH * options.targetDpi < U32_LIMIT as real - 0.5
    requires 0.5 <= display.displayHeightPoints / POINTS_PER_INCH * options.targetDpi < U32_LIMIT as real - 0.5
    ensures var t := display.TargetPixelsForDpi(options.targetDpi);
            var again := ImageDisplayInfo(t.width, t.height, display.displayWidthPoints, display.displayHeightPoints);
            && !NeedsResampling(again.MaxEffectiveDpi(), options)
            && Decide(t.width, t.height, true, Some(again), options) == SkipAlreadyJpeg
            && Decide(t.width, t.height, false, Some(again), options) == Convert(false, t)
  {
    var t := display.TargetPixelsForDpi(options.targetDpi);
    var again := ImageDisplayInfo(t.width, t.height, display.displayWidthPoints, display.displayHeightPoints);
    TargetMeetsDpi(display, options.targetDpi);
    SettledDecision(t, again, options);
  }

  /** The target size shows the same drawing within 1 DPI of the target on both axes. */
  lemma TargetMeetsDpi(display: ImageDisplayInfo, dpi: real)
    requires display.displayWidthPoints >= 36.0 && display.displayHeightPoints >= 36.0
    requires 0.5 <= display.displayWidthPoints / POINTS_PER_INCH * dpi < U32_LIMIT as real - 0.5
    requires 0.5 <= display.displayHeightPoints / POINTS_PER_INCH * dpi < U32_LIMIT as real - 0.5
    ensures var t := display.TargetPixelsForDpi(dpi);
            ImageDisplayInfo(t.width, t.height, display.displayWidthPoints, display.displayHeightPoints).MaxEffectiveDpi() <= dpi + 1.0
  {
    TargetAxisMeetsDpi(display.displayWidthPoints, dpi);
    TargetAxisMeetsDpi(display.displayHeightPoints, dpi);
  }

  lemma SettledDecision(t: Pixels, again: ImageDisplayInfo, options: ResampleOptions)
    requires t.width > 0 && t.height > 0
    requires !NeedsResampling(again.MaxEffectiveDpi(), options)
    ensures Decide(t.width, t.height, true, Some(again), options) == SkipAlreadyJpeg
    ensures Decide(t.width, t.height, false, Some(again), options) == Convert(false, t)
  {
  }
}
