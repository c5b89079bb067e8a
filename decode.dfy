/** decode_image_stream and decode_smask_stream: from a PDF image stream to pixels.
    Width and height are u32 and their products are taken in u32 arithmetic, so
    they wrap modulo 2^32 exactly as the source's release build does. */
module StreamDecode {
  import opened Wrappers
  import opened PdfObject
  import opened Raster

  datatype DecodeError =
    | InflateFailed
    | JpegFailed
    | Jpeg2000Failed
    | UnsupportedFilter(filter: string)
    | SizeMismatch(got: nat, expected: nat)
    | UnsupportedFormat(bits: nat, got: nat, expected: nat)
    | FromRawFailed
    | IccUndetermined
    | UnsupportedColorSpace(colorSpace: string)

  /** u32 multiplication, wrapping. */
  function MulU32(a: nat, b: nat): (r: nat)
    ensures r < U32_LIMIT
    ensures a * b < U32_LIMIT ==> r == a * b
  {
    (a * b) % U32_LIMIT
  }

  predicate IsU32(n: nat) {
    n < U32_LIMIT
  }

  /** decode_smask_stream: the grey alpha bytes, cut to width * height (in u32
      arithmetic); too little data is an error. */
  function DecodeSmaskStream(inflate: Bytes -> Option<Bytes>, d: Dict, content: Bytes, width: nat, height: nat)
    : (r: Result<Bytes, DecodeError>)
    requires IsU32(width) && IsU32(height)
    ensures r.Ok? ==> |r.value| == MulU32(width, height)
    ensures r.Ok? ==> exists data: Bytes :: |data| >= MulU32(width, height) && r.value == data[..MulU32(width, height)]
                         && (data == content || Some(data) == inflate(content))
    ensures (FirstFilterName(d).None? && |content| >= MulU32(width, height))
              ==> r == Ok(content[..MulU32(width, height)])
    ensures (FirstFilterName(d).None? && |content| < MulU32(width, height))
              ==> r == Err(SizeMismatch(|content|, MulU32(width, height)))
    ensures (FirstFilterName(d) == Some("FlateDecode") && inflate(content).None?) ==> r == Err(InflateFailed)
    ensures (FirstFilterName(d) == Some("FlateDecode") && inflate(content).Some?
             && |inflate(content).value| >= MulU32(width, height))
              ==> r == Ok(inflate(content).value[..MulU32(width, height)])
    ensures (FirstFilterName(d) == Some("FlateDecode") && inflate(content).Some?
             && |inflate(content).value| < MulU32(width, height))
              ==> r == Err(SizeMismatch(|inflate(content).value|, MulU32(width, height)))
    ensures (FirstFilterName(d).Some? && FirstFilterName(d).value != "FlateDecode")
              ==> r == Err(UnsupportedFilter(FirstFilterName(d).value))
  {
    var decoded :=
      match FirstFilterName(d)
      case Some("FlateDecode") =>
        (match inflate(content)
         case Some(data) => Ok(data)
         case None => Err(InflateFailed))
      case None => Ok(content)
      case Some(other) => Err(UnsupportedFilter(other));
    match decoded
    case Ok(data) =>
      var expected := MulU32(width, height);
      if |data| >= expected then Ok(data[..expected]) else Err(SizeMismatch(|data|, expected))
    case Err(e) => Err(e)
  }

  /** A mask of exactly width * height bytes, with no filter, is returned whole. */
  lemma SmaskExactSize(inflate: Bytes -> Option<Bytes>, d: Dict, content: Bytes, width: nat, height: nat)
    requires IsU32(width) && IsU32(height) && width * height < U32_LIMIT
    requires FirstFilterName(d).None? && |content| == width * height
    ensures DecodeSmaskStream(inflate, d, content, width, height) == Ok(content)
  {
    assert content[..|content|] == content;
  }

  /** The bytes the filter gives, before they are read as pixels; DCTDecode and
      JPXDecode are decoded whole and never reach this. */
  function RawBytes(codecs: Codecs, d: Dict, content: Bytes): Result<Bytes, DecodeError> {
    match FirstFilterName(d)
    case Some("FlateDecode") =>
      (match codecs.inflate(content)
       case Some(data) => Ok(data)
       case None => Err(InflateFailed))
    case None => Ok(content)
    case Some(other) => Err(UnsupportedFilter(other))
  }

  predicate IsRgbName(cs: string) { cs == "DeviceRGB" || cs == "RGB" }
  predicate IsGrayName(cs: string) { cs == "DeviceGray" || cs == "Gray" }
  predicate IsCmykName(cs: string) { cs == "DeviceCMYK" || cs == "CMYK" }

  /** The image from_raw builds, or the error the source reports: RGB and grey take
      the first width * height * channels bytes, CMYK is converted to RGB first,
      and ICCBased is read as RGB when there are three bytes per pixel and as grey
      when there is one.  All need 8 bits per component. */
  function RawImage(data: Bytes, width: nat, height: nat, colorSpace: string, bpc: nat)
    : Result<RasterImage, DecodeError>
  {
    if IsRgbName(colorSpace) then
      var expected := MulU32(MulU32(width, height), 3);
      if bpc == 8 && |data| >= expected then FromRawOrFail(Rgb8, width, height, data[..expected])
      else Err(UnsupportedFormat(bpc, |data|, expected))
    else if IsGrayName(colorSpace) then
      var expected := MulU32(width, height);
      if bpc == 8 && |data| >= expected then FromRawOrFail(Luma8, width, height, data[..expected])
      else Err(UnsupportedFormat(bpc, |data|, expected))
    else if IsCmykName(colorSpace) then
      var expected := MulU32(MulU32(width, height), 4);
      if bpc == 8 && |data| >= expected then
        Times4Wraps(MulU32(width, height));
        FromRawOrFail(Rgb8, width, height, CmykToRgb(data[..expected]))
      else Err(UnsupportedFormat(bpc, |data|, expected))
    else if colorSpace == "ICCBased" then
      var pixels := MulU32(width, height);
      if |data| >= pixels * 3 && bpc == 8 then FromRawOrFail(Rgb8, width, height, data[..pixels * 3])
      else if |data| >= pixels && bpc == 8 then FromRawOrFail(Luma8, width, height, data[..pixels])
      else Err(IccUndetermined)
    else Err(UnsupportedColorSpace(colorSpace))
  }

  lemma Times4Wraps(x: nat)
    ensures MulU32(x, 4) % 4 == 0
  {
  }

  function FromRawOrFail(kind: ColorKind, width: nat, height: nat, buf: Bytes): Result<RasterImage, DecodeError> {
    match FromRaw(kind, width, height, buf)
    case Some(img) => Ok(img)
    case None => Err(FromRawFailed)
  }

  /** decode_image_stream, as a value. */
  function DecodedImage(codecs: Codecs, d: Dict, content: Bytes, width: nat, height: nat,
                        colorSpace: string, bpc: nat): Result<RasterImage, DecodeError>
  {
    match FirstFilterName(d)
    case Some("DCTDecode") =>
      (match codecs.decodeJpeg(content)
       case Some(img) => Ok(img)
       case None => Err(JpegFailed))
    case Some("JPXDecode") =>
      (match codecs.decodeJpx(content)
       case Some(img) => Ok(img)
       case None => Err(Jpeg2000Failed))
    case _ =>
      match RawBytes(codecs, d, content)
      case Ok(data) => RawImage(data, width, height, colorSpace, bpc)
      case Err(e) => Err(e)
  }

  /** decode_image_stream, with its CMYK loop. */
  method DecodeImageStream(codecs: Codecs, d: Dict, content: Bytes, width: nat, height: nat,
                           colorSpace: string, bpc: nat) returns (r: Result<RasterImage, DecodeError>)
    requires IsU32(width) && IsU32(height)
    ensures r == DecodedImage(codecs, d, content, width, height, colorSpace, bpc)
  {
    var filter := FirstFilterName(d);
    if filter == Some("DCTDecode") {
      var img := codecs.decodeJpeg(content);
      return if img.Some? then Ok(img.value) else Err(JpegFailed);
    } else if filter == Some("JPXDecode") {
      var img := codecs.decodeJpx(content);
      return if img.Some? then Ok(img.value) else Err(Jpeg2000Failed);
    }
    var raw := RawBytes(codecs, d, content);
    if raw.Err? {
      return Err(raw.error);
    }
    var data := raw.value;
    if IsCmykName(colorSpace) {
      var expected := MulU32(MulU32(width, height), 4);
      if bpc == 8 && |data| >= expected {
        Times4Wraps(MulU32(width, height));
        var rgb := ConvertCmyk(data[..expected]);
        r := FromRawOrFail(Rgb8, width, height, rgb);
      } else {
        r := Err(UnsupportedFormat(bpc, |data|, expected));
      }
    } else {
      r := RawImage(data, width, height, colorSpace, bpc);
    }
  }

  /** A raw (unfiltered or inflated) image that decodes has exactly the declared
      size and a buffer of exactly width * height * channels bytes: a size whose u32
      product wrapped around is never accepted with a short buffer. */
  lemma RawImageIsExact(data: Bytes, width: nat, height: nat, colorSpace: string, bpc: nat)
    requires IsU32(width) && IsU32(height)
    requires RawImage(data, width, height, colorSpace, bpc).Ok?
    ensures var img := RawImage(data, width, height, colorSpace, bpc).value;
            && img.width == width && img.height == height
            && |img.data| == width * height * Channels(img.kind)
            && bpc == 8
            && (IsRgbName(colorSpace) || IsCmykName(colorSpace) ==> img.kind == Rgb8)
            && (IsGrayName(colorSpace) ==> img.kind == Luma8)
            && (colorSpace == "ICCBased" ==> img.kind == Rgb8 || img.kind == Luma8)
  {
    var n := width * height;
    var m := MulU32(width, height);
    WrapShrinks(n);
    assert m <= n;
    if IsRgbName(colorSpace) || IsCmykName(colorSpace) {
      WrapShrinks(m * 4);
      WrapShrinks(m * 3);
      assert MulU32(m, 3) <= 3 * n && MulU32(m, 4) <= 4 * n;
    } else if colorSpace == "ICCBased" {
      assert m * 3 <= 3 * n;
    }
  }

  lemma WrapShrinks(x: nat)
    ensures x % U32_LIMIT <= x
  {
  }

  /** An RGB image too large for u32 arithmetic (width * height * 3 >= 2^32) is
      rejected rather than read from a wrapped-around size. */
  lemma OversizedRgbRejected(data: Bytes, width: nat, height: nat, bpc: nat)
    requires IsU32(width) && IsU32(height)
    requires width * height * 3 >= U32_LIMIT
    ensures RawImage(data, width, height, "DeviceRGB", bpc).Err?
  {
    if RawImage(data, width, height, "DeviceRGB", bpc).Ok? {
      RawImageIsExact(data, width, height, "DeviceRGB", bpc);
      var expected := MulU32(MulU32(width, height), 3);
      assert |data[..expected]| < U32_LIMIT;
    }
  }

  /** Unfiltered 8-bit RGB data of at least width * height * 3 bytes, for a size that
      fits u32 arithmetic, decodes to that many bytes of it. */
  lemma RawRgbDecodes(codecs: Codecs, d: Dict, content: Bytes, width: nat, height: nat)
    requires IsU32(width) && IsU32(height) && width * height * 3 < U32_LIMIT
    requires FirstFilterName(d).None?
    requires |content| >= width * height * 3
    ensures DecodedImage(codecs, d, content, width, height, "DeviceRGB", 8)
            == Ok(Image(Rgb8, width, height, content[..width * height * 3]))
  {
    var n := width * height;
    assert MulU32(width, height) == n;
    assert MulU32(n, 3) == n * 3;
  }

  /** A FlateDecode image is read from the inflated bytes. */
  lemma FlateImageIsRaw(codecs: Codecs, d: Dict, content: Bytes, data: Bytes, width: nat, height: nat,
                        colorSpace: string, bpc: nat)
    requires FirstFilterName(d) == Some("FlateDecode") && codecs.inflate(content) == Some(data)
    ensures DecodedImage(codecs, d, content, width, height, colorSpace, bpc)
            == RawImage(data, width, height, colorSpace, bpc)
  {
  }

  /** Only 8 bits per component are read from raw data. */
  lemma OtherDepthsRejected(data: Bytes, width: nat, height: nat, colorSpace: string, bpc: nat)
    requires IsU32(width) && IsU32(height) && bpc != 8
    ensures RawImage(data, width, height, colorSpace, bpc).Err?
  {
  }

  /** The decoders' own results for JPEG and JPEG 2000; an unknown filter is an error. */
  lemma FilterDispatch(codecs: Codecs, d: Dict, content: Bytes, width: nat, height: nat, colorSpace: string, bpc: nat)
    ensures (FirstFilterName(d) == Some("DCTDecode") && codecs.decodeJpeg(content).Some?)
              ==> DecodedImage(codecs, d, content, width, height, colorSpace, bpc) == Ok(codecs.decodeJpeg(content).value)
    ensures (FirstFilterName(d) == Some("DCTDecode") && codecs.decodeJpeg(content).None?)
              ==> DecodedImage(codecs, d, content, width, height, colorSpace, bpc) == Err(JpegFailed)
    ensures (FirstFilterName(d) == Some("JPXDecode") && codecs.decodeJpx(content).Some?)
              ==> DecodedImage(codecs, d, content, width, height, colorSpace, bpc) == Ok(codecs.decodeJpx(content).value)
    ensures (FirstFilterName(d) == Some("JPXDecode") && codecs.decodeJpx(content).None?)
              ==> DecodedImage(codecs, d, content, width, height, colorSpace, bpc) == Err(Jpeg2000Failed)
    ensures (FirstFilterName(d) == Some("FlateDecode") && codecs.inflate(content).None?)
              ==> DecodedImage(codecs, d, content, width, height, colorSpace, bpc) == Err(InflateFailed)
    ensures (FirstFilterName(d).Some?
             && FirstFilterName(d).value !in {"DCTDecode", "JPXDecode", "FlateDecode"})
              ==> DecodedImage(codecs, d, content, width, height, colorSpace, bpc)
                  == Err(UnsupportedFilter(FirstFilterName(d).value))
  {
  }
}
