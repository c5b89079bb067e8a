/** encode_as_jpeg_stream, create_smask_stream and encode_with_alpha_stream: the
    image XObject streams that replace a processed image. */
module StreamEncode {
  import opened Wrappers
  import opened PdfObject
  import opened Raster
  import opened StreamDecode

  datatype EncodeError = JpegEncodeFailed | SmaskEncodeFailed

  /** The dictionary the encoders write, key by key in their order. */
  function ImageDict(width: nat, height: nat, colorSpace: string, filter: string, length: nat): Dict {
    Dict([
      Entry("Type", Name("XObject")),
      Entry("Subtype", Name("Image")),
      Entry("Width", Integer(width)),
      Entry("Height", Integer(height)),
      Entry("ColorSpace", Name(colorSpace)),
      Entry("BitsPerComponent", Integer(8)),
      Entry("Filter", Name(filter)),
      Entry("Length", Integer(length))])
  }

  lemma ImageDictUnique(width: nat, height: nat, colorSpace: string, filter: string, length: nat)
    ensures UniqueKeys(ImageDict(width, height, colorSpace, filter, length))
  {
  }

  lemma ImageDictReadsBack(width: nat, height: nat, colorSpace: string, filter: string, content: Bytes)
    requires IsU32(width) && IsU32(height)
    ensures var d := ImageDict(width, height, colorSpace, filter, |content|);
            && IsImageStream(Stream(d, content))
            && U32Entry(d, "Width", 0) == width
            && U32Entry(d, "Height", 0) == height
            && U32Entry(d, "BitsPerComponent", 8) == 8
            && d.Get("ColorSpace") == Some(Name(colorSpace))
            && FirstFilterName(d) == Some(filter)
            && d.Get("Length") == Some(Integer(|content|))
            && d.Get("SMask").None?
  {
    var d := ImageDict(width, height, colorSpace, filter, |content|);
    ImageDictHasNoSmask(width, height, colorSpace, filter, |content|);
    assert IsImageStream(Stream(d, content)) by { ImageDictGets(width, height, colorSpace, filter, |content|); }
    assert U32Entry(d, "Width", 0) == width by { ImageDictGets(width, height, colorSpace, filter, |content|); }
    assert U32Entry(d, "Height", 0) == height by { ImageDictGets(width, height, colorSpace, filter, |content|); }
    assert U32Entry(d, "BitsPerComponent", 8) == 8 by { ImageDictGets(width, height, colorSpace, filter, |content|); }
    assert FirstFilterName(d) == Some(filter) by { ImageDictGets(width, height, colorSpace, filter, |content|); }
    assert d.Get("ColorSpace") == Some(Name(colorSpace)) && d.Get("Length") == Some(Integer(|content|)) by {
      ImageDictGets(width, height, colorSpace, filter, |content|);
    }
  }

  lemma ImageDictHasNoSmask(width: nat, height: nat, colorSpace: string, filter: string, length: nat)
    ensures ImageDict(width, height, colorSpace, filter, length).Get("SMask").None?
  {
    FindEntryMeaning(ImageDict(width, height, colorSpace, filter, length).entries, "SMask");
  }

  lemma ImageDictGets(width: nat, height: nat, colorSpace: string, filter: string, length: nat)
    ensures var d := ImageDict(width, height, colorSpace, filter, length);
            && d.Get("Subtype") == Some(Name("Image"))
            && d.Get("Width") == Some(Integer(width))
            && d.Get("Height") == Some(Integer(height))
            && d.Get("ColorSpace") == Some(Name(colorSpace))
            && d.Get("BitsPerComponent") == Some(Integer(8))
            && d.Get("Filter") == Some(Name(filter))
            && d.Get("Length") == Some(Integer(length))
  {
    var d := ImageDict(width, height, colorSpace, filter, length);
    ImageDictUnique(width, height, colorSpace, filter, length);
    GetOfUniqueKey(d, "Subtype", 1);
    GetOfUniqueKey(d, "Width", 2);
    GetOfUniqueKey(d, "Height", 3);
    GetOfUniqueKey(d, "ColorSpace", 4);
    GetOfUniqueKey(d, "BitsPerComponent", 5);
    GetOfUniqueKey(d, "Filter", 6);
    GetOfUniqueKey(d, "Length", 7);
  }

  /** encode_as_jpeg_stream: the image as RGB, JPEG-encoded at its size (handed to
      the encoder as u16, so truncated modulo 2^16). */
  function JpegStream(codecs: Codecs, img: RasterImage, quality: nat): (r: Result<Object, EncodeError>)
    ensures r.Ok? ==> r.value.Stream?
    ensures r.Ok? ==> r.value.dict == ImageDict(img.width, img.height, "DeviceRGB", "DCTDecode", |r.value.content|)
    ensures r.Ok? <==>
              codecs.encodeJpeg(ToRgb8(img).data, img.width % U16_LIMIT, img.height % U16_LIMIT, RgbColor, quality).Some?
    ensures r.Ok? ==>
              r.value.content
              == codecs.encodeJpeg(ToRgb8(img).data, img.width % U16_LIMIT, img.height % U16_LIMIT, RgbColor, quality).value
    ensures r.Err? ==> r.error == JpegEncodeFailed
  {
    var rgb := ToRgb8(img);
    match codecs.encodeJpeg(rgb.data, rgb.width % U16_LIMIT, rgb.height % U16_LIMIT, RgbColor, quality)
    case Some(bytes) => Ok(Stream(ImageDict(rgb.width, rgb.height, "DeviceRGB", "DCTDecode", |bytes|), bytes))
    case None => Err(JpegEncodeFailed)
  }

  /** create_smask_stream: the alpha bytes as a grey JPEG. */
  function SmaskStream(codecs: Codecs, alpha: Bytes, width: nat, height: nat, quality: nat): (r: Result<Object, EncodeError>)
    ensures r.Ok? ==> r.value.Stream?
    ensures r.Ok? ==> r.value.dict == ImageDict(width, height, "DeviceGray", "DCTDecode", |r.value.content|)
    ensures r.Ok? <==> codecs.encodeJpeg(alpha, width % U16_LIMIT, height % U16_LIMIT, LumaColor, quality).Some?
    ensures r.Ok? ==>
              r.value.content == codecs.encodeJpeg(alpha, width % U16_LIMIT, height % U16_LIMIT, LumaColor, quality).value
    ensures r.Err? ==> r.error == SmaskEncodeFailed
  {
    match codecs.encodeJpeg(alpha, width % U16_LIMIT, height % U16_LIMIT, LumaColor, quality)
    case Some(bytes) => Ok(Stream(ImageDict(width, height, "DeviceGray", "DCTDecode", |bytes|), bytes))
    case None => Err(SmaskEncodeFailed)
  }

  /** encode_with_alpha_stream, as a value: the colour zlib-compressed in a
      FlateDecode RGB stream, and the alpha in a JPEG soft mask of the same size. */
  function AlphaStreams(codecs: Codecs, img: RasterImage, quality: nat): Result<(Object, Object), EncodeError> {
    var rgba := ToRgba8(img);
    var rgb := ColorOf(rgba.data);
    var compressed := codecs.deflate(rgb);
    var main := Stream(ImageDict(rgba.width, rgba.height, "DeviceRGB", "FlateDecode", |compressed|), compressed);
    match SmaskStream(codecs, AlphaOf(rgba.data), rgba.width, rgba.height, quality)
    case Ok(mask) => Ok((main, mask))
    case Err(e) => Err(e)
  }

  /** encode_with_alpha_stream, with its loop that splits the RGBA bytes. */
  method EncodeWithAlphaStream(codecs: Codecs, img: RasterImage, quality: nat)
    returns (r: Result<(Object, Object), EncodeError>)
    ensures r == AlphaStreams(codecs, img, quality)
  {
    var rgba := ToRgba8(img);
    assert |rgba.data| % 4 == 0 by {
      assert |rgba.data| == 4 * PixelCount(img);
    }
    var rgb, alpha := SplitRgba(rgba.data);
    var compressed := codecs.deflate(rgb);
    var main := Stream(ImageDict(rgba.width, rgba.height, "DeviceRGB", "FlateDecode", |compressed|), compressed);
    var mask := SmaskStream(codecs, alpha, rgba.width, rgba.height, quality);
    if mask.Err? {
      return Err(mask.error);
    }
    r := Ok((main, mask.value));
  }

  /** Decoding the colour stream written for an image with alpha gives back the
      image's colour exactly when zlib's inflate undoes its deflate and the size
      fits u32 arithmetic; the soft mask has the image's size. */
  lemma AlphaStreamsRoundTrip(codecs: Codecs, img: RasterImage, quality: nat)
    requires IsU32(img.width) && IsU32(img.height) && PixelCount(img) * 3 < U32_LIMIT
    requires forall b: Bytes {:trigger codecs.deflate(b)} :: codecs.inflate(codecs.deflate(b)) == Some(b)
    requires AlphaStreams(codecs, img, quality).Ok?
    ensures var (main, mask) := AlphaStreams(codecs, img, quality).value;
            && DecodedImage(codecs, main.dict, main.content, img.width, img.height, "DeviceRGB", 8)
               == Ok(ToRgb8(img))
            && mask.dict == ImageDict(img.width, img.height, "DeviceGray", "DCTDecode", |mask.content|)
  {
    var rgb := ColorOf(ToRgba8(img).data);
    var compressed := codecs.deflate(rgb);
    var (main, mask) := AlphaStreams(codecs, img, quality).value;
    assert main == Stream(ImageDict(img.width, img.height, "DeviceRGB", "FlateDecode", |compressed|), compressed);
    assert DecodedImage(codecs, main.dict, main.content, img.width, img.height, "DeviceRGB", 8) == Ok(ToRgb8(img)) by {
      ColorOfRgba(img);
      assert ToRgb8(img) == Image(Rgb8, img.width, img.height, rgb);
      ColorStreamDecodes(codecs, rgb, img.width, img.height);
    }
  }

  /** A FlateDecode RGB stream of exactly width * height * 3 bytes decodes to them. */
  lemma ColorStreamDecodes(codecs: Codecs, rgb: Bytes, width: nat, height: nat)
    requires IsU32(width) && IsU32(height) && width * height * 3 < U32_LIMIT
    requires |rgb| == 3 * (width * height)
    requires codecs.inflate(codecs.deflate(rgb)) == Some(rgb)
    ensures var compressed := codecs.deflate(rgb);
            DecodedImage(codecs, ImageDict(width, height, "DeviceRGB", "FlateDecode", |compressed|), compressed,
                         width, height, "DeviceRGB", 8)
            == Ok(Image(Rgb8, width, height, rgb))
  {
    var compressed := codecs.deflate(rgb);
    var d := ImageDict(width, height, "DeviceRGB", "FlateDecode", |compressed|);
    assert FirstFilterName(d) == Some("FlateDecode") by {
      ImageDictReadsBack(width, height, "DeviceRGB", "FlateDecode", compressed);
    }
    FlateImageIsRaw(codecs, d, compressed, rgb, width, height, "DeviceRGB", 8);
    RgbBufferDecodes(rgb, width, height);
  }

  /** The colour half of to_rgba8 is to_rgb8. */
  lemma ColorOfRgba(img: RasterImage)
    ensures ColorOf(ToRgba8(img).data) == ToRgb8(img).data
  {
    var n := PixelCount(img);
    var rgba := ToRgba8(img);
    var rgb := ColorOf(rgba.data);
    var expected := ToRgb8(img).data;
    assert |rgb| == |expected| by {
      QuarterOfFour(n);
    }
    forall i | 0 <= i < |rgb| ensures rgb[i] == expected[i] {
      ColorIndex(i, n);
      assert rgb[i] == rgba.data[4 * (i / 3) + i % 3];
    }
  }

  lemma QuarterOfFour(n: nat)
    ensures (4 * n) / 4 * 3 == 3 * n
  {
  }

  /** Byte i of RGB data sits at byte 4 * (i / 3) + i % 3 of the RGBA data. */
  lemma ColorIndex(i: nat, n: nat)
    requires i < 3 * n
    ensures var j := 4 * (i / 3) + i % 3;
            j < 4 * n && j / 4 == i / 3 && j % 4 == i % 3
  {
    var p, c := i / 3, i % 3;
    assert p < n;
    var j := 4 * p + c;
    assert j / 4 == p && j % 4 == c;
  }

  /** Exactly width * height * 3 bytes of RGB decode to themselves. */
  lemma RgbBufferDecodes(rgb: Bytes, width: nat, height: nat)
    requires IsU32(width) && IsU32(height) && width * height * 3 < U32_LIMIT
    requires |rgb| == 3 * (width * height)
    ensures RawImage(rgb, width, height, "DeviceRGB", 8) == Ok(Image(Rgb8, width, height, rgb))
  {
    var n := width * height;
    assert MulU32(width, height) == n;
    assert MulU32(n, 3) == n * 3;
    assert rgb[..n * 3] == rgb;
  }

  /** A JPEG written by encode_as_jpeg_stream is read on a later pass as an image of
      the same size that is already JPEG, decoded by the JPEG decoder. */
  lemma JpegStreamReadsAsJpeg(codecs: Codecs, img: RasterImage, quality: nat)
    requires IsU32(img.width) && IsU32(img.height)
    requires JpegStream(codecs, img, quality).Ok?
    ensures var s := JpegStream(codecs, img, quality).value;
            && IsImageStream(s)
            && U32Entry(s.dict, "Width", 0) == img.width && U32Entry(s.dict, "Height", 0) == img.height
            && FirstFilterName(s.dict) == Some("DCTDecode")
            && (forall cs, bpc :: DecodedImage(codecs, s.dict, s.content, img.width, img.height, cs, bpc)
                                  == if codecs.decodeJpeg(s.content).Some? then Ok(codecs.decodeJpeg(s.content).value)
                                     else Err(JpegFailed))
  {
    var s := JpegStream(codecs, img, quality).value;
    ImageDictReadsBack(img.width, img.height, "DeviceRGB", "DCTDecode", s.content);
  }
}
