/** Decoded images as the image crate holds them (ImageBuffer inside a
    DynamicImage), the channel conversions the resampler relies on, the loops that
    split and merge an alpha channel, and has_alpha's sampling.  The codecs
    themselves (zlib, JPEG, JPEG 2000, Lanczos resizing) are supplied as
    functions and are trusted for nothing beyond their types. */
module Raster {
  import opened Wrappers
  import opened PdfObject

  /** The DynamicImage variants the decoders produce here. */
  datatype ColorKind = Luma8 | LumaA8 | Rgb8 | Rgba8

  function Channels(k: ColorKind): nat {
    match k
    case Luma8 => 1
    case LumaA8 => 2
    case Rgb8 => 3
    case Rgba8 => 4
  }

  datatype Image = Image(kind: ColorKind, width: nat, height: nat, data: Bytes)

  function PixelCount(img: Image): nat {
    img.width * img.height
  }

  /** ImageBuffer's own invariant: the buffer holds every pixel. */
  predicate Fits(img: Image) {
    |img.data| >= PixelCount(img) * Channels(img.kind)
  }

  type RasterImage = img: Image | Fits(img) witness Image(Luma8, 0, 0, [])

  /** ImageBuffer::from_raw: None when the buffer is too short for the size. */
  function FromRaw(kind: ColorKind, width: nat, height: nat, buf: Bytes): (r: Option<RasterImage>)
    ensures r.Some? <==> |buf| >= width * height * Channels(kind)
    ensures r.Some? ==> r.value == Image(kind, width, height, buf)
  {
    var img := Image(kind, width, height, buf);
    if Fits(img) then Some(img) else None
  }

  /** jpeg_encoder's colour types. */
  datatype ColorType = RgbColor | LumaColor

  /** The foreign codecs: zlib inflate and deflate (flate2), the JPEG and JPEG 2000
      decoders and Lanczos3 resize_exact (image), and the JPEG encoder
      (jpeg_encoder, taking data, 16-bit width and height, colour type and
      quality).  A None is the codec's error. */
  datatype Codecs = Codecs(
    inflate: Bytes -> Option<Bytes>,
    deflate: Bytes -> Bytes,
    decodeJpeg: Bytes -> Option<RasterImage>,
    decodeJpx: Bytes -> Option<RasterImage>,
    encodeJpeg: (Bytes, nat, nat, ColorType, nat) -> Option<Bytes>,
    resize: (RasterImage, nat, nat) -> RasterImage)

  /** What resize_exact promises: the requested size, and the colour kind it was
      given (only the lemmas that say so rely on it). */
  ghost predicate ResizeKeepsShape(codecs: Codecs) {
    forall img: RasterImage, w: nat, h: nat {:trigger codecs.resize(img, w, h)} ::
      var out := codecs.resize(img, w, h);
      out.width == w && out.height == h && out.kind == img.kind
  }

  // ---------------------------------------------------------------------------
  // to_rgb8 and to_rgba8

  /** Channel c of pixel p after to_rgb8: grey is copied to all three channels and
      alpha is dropped. */
  function RgbSample(img: RasterImage, p: nat, c: nat): byte
    requires p < PixelCount(img) && c < 3
  {
    match img.kind
    case Luma8 => img.data[p]
    case LumaA8 => img.data[2 * p]
    case Rgb8 => img.data[3 * p + c]
    case Rgba8 => img.data[4 * p + c]
  }

  /** Channel c of pixel p after to_rgba8: colour as to_rgb8, alpha kept or opaque. */
  function RgbaSample(img: RasterImage, p: nat, c: nat): byte
    requires p < PixelCount(img) && c < 4
  {
    if c < 3 then RgbSample(img, p, c)
    else match img.kind
      case LumaA8 => img.data[2 * p + 1]
      case Rgba8 => img.data[4 * p + 3]
      case _ => 255
  }

  function ToRgb8(img: RasterImage): (r: RasterImage)
    ensures r.kind == Rgb8 && r.width == img.width && r.height == img.height
    ensures |r.data| == 3 * PixelCount(img)
    ensures forall i :: 0 <= i < |r.data| ==> r.data[i] == RgbSample(img, i / 3, i % 3)
  {
    var n := PixelCount(img);
    Image(Rgb8, img.width, img.height, seq(3 * n, i requires 0 <= i < 3 * n => RgbSample(img, i / 3, i % 3)))
  }

  function ToRgba8(img: RasterImage): (r: RasterImage)
    ensures r.kind == Rgba8 && r.width == img.width && r.height == img.height
    ensures |r.data| == 4 * PixelCount(img)
    ensures forall i :: 0 <= i < |r.data| ==> r.data[i] == RgbaSample(img, i / 4, i % 4)
  {
    var n := PixelCount(img);
    Image(Rgba8, img.width, img.height, seq(4 * n, i requires 0 <= i < 4 * n => RgbaSample(img, i / 4, i % 4)))
  }

  /** An RGB image with an exact buffer converts to itself. */
  lemma RgbToRgbIsIdentity(img: RasterImage)
    requires img.kind == Rgb8 && |img.data| == 3 * PixelCount(img)
    ensures ToRgb8(img) == img
  {
    var out := ToRgb8(img).data;
    forall i | 0 <= i < |img.data| ensures out[i] == img.data[i] {
      var p, c := i / 3, i % 3;
      assert 3 * p + c == i;
      assert out[i] == RgbSample(img, p, c) == img.data[3 * p + c];
    }
    assert out == img.data;
  }

  /** Adding an opaque alpha channel to an RGB image and dropping it again gives the
      image back. */
  lemma RgbThroughRgbaIsIdentity(img: RasterImage)
    requires img.kind == Rgb8 && |img.data| == 3 * PixelCount(img)
    ensures ToRgb8(ToRgba8(img)) == img
  {
    var rgba := ToRgba8(img);
    var out := ToRgb8(rgba).data;
    forall i | 0 <= i < |img.data| ensures out[i] == img.data[i] {
      var p, c := i / 3, i % 3;
      assert 3 * p + c == i;
      var j := 4 * p + c;
      assert j / 4 == p && j % 4 == c;
      assert rgba.data[j] == RgbaSample(img, p, c) == img.data[3 * p + c];
      assert out[i] == RgbSample(rgba, p, c) == rgba.data[j];
    }
    assert out == img.data;
  }

  // ---------------------------------------------------------------------------
  // The RGB / alpha split of encode_with_alpha_stream and the merge of an SMask

  /** The colour bytes of RGBA data, three per pixel. */
  function ColorOf(raw: Bytes): (rgb: Bytes)
    requires |raw| % 4 == 0
    ensures |rgb| == |raw| / 4 * 3
  {
    seq(|raw| / 4 * 3, i requires 0 <= i < |raw| / 4 * 3 => raw[4 * (i / 3) + i % 3])
  }

  /** The alpha bytes of RGBA data, one per pixel. */
  function AlphaOf(raw: Bytes): (alpha: Bytes)
    requires |raw| % 4 == 0
    ensures |alpha| == |raw| / 4
  {
    seq(|raw| / 4, i requires 0 <= i < |raw| / 4 => raw[4 * i + 3])
  }

  /** The zip of RGB pixels with alpha bytes: as many pixels as the shorter of the
      two provides. */
  function Interleave(rgb: Bytes, alpha: Bytes): (raw: Bytes)
    ensures |raw| == 4 * Min(|rgb| / 3, |alpha|)
  {
    var n := Min(|rgb| / 3, |alpha|);
    seq(4 * n, i requires 0 <= i < 4 * n => if i % 4 < 3 then rgb[3 * (i / 4) + i % 4] else alpha[i / 4])
  }

  function Min(a: nat, b: nat): nat {
    if a <= b then a else b
  }

  /** Splitting RGBA data and zipping the halves back gives the data again. */
  lemma SplitThenInterleave(raw: Bytes)
    requires |raw| % 4 == 0
    ensures Interleave(ColorOf(raw), AlphaOf(raw)) == raw
  {
    var rgb, alpha := ColorOf(raw), AlphaOf(raw);
    var back := Interleave(rgb, alpha);
    assert |back| == |raw|;
    forall i | 0 <= i < |raw| ensures back[i] == raw[i] {
      var p, c := i / 4, i % 4;
      assert 4 * p + c == i;
      if c < 3 {
        assert (3 * p + c) / 3 == p && (3 * p + c) % 3 == c;
      }
    }
  }

  /** Zipping RGB data with one alpha byte per pixel and splitting the result gives
      the two halves back. */
  lemma InterleaveThenSplit(rgb: Bytes, alpha: Bytes)
    requires |rgb| == 3 * |alpha|
    ensures ColorOf(Interleave(rgb, alpha)) == rgb
    ensures AlphaOf(Interleave(rgb, alpha)) == alpha
  {
    var raw := Interleave(rgb, alpha);
    assert |raw| == 4 * |alpha|;
    var c := ColorOf(raw);
    forall i | 0 <= i < |rgb| ensures c[i] == rgb[i] {
      var p, k := i / 3, i % 3;
      assert 3 * p + k == i;
      assert (4 * p + k) / 4 == p && (4 * p + k) % 4 == k;
    }
    var a := AlphaOf(raw);
    forall i | 0 <= i < |alpha| ensures a[i] == alpha[i] {
      assert (4 * i + 3) / 4 == i && (4 * i + 3) % 4 == 3;
    }
  }

  /** The chunks(4) loop of encode_with_alpha_stream. */
  method SplitRgba(raw: Bytes) returns (rgb: Bytes, alpha: Bytes)
    requires |raw| % 4 == 0
    ensures rgb == ColorOf(raw) && alpha == AlphaOf(raw)
  {
    rgb, alpha := [], [];
    var n := |raw| / 4;
    for p := 0 to n
      invariant |rgb| == 3 * p && |alpha| == p
      invariant forall i :: 0 <= i < 3 * p ==> rgb[i] == raw[4 * (i / 3) + i % 3]
      invariant forall i :: 0 <= i < p ==> alpha[i] == raw[4 * i + 3]
    {
      rgb := rgb + [raw[4 * p], raw[4 * p + 1], raw[4 * p + 2]];
      alpha := alpha + [raw[4 * p + 3]];
    }
  }

  /** The zip loop of process_images_in_doc that adds a decoded SMask to an image's
      RGB pixels. */
  method MergeAlpha(rgb: Bytes, alpha: Bytes) returns (raw: Bytes)
    ensures raw == Interleave(rgb, alpha)
  {
    raw := [];
    var n := Min(|rgb| / 3, |alpha|);
    for p := 0 to n
      invariant |raw| == 4 * p
      invariant forall i :: 0 <= i < 4 * p ==>
                  raw[i] == if i % 4 < 3 then rgb[3 * (i / 4) + i % 4] else alpha[i / 4]
    {
      raw := raw + [rgb[3 * p], rgb[3 * p + 1], rgb[3 * p + 2], alpha[p]];
    }
  }

  // ---------------------------------------------------------------------------
  // The CMYK conversion of decode_image_stream

  /** One channel of ((1 - c) * (1 - k) * 255) as u8, in exact arithmetic on the
      byte values: (255 - C)(255 - K) / 255, truncated. */
  function CmykChannel(x: byte, k: byte): (r: byte)
    ensures r == 255 <==> x == 0 && k == 0
    ensures k == 255 || x == 255 ==> r == 0
  {
    var v := (255 - x as int) * (255 - k as int) / 255;
    ProductBound(255 - x as int, 255 - k as int);
    v as byte
  }

  lemma ProductBound(a: int, b: int)
    requires 0 <= a <= 255 && 0 <= b <= 255
    ensures 0 <= a * b / 255 <= 255
    ensures a * b / 255 == 255 <==> a == 255 && b == 255
    ensures a == 0 || b == 0 ==> a * b / 255 == 0
  {
    if a < 255 {
      assert a * b <= 254 * b;
    } else if b < 255 {
      assert a * b == 255 * b;
    }
  }

  /** Three RGB bytes per four CMYK bytes. */
  function CmykToRgb(cmyk: Bytes): (rgb: Bytes)
    requires |cmyk| % 4 == 0
    ensures |rgb| == |cmyk| / 4 * 3
  {
    seq(|cmyk| / 4 * 3, i requires 0 <= i < |cmyk| / 4 * 3 => CmykChannel(cmyk[4 * (i / 3) + i % 3], cmyk[4 * (i / 3) + 3]))
  }

  method ConvertCmyk(cmyk: Bytes) returns (rgb: Bytes)
    requires |cmyk| % 4 == 0
    ensures rgb == CmykToRgb(cmyk)
  {
    rgb := [];
    for p := 0 to |cmyk| / 4
      invariant |rgb| == 3 * p
      invariant forall i :: 0 <= i < 3 * p ==> rgb[i] == CmykChannel(cmyk[4 * (i / 3) + i % 3], cmyk[4 * (i / 3) + 3])
    {
      var k := cmyk[4 * p + 3];
      rgb := rgb + [CmykChannel(cmyk[4 * p], k), CmykChannel(cmyk[4 * p + 1], k), CmykChannel(cmyk[4 * p + 2], k)];
    }
  }

  // ---------------------------------------------------------------------------
  // has_alpha

  /** The alpha of pixel p of an image that has an alpha channel. */
  function AlphaAt(img: RasterImage, p: nat): byte
    requires img.kind == Rgba8 || img.kind == LumaA8
    requires p < PixelCount(img)
  {
    if img.kind == Rgba8 then img.data[4 * p + 3] else img.data[2 * p + 1]
  }

  /** Every rate-th pixel is looked at, starting with the first; rate is
      max(1, pixels / 10000). */
  function SampleRate(img: RasterImage): (rate: nat)
    ensures rate >= 1
  {
    if PixelCount(img) / 10000 >= 1 then PixelCount(img) / 10000 else 1
  }

  predicate Transparent(img: RasterImage, p: nat)
    requires img.kind == Rgba8 || img.kind == LumaA8
    requires p < PixelCount(img)
  {
    AlphaAt(img, p) < 255
  }

  /** The pixel index of the m-th sample, m * rate, as step_by counts it. */
  function Nth(m: nat, rate: nat): nat {
    if m == 0 then 0 else Nth(m - 1, rate) + rate
  }

  lemma {:induction false} NthMonotone(i: nat, j: nat, rate: nat)
    requires i <= j
    ensures Nth(i, rate) <= Nth(j, rate)
    decreases j - i
  {
    if i < j {
      NthMonotone(i, j - 1, rate);
    }
  }

  lemma {:induction false} NthOfRateOne(m: nat)
    ensures Nth(m, 1) == m
  {
    if m > 0 {
      NthOfRateOne(m - 1);
    }
  }

  /** Whether sample m or a later one is not fully opaque. */
  function SampledFrom(img: RasterImage, rate: nat, m: nat): bool
    requires img.kind == Rgba8 || img.kind == LumaA8
    requires rate >= 1
    decreases PixelCount(img) - Nth(m, rate)
  {
    if Nth(m, rate) >= PixelCount(img) then false
    else Transparent(img, Nth(m, rate)) || SampledFrom(img, rate, m + 1)
  }

  /** The sampler from sample m on finds exactly the transparent samples from m on. */
  lemma {:induction false} SampledFromMeaning(img: RasterImage, rate: nat, m: nat)
    requires img.kind == Rgba8 || img.kind == LumaA8
    requires rate >= 1
    ensures SampledFrom(img, rate, m) <==>
              exists j :: m <= j && Nth(j, rate) < PixelCount(img) && Transparent(img, Nth(j, rate))
    decreases PixelCount(img) - Nth(m, rate)
  {
    if Nth(m, rate) >= PixelCount(img) {
      forall j | m <= j ensures Nth(j, rate) >= PixelCount(img) {
        NthMonotone(m, j, rate);
      }
    } else {
      SampledFromMeaning(img, rate, m + 1);
      if Transparent(img, Nth(m, rate)) {
        assert m <= m && Nth(m, rate) < PixelCount(img) && Transparent(img, Nth(m, rate));
      } else {
        forall j | m <= j && Nth(j, rate) < PixelCount(img) && Transparent(img, Nth(j, rate))
          ensures m + 1 <= j
        {
        }
      }
    }
  }

  /** has_alpha: an RGBA or grey-alpha image one of whose sampled pixels is not fully
      opaque; other kinds have no alpha by construction. */
  function HasAlpha(img: RasterImage): (b: bool)
    ensures b <==> (img.kind == Rgba8 || img.kind == LumaA8)
                   && exists j :: Nth(j, SampleRate(img)) < PixelCount(img) && Transparent(img, Nth(j, SampleRate(img)))
  {
    if img.kind == Rgba8 || img.kind == LumaA8 then
      SampledFromMeaning(img, SampleRate(img), 0);
      SampledFrom(img, SampleRate(img), 0)
    else false
  }

  /** The sampling never reports a fully opaque image as transparent. */
  lemma OpaqueHasNoAlpha(img: RasterImage)
    requires img.kind == Rgba8 || img.kind == LumaA8
    requires forall p :: 0 <= p < PixelCount(img) ==> !Transparent(img, p)
    ensures !HasAlpha(img)
  {
  }

  /** Below 20000 pixels the rate is 1: every pixel is sampled and the answer is exact. */
  lemma SmallImageAlphaExact(img: RasterImage)
    requires img.kind == Rgba8 || img.kind == LumaA8
    requires PixelCount(img) < 20000
    ensures HasAlpha(img) <==> exists p :: 0 <= p < PixelCount(img) && Transparent(img, p)
  {
    assert SampleRate(img) == 1;
    if exists p :: 0 <= p < PixelCount(img) && Transparent(img, p) {
      var p :| 0 <= p < PixelCount(img) && Transparent(img, p);
      NthOfRateOne(p);
    } else if HasAlpha(img) {
      var j :| Nth(j, 1) < PixelCount(img) && Transparent(img, Nth(j, 1));
      NthOfRateOne(j);
    }
  }

  /** The first pixel is always sampled: a transparent first pixel is found. */
  lemma FirstPixelSampled(img: RasterImage)
    requires img.kind == Rgba8 || img.kind == LumaA8
    requires PixelCount(img) > 0 && Transparent(img, 0)
    ensures HasAlpha(img)
  {
    assert Nth(0, SampleRate(img)) == 0;
  }
}
