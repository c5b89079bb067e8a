/** process_images_in_doc and resample_pdf_bytes: every image XObject of the
    document, in ascending object-id order, is either skipped or replaced in place
    by a re-encoded (and possibly resampled) stream, with its alpha channel moved
    to a new soft-mask object. */
module Pipeline {
  import opened Wrappers
  import opened PdfObject
  import opened DisplayInfo
  import opened Raster
  import opened StreamDecode
  import opened StreamEncode
  import opened ResamplePlan
  import opened GraphicsStack
  import Scanner

  // ---------------------------------------------------------------------------
  // The image ids, in the order of lopdf's BTreeMap of objects

  predicate IsLeast(m: ObjectId, s: set<ObjectId>) {
    forall x :: x in s && x != m ==> IdLess(m, x)
  }

  predicate StrictlySorted(s: seq<ObjectId>) {
    forall i, j :: 0 <= i < j < |s| ==> IdLess(s[i], s[j])
  }

  function ImageIdSet(doc: Document): set<ObjectId> {
    set id | id in doc.objects && IsImageStream(doc.objects[id])
  }

  /** Every finite set of ids has a least one. */
  lemma {:induction false} LeastExists(s: set<ObjectId>)
    requires s != {}
    ensures exists m :: m in s && IsLeast(m, s)
    decreases s
  {
    var x :| x in s;
    if s != {x} {
      LeastExists(s - {x});
      var m :| m in s - {x} && IsLeast(m, s - {x});
      if IdLess(x, m) {
        forall y | y in s && y != x ensures IdLess(x, y) {
          if y != m {
            assert IdLess(m, y);
          }
        }
      } else {
        assert IsLeast(m, s);
      }
    } else {
      assert IsLeast(x, s);
    }
  }

  lemma LeastUnique(a: ObjectId, b: ObjectId, s: set<ObjectId>)
    requires a in s && b in s && IsLeast(a, s) && IsLeast(b, s)
    ensures a == b
  {
  }

  /** The ids of s in ascending order. */
  ghost function SortedIds(s: set<ObjectId>): seq<ObjectId>
    decreases s
  {
    if s == {} then []
    else
      LeastExists(s);
      var m :| m in s && IsLeast(m, s);
      [m] + SortedIds(s - {m})
  }

  lemma {:induction false} SortedIdsMeaning(s: set<ObjectId>)
    ensures StrictlySorted(SortedIds(s)) && |SortedIds(s)| == |s|
    ensures forall x :: x in SortedIds(s) <==> x in s
    decreases s
  {
    if s != {} {
      var r := SortedIds(s);
      var m := r[0];
      assert m in s && IsLeast(m, s) && r[1..] == SortedIds(s - {m});
      SortedIdsMeaning(s - {m});
    }
  }

  /** A strictly sorted sequence holding exactly the ids of s is SortedIds(s). */
  lemma {:induction false} SortedUnique(a: seq<ObjectId>, s: set<ObjectId>)
    requires StrictlySorted(a) && forall x :: x in a <==> x in s
    ensures a == SortedIds(s)
    decreases s
  {
    if a == [] {
      assert s == {};
    } else {
      assert a[0] in s;
      var r := SortedIds(s);
      assert r[0] in s && IsLeast(r[0], s) && r[1..] == SortedIds(s - {r[0]});
      assert IsLeast(a[0], s) by {
        forall x | x in s && x != a[0] ensures IdLess(a[0], x) {
          var k :| 0 <= k < |a| && a[k] == x;
          assert k != 0;
        }
      }
      LeastUnique(r[0], a[0], s);
      assert forall x :: x in a[1..] <==> x in s - {a[0]} by {
        forall x ensures x in a[1..] <==> x in s - {a[0]} {
          if x in a[1..] {
            var k :| 1 <= k < |a| && a[k] == x;
            assert IdLess(a[0], a[k]);
          }
          if x in s - {a[0]} {
            var k :| 0 <= k < |a| && a[k] == x;
            assert k != 0;
            assert a[1..][k - 1] == x;
          }
        }
      }
      SortedUnique(a[1..], s - {a[0]});
    }
  }

  /** The loop over doc.objects that lists the image streams, in key order. */
  method CollectImageIds(doc: Document) returns (ids: seq<ObjectId>)
    ensures ids == SortedIds(ImageIdSet(doc))
    ensures StrictlySorted(ids) && forall x :: x in ids <==> IsImageId(doc, x)
  {
    ids := [];
    var todo := doc.objects.Keys;
    while todo != {}
      invariant todo <= doc.objects.Keys
      invariant StrictlySorted(ids)
      invariant forall x :: x in ids <==> x in doc.objects && x !in todo && IsImageStream(doc.objects[x])
      invariant forall x, y :: x in ids && y in todo ==> IdLess(x, y)
      decreases |todo|
    {
      LeastExists(todo);
      var id :| id in todo && IsLeast(id, todo);
      if IsImageStream(doc.objects[id]) {
        ids := ids + [id];
      }
      todo := todo - {id};
    }
    SortedUnique(ids, ImageIdSet(doc));
  }

  // ---------------------------------------------------------------------------
  // One image, as a value

  function WidthOf(d: Dict): nat { U32Entry(d, "Width", 0) }
  function HeightOf(d: Dict): nat { U32Entry(d, "Height", 0) }

  predicate IsJpegStream(d: Dict) {
    FirstFilterName(d) == Some("DCTDecode")
  }

  /** The ColorSpace entry's name, DeviceRGB when there is none. */
  function ColorSpaceOf(doc: Document, d: Dict): string {
    match d.Get("ColorSpace")
    case Some(cs) => ColorSpaceName(doc, cs)
    case None => "DeviceRGB"
  }

  function BitsPerComponentOf(d: Dict): nat { U32Entry(d, "BitsPerComponent", 8) }

  function SmaskRefOf(d: Dict): Option<ObjectId> {
    match d.Get("SMask")
    case Some(Reference(id)) => Some(id)
    case _ => None
  }

  /** The decision for the stream at `id`, with the scanner's display information
      when it has any. */
  function PlanFor(d: Dict, id: ObjectId, displayMap: map<ObjectId, ImageDisplayInfo>, options: ResampleOptions): Plan {
    Decide(WidthOf(d), HeightOf(d), IsJpegStream(d), if id in displayMap then Some(displayMap[id]) else None, options)
  }

  /** The decoded image with the alpha of its SMask, when the SMask is a stream
      that decodes and the merged buffer fills a Width x Height RGBA image;
      otherwise the decoded image unchanged. */
  function WithSoftMask(codecs: Codecs, doc: Document, d: Dict, img: RasterImage): RasterImage {
    match SmaskRefOf(d)
    case Some(maskId) =>
      (match GetObject(doc, maskId)
       case Some(Stream(md, mc)) =>
         (match DecodeSmaskStream(codecs.inflate, md, mc, WidthOf(d), HeightOf(d))
          case Ok(alpha) =>
            (match FromRaw(Rgba8, WidthOf(d), HeightOf(d), Interleave(ToRgb8(img).data, alpha))
             case Some(rgba) => rgba
             case None => img)
          case Err(_) => img)
       case _ => img)
    case None => img
  }

  /** resample_image when the plan resamples; the image itself otherwise. */
  function Resized(codecs: Codecs, img: RasterImage, plan: Plan): RasterImage
    requires plan.Convert?
  {
    if plan.resample then codecs.resize(img, plan.target.width, plan.target.height) else img
  }

  /** The replacement stream and, for an image with alpha, its soft mask. */
  datatype Encoded = Encoded(main: Object, mask: Option<Object>)

  /** An image with alpha becomes a FlateDecode RGB stream and a grey JPEG soft
      mask of its size; any other image becomes one RGB JPEG of its size. */
  function EncodeImage(codecs: Codecs, img: RasterImage, quality: nat): (r: Result<Encoded, EncodeError>)
    ensures r.Ok? ==> r.value.main.Stream? && (r.value.mask.Some? ==> r.value.mask.value.Stream?)
    ensures r.Ok? && r.value.mask.None? ==>
              !HasAlpha(img)
              && r.value.main.dict == ImageDict(img.width, img.height, "DeviceRGB", "DCTDecode", |r.value.main.content|)
    ensures r.Ok? && r.value.mask.Some? ==>
              && HasAlpha(img)
              && r.value.main.dict == ImageDict(img.width, img.height, "DeviceRGB", "FlateDecode", |r.value.main.content|)
              && r.value.mask.value.dict
                 == ImageDict(img.width, img.height, "DeviceGray", "DCTDecode", |r.value.mask.value.content|)
    ensures r.Err? && !HasAlpha(img) ==> r.error == JpegEncodeFailed
  {
    if HasAlpha(img) then
      match AlphaStreams(codecs, img, quality)
      case Ok((main, mask)) => Ok(Encoded(main, Some(mask)))
      case Err(e) => Err(e)
    else
      match JpegStream(codecs, img, quality)
      case Ok(s) => Ok(Encoded(s, None))
      case Err(e) => Err(e)
  }

  /** The encoding branch of process_images_in_doc. */
  method Encode(codecs: Codecs, img: RasterImage, quality: nat) returns (r: Result<Encoded, EncodeError>)
    ensures r == EncodeImage(codecs, img, quality)
  {
    if HasAlpha(img) {
      var streams := EncodeWithAlphaStream(codecs, img, quality);
      r := if streams.Ok? then Ok(Encoded(streams.value.0, Some(streams.value.1))) else Err(streams.error);
    } else {
      var s := JpegStream(codecs, img, quality);
      r := if s.Ok? then Ok(Encoded(s.value, None)) else Err(s.error);
    }
  }

  /** What the loop body does with one id. */
  datatype Step =
    | NotAStream
    | Skip
    | Replace(encoded: Encoded)
    | Fail(error: EncodeError)

  /** The loop body of process_images_in_doc, on the document as it stands when
      the id comes up. */
  function ImageStep(codecs: Codecs, doc: Document, id: ObjectId, displayMap: map<ObjectId, ImageDisplayInfo>,
                     options: ResampleOptions): Step
  {
    match GetObject(doc, id)
    case Some(Stream(d, content)) =>
      var plan := PlanFor(d, id, displayMap, options);
      if !plan.Convert? then Skip
      else
        (match DecodedImage(codecs, d, content, WidthOf(d), HeightOf(d), ColorSpaceOf(doc, d), BitsPerComponentOf(d))
         case Err(_) => Skip
         case Ok(img) =>
           var out := Resized(codecs, WithSoftMask(codecs, doc, d, img), plan);
           match EncodeImage(codecs, out, options.quality as nat)
           case Ok(enc) => Replace(enc)
           case Err(e) => Fail(e))
    case _ => NotAStream
  }

  /** lopdf's add_object: the next object number, generation 0. */
  function NextId(doc: Document): ObjectId {
    ObjectId(doc.maxId + 1, 0)
  }

  /** The document after one step: a replacement is inserted at the image's id,
      after its soft mask has been added under a new id and linked as its SMask. */
  function ApplyStep(doc: Document, id: ObjectId, step: Step): Document {
    match step
    case Replace(Encoded(main, Some(mask))) =>
      var maskId := NextId(doc);
      var linked := if main.Stream? then Stream(main.dict.Set("SMask", Reference(maskId)), main.content) else main;
      Document(doc.objects[maskId := mask][id := linked], doc.maxId + 1, doc.root, doc.pages)
    case Replace(Encoded(main, None)) =>
      doc.(objects := doc.objects[id := main])
    case _ => doc
  }

  function Count(counts: ResampleResult, step: Step): ResampleResult {
    match step
    case Skip => ResampleResult(counts.totalImages + 1, counts.resampledImages, counts.skippedImages + 1)
    case Replace(_) => ResampleResult(counts.totalImages + 1, counts.resampledImages + 1, counts.skippedImages)
    case _ => counts
  }

  /** The whole loop: the final document, and the counts or the first encoding
      error (which ends the loop, as the source's `?` does). */
  function ProcessAll(codecs: Codecs, doc: Document, ids: seq<ObjectId>, displayMap: map<ObjectId, ImageDisplayInfo>,
                      options: ResampleOptions, counts: ResampleResult): (Document, Result<ResampleResult, EncodeError>)
    decreases |ids|
  {
    if ids == [] then (doc, Ok(counts))
    else
      var step := ImageStep(codecs, doc, ids[0], displayMap, options);
      if step.Fail? then (doc, Err(step.error))
      else ProcessAll(codecs, ApplyStep(doc, ids[0], step), ids[1..], displayMap, options, Count(counts, step))
  }

  // ---------------------------------------------------------------------------
  // Properties of the loop

  /** The counters always add up: every image counted is either resampled or
      skipped. */
  lemma {:induction false} CountsAddUp(codecs: Codecs, doc: Document, ids: seq<ObjectId>,
                                       displayMap: map<ObjectId, ImageDisplayInfo>, options: ResampleOptions,
                                       counts: ResampleResult)
    requires counts.totalImages == counts.resampledImages + counts.skippedImages
    ensures var r := ProcessAll(codecs, doc, ids, displayMap, options, counts).1;
            r.Ok? ==> r.value.totalImages == r.value.resampledImages + r.value.skippedImages
                      && counts.totalImages <= r.value.totalImages <= counts.totalImages + |ids|
    decreases |ids|
  {
    if ids != [] {
      var step := ImageStep(codecs, doc, ids[0], displayMap, options);
      if !step.Fail? {
        CountsAddUp(codecs, ApplyStep(doc, ids[0], step), ids[1..], displayMap, options, Count(counts, step));
      }
    }
  }

  predicate AllStreams(doc: Document, ids: seq<ObjectId>) {
    forall i :: 0 <= i < |ids| ==> ids[i] in doc.objects && doc.objects[ids[i]].Stream?
  }

  /** A step writes only streams, so every id that held a stream still does. */
  lemma StepKeepsStreams(codecs: Codecs, doc: Document, id: ObjectId, displayMap: map<ObjectId, ImageDisplayInfo>,
                         options: ResampleOptions, ids: seq<ObjectId>)
    requires AllStreams(doc, ids)
    ensures AllStreams(ApplyStep(doc, id, ImageStep(codecs, doc, id, displayMap, options)), ids)
  {
  }

  /** When every listed id is a stream, each of them is counted: the total is the
      number of ids. */
  lemma {:induction false} EveryImageCounted(codecs: Codecs, doc: Document, ids: seq<ObjectId>,
                                             displayMap: map<ObjectId, ImageDisplayInfo>, options: ResampleOptions,
                                             counts: ResampleResult)
    requires AllStreams(doc, ids)
    ensures var r := ProcessAll(codecs, doc, ids, displayMap, options, counts).1;
            r.Ok? ==> r.value.totalImages == counts.totalImages + |ids|
    decreases |ids|
  {
    if ids != [] {
      var step := ImageStep(codecs, doc, ids[0], displayMap, options);
      assert step != NotAStream;
      if !step.Fail? {
        StepKeepsStreams(codecs, doc, ids[0], displayMap, options, ids[1..]);
        EveryImageCounted(codecs, ApplyStep(doc, ids[0], step), ids[1..], displayMap, options, Count(counts, step));
      }
    }
  }

  /** lopdf keeps max_id at least every object number in the table. */
  predicate IdsBelowMax(doc: Document) {
    forall id :: id in doc.objects ==> id.num <= doc.maxId
  }

  /** A soft mask written by the encoder. */
  ghost predicate IsMaskObject(o: Object) {
    o.Stream? && exists w: nat, h: nat :: o.dict == ImageDict(w, h, "DeviceGray", "DCTDecode", |o.content|)
  }

  /** An encoding step with a mask produces a stream and a soft-mask object. */
  lemma StepMaskShape(codecs: Codecs, doc: Document, id: ObjectId, displayMap: map<ObjectId, ImageDisplayInfo>,
                      options: ResampleOptions)
    requires id in doc.objects
    ensures var step := ImageStep(codecs, doc, id, displayMap, options);
            step.Replace? && step.encoded.mask.Some? ==>
              step.encoded.main.Stream? && IsMaskObject(step.encoded.mask.value)
  {
    var step := ImageStep(codecs, doc, id, displayMap, options);
    if step.Replace? && step.encoded.mask.Some? {
      var mask := step.encoded.mask.value;
      var d := doc.objects[id].dict;
      var out := Resized(codecs, WithSoftMask(codecs, doc, d, DecodedImage(codecs, d, doc.objects[id].content,
                         WidthOf(d), HeightOf(d), ColorSpaceOf(doc, d), BitsPerComponentOf(d)).value),
                         PlanFor(d, id, displayMap, options));
      assert mask.dict == ImageDict(out.width, out.height, "DeviceGray", "DCTDecode", |mask.content|);
    }
  }

  /** What applying a step changes, for a step whose mask, if any, is a soft mask. */
  lemma ApplyFrame(doc: Document, id: ObjectId, step: Step)
    requires IdsBelowMax(doc) && id in doc.objects
    requires step.Replace? && step.encoded.mask.Some? ==>
               step.encoded.main.Stream? && IsMaskObject(step.encoded.mask.value)
    ensures var doc' := ApplyStep(doc, id, step);
            && IdsBelowMax(doc') && doc.maxId <= doc'.maxId && doc'.root == doc.root && doc'.pages == doc.pages
            && doc.objects.Keys <= doc'.objects.Keys
            && (forall x :: x in doc.objects && x != id ==> doc'.objects[x] == doc.objects[x])
            && (forall x :: x in doc'.objects && x !in doc.objects ==>
                  x.num > doc.maxId && IsMaskObject(doc'.objects[x])
                  && doc'.objects[id].dict.Get("SMask") == Some(Reference(x)))
  {
  }

  /** What one step changes: at most the image's own entry and one new entry above
      the old max_id holding a soft mask that the replacement names as its SMask. */
  lemma StepFrame(codecs: Codecs, doc: Document, id: ObjectId, displayMap: map<ObjectId, ImageDisplayInfo>,
                  options: ResampleOptions)
    requires IdsBelowMax(doc) && id in doc.objects
    ensures var doc' := ApplyStep(doc, id, ImageStep(codecs, doc, id, displayMap, options));
            && IdsBelowMax(doc') && doc.maxId <= doc'.maxId && doc'.root == doc.root && doc'.pages == doc.pages
            && doc.objects.Keys <= doc'.objects.Keys
            && (forall x :: x in doc.objects && x != id ==> doc'.objects[x] == doc.objects[x])
            && (forall x :: x in doc'.objects && x !in doc.objects ==>
                  x.num > doc.maxId && IsMaskObject(doc'.objects[x])
                  && doc'.objects[id].dict.Get("SMask") == Some(Reference(x)))
  {
    StepMaskShape(codecs, doc, id, displayMap, options);
    ApplyFrame(doc, id, ImageStep(codecs, doc, id, displayMap, options));
  }

  /** Across the whole loop: objects that are not listed are untouched, no object
      disappears, and every new object is a soft mask above the original max_id. */
  lemma {:induction false} ProcessFrame(codecs: Codecs, doc: Document, ids: seq<ObjectId>,
                                        displayMap: map<ObjectId, ImageDisplayInfo>, options: ResampleOptions,
                                        counts: ResampleResult)
    requires IdsBelowMax(doc) && AllStreams(doc, ids)
    ensures var doc' := ProcessAll(codecs, doc, ids, displayMap, options, counts).0;
            && IdsBelowMax(doc') && doc.maxId <= doc'.maxId && doc'.root == doc.root && doc'.pages == doc.pages
            && doc.objects.Keys <= doc'.objects.Keys
            && (forall x :: x in doc.objects && x !in ids ==> doc'.objects[x] == doc.objects[x])
            && (forall x :: x in doc'.objects && x !in doc.objects ==> x.num > doc.maxId && IsMaskObject(doc'.objects[x]))
    decreases |ids|
  {
    if ids != [] {
      var step := ImageStep(codecs, doc, ids[0], displayMap, options);
      if !step.Fail? {
        var next := ApplyStep(doc, ids[0], step);
        StepFrame(codecs, doc, ids[0], displayMap, options);
        StepKeepsStreams(codecs, doc, ids[0], displayMap, options, ids[1..]);
        ProcessFrame(codecs, next, ids[1..], displayMap, options, Count(counts, step));
        var doc' := ProcessAll(codecs, next, ids[1..], displayMap, options, Count(counts, step)).0;
        assert forall x :: x in doc.objects && x !in ids ==> x !in ids[1..] && x != ids[0];
        assert forall x :: x in doc'.objects && x !in doc.objects ==>
                 (x in next.objects && x !in doc.objects) || (x !in next.objects);
      }
    }
  }

  /** A skipped image is exactly one whose plan skips it or whose data does not
      decode; a replaced one was converted to the planned size. */
  lemma StepOutcome(codecs: Codecs, doc: Document, id: ObjectId, displayMap: map<ObjectId, ImageDisplayInfo>,
                    options: ResampleOptions)
    requires id in doc.objects && doc.objects[id].Stream?
    ensures var d := doc.objects[id].dict;
            var plan := PlanFor(d, id, displayMap, options);
            var decoded := DecodedImage(codecs, d, doc.objects[id].content, WidthOf(d), HeightOf(d),
                                        ColorSpaceOf(doc, d), BitsPerComponentOf(d));
            var step := ImageStep(codecs, doc, id, displayMap, options);
            && (step == Skip <==> !plan.Convert? || decoded.Err?)
            && (step.Replace? || step.Fail? <==> plan.Convert? && decoded.Ok?)
            && (step.Replace? && plan.resample && ResizeKeepsShape(codecs) ==>
                  U32Entry(step.encoded.main.dict, "Width", 0) == plan.target.width
                  && U32Entry(step.encoded.main.dict, "Height", 0) == plan.target.height)
  {
    var d := doc.objects[id].dict;
    var plan := PlanFor(d, id, displayMap, options);
    var step := ImageStep(codecs, doc, id, displayMap, options);
    if step.Replace? && plan.resample && ResizeKeepsShape(codecs) {
      var decoded := DecodedImage(codecs, d, doc.objects[id].content, WidthOf(d), HeightOf(d),
                                  ColorSpaceOf(doc, d), BitsPerComponentOf(d));
      var out := Resized(codecs, WithSoftMask(codecs, doc, d, decoded.value), plan);
      assert out.width == plan.target.width && out.height == plan.target.height;
      var main := step.encoded.main;
      var filter := if step.encoded.mask.Some? then "FlateDecode" else "DCTDecode";
      assert main.dict == ImageDict(out.width, out.height, "DeviceRGB", filter, |main.content|);
      ImageDictReadsBack(out.width, out.height, "DeviceRGB", filter, main.content);
    }
  }

  /** With a soft mask that decodes to Width x Height bytes and a decoded image of
      Width x Height pixels, the merged image keeps the colour and takes the mask
      as its alpha. */
  lemma SoftMaskMerged(codecs: Codecs, doc: Document, d: Dict, img: RasterImage, maskId: ObjectId)
    requires SmaskRefOf(d) == Some(maskId) && maskId in doc.objects && doc.objects[maskId].Stream?
    requires WidthOf(d) * HeightOf(d) < U32_LIMIT
    requires PixelCount(img) == WidthOf(d) * HeightOf(d)
    requires DecodeSmaskStream(codecs.inflate, doc.objects[maskId].dict, doc.objects[maskId].content,
                               WidthOf(d), HeightOf(d)).Ok?
    ensures var merged := WithSoftMask(codecs, doc, d, img);
            var alpha := DecodeSmaskStream(codecs.inflate, doc.objects[maskId].dict, doc.objects[maskId].content,
                                           WidthOf(d), HeightOf(d)).value;
            && merged.kind == Rgba8 && merged.width == WidthOf(d) && merged.height == HeightOf(d)
            && |merged.data| % 4 == 0
            && ColorOf(merged.data) == ToRgb8(img).data && AlphaOf(merged.data) == alpha
  {
    var w, h := WidthOf(d), HeightOf(d);
    var alpha := DecodeSmaskStream(codecs.inflate, doc.objects[maskId].dict, doc.objects[maskId].content, w, h).value;
    var rgb := ToRgb8(img).data;
    assert |alpha| == w * h;
    assert |rgb| == 3 * |alpha|;
    InterleaveThenSplit(rgb, alpha);
    assert |Interleave(rgb, alpha)| == 4 * (w * h);
  }

  // ---------------------------------------------------------------------------
  // The document, updated in place

  class PdfDocument {
    var objects: map<ObjectId, Object>
    var maxId: nat
    const root: Option<ObjectId>
    const pages: seq<ObjectId>

    function Snapshot(): Document
      reads this
    {
      Document(objects, maxId, root, pages)
    }

    constructor (doc: Document)
      ensures Snapshot() == doc
    {
      objects := doc.objects;
      maxId := doc.maxId;
      root := doc.root;
      pages := doc.pages;
    }

    /** lopdf's add_object. */
    method AddObject(o: Object) returns (id: ObjectId)
      modifies this
      ensures id == NextId(old(Snapshot()))
      ensures objects == old(objects)[id := o] && maxId == old(maxId) + 1
    {
      maxId := maxId + 1;
      id := ObjectId(maxId, 0);
      objects := objects[id := o];
    }

    /** The loop body up to the encoder: reads the current objects, changes nothing. */
    method ProcessImage(codecs: Codecs, id: ObjectId, displayMap: map<ObjectId, ImageDisplayInfo>,
                        options: ResampleOptions) returns (step: Step)
      ensures step == ImageStep(codecs, Snapshot(), id, displayMap, options)
    {
      var doc := Snapshot();
      if !(id in objects && objects[id].Stream?) {
        return NotAStream;
      }
      var d, content := objects[id].dict, objects[id].content;
      assert GetObject(doc, id) == Some(Stream(d, content));
      var width, height := U32Entry(d, "Width", 0), U32Entry(d, "Height", 0);
      var plan := PlanFor(d, id, displayMap, options);
      if !plan.Convert? {
        return Skip;
      }
      var decoded := DecodeImageStream(codecs, d, content, width, height, ColorSpaceOf(doc, d),
                                       BitsPerComponentOf(d));
      if decoded.Err? {
        return Skip;
      }
      var img := MergeSoftMask(codecs, d, width, height, decoded.value);
      var out := if plan.resample then codecs.resize(img, plan.target.width, plan.target.height) else img;
      assert out == Resized(codecs, WithSoftMask(codecs, doc, d, decoded.value), plan);
      var enc := Encode(codecs, out, options.quality as nat);
      step := if enc.Ok? then Replace(enc.value) else Fail(enc.error);
    }

    /** The SMask merge of process_images_in_doc, split out of ProcessImage. */
    method MergeSoftMask(codecs: Codecs, d: Dict, width: nat, height: nat, img: RasterImage) returns (merged: RasterImage)
      requires width == WidthOf(d) && height == HeightOf(d)
      ensures merged == WithSoftMask(codecs, Snapshot(), d, img)
    {
      merged := img;
      var maskId := SmaskRefOf(d);
      if maskId.Some? && maskId.value in objects && objects[maskId.value].Stream? {
        var mask := objects[maskId.value];
        var alpha := DecodeSmaskStream(codecs.inflate, mask.dict, mask.content, width, height);
        if alpha.Ok? {
          var rgba := MergeAlpha(ToRgb8(img).data, alpha.value);
          var raw := FromRaw(Rgba8, width, height, rgba);
          if raw.Some? {
            merged := raw.value;
          }
        }
      }
    }

    /** Writes a step's replacement into the object table. */
    method Apply(id: ObjectId, step: Step)
      modifies this
      ensures Snapshot() == ApplyStep(old(Snapshot()), id, step)
    {
      match step {
        case Replace(Encoded(main, mask)) =>
          if mask.Some? {
            var maskId := AddObject(mask.value);
            var linked := if main.Stream? then Stream(main.dict.Set("SMask", Reference(maskId)), main.content) else main;
            objects := objects[id := linked];
          } else {
            objects := objects[id := main];
          }
        case _ =>
      }
    }

    /** process_images_in_doc. */
    method ProcessImagesInDoc(codecs: Codecs, displayMap: map<ObjectId, ImageDisplayInfo>, options: ResampleOptions)
      returns (r: Result<ResampleResult, EncodeError>)
      modifies this
      ensures (Snapshot(), r)
              == ProcessAll(codecs, old(Snapshot()), SortedIds(ImageIdSet(old(Snapshot()))), displayMap, options,
                            ResampleResult(0, 0, 0))
    {
      var ids := CollectImageIds(Snapshot());
      ghost var start := Snapshot();
      var counts := ResampleResult(0, 0, 0);
      for i := 0 to |ids|
        invariant ProcessAll(codecs, Snapshot(), ids[i..], displayMap, options, counts)
                  == ProcessAll(codecs, start, ids, displayMap, options, ResampleResult(0, 0, 0))
      {
        var step := ProcessImage(codecs, ids[i], displayMap, options);
        assert ids[i..][0] == ids[i] && ids[i..][1..] == ids[i + 1..];
        if step.Fail? {
          return Err(step.error);
        }
        Apply(ids[i], step);
        counts := Count(counts, step);
      }
      r := Ok(counts);
    }
  }

  /** The finished run for a document: every image is counted once as resampled
      or skipped, and only images and new soft masks changed. */
  lemma ProcessedDocument(codecs: Codecs, doc: Document, displayMap: map<ObjectId, ImageDisplayInfo>,
                          options: ResampleOptions)
    requires IdsBelowMax(doc)
    ensures var (doc', r) := ProcessAll(codecs, doc, SortedIds(ImageIdSet(doc)), displayMap, options, ResampleResult(0, 0, 0));
            && (r.Ok? ==> r.value.totalImages == |ImageIdSet(doc)|
                          && r.value.totalImages == r.value.resampledImages + r.value.skippedImages)
            && (forall x :: x in doc.objects && !IsImageId(doc, x) ==> x in doc'.objects && doc'.objects[x] == doc.objects[x])
            && (forall x :: x in doc'.objects && x !in doc.objects ==> x.num > doc.maxId && IsMaskObject(doc'.objects[x]))
  {
    var ids := SortedIds(ImageIdSet(doc));
    SortedIdsMeaning(ImageIdSet(doc));
    assert AllStreams(doc, ids) by {
      forall i | 0 <= i < |ids| ensures ids[i] in doc.objects && doc.objects[ids[i]].Stream? {
        assert ids[i] in ImageIdSet(doc);
      }
    }
    CountsAddUp(codecs, doc, ids, displayMap, options, ResampleResult(0, 0, 0));
    EveryImageCounted(codecs, doc, ids, displayMap, options, ResampleResult(0, 0, 0));
    ProcessFrame(codecs, doc, ids, displayMap, options, ResampleResult(0, 0, 0));
  }

  // ---------------------------------------------------------------------------
  // resample_pdf_bytes

  /** lopdf's load_mem, compress and save_to, and the scanner's float parser and
      square root. */
  datatype Environment = Environment(
    load: Bytes -> Option<Document>,
    compress: Document -> Document,
    save: Document -> Option<Bytes>,
    codecs: Codecs,
    parse: NumberParser,
    sqrt: real -> real)

  /** The document saved: compressed first when compress_streams is set. */
  function Compressed(env: Environment, options: ResampleOptions, doc: Document): Document {
    if options.compressStreams then env.compress(doc) else doc
  }

  /** resample_pdf_bytes: quality check, a scanning pass over one load of the input,
      the processing pass over a second load, optional compression, save. */
  method ResamplePdf(input: Bytes, options: ResampleOptions, env: Environment)
    returns (r: Result<(Bytes, ResampleResult), ResampleError<EncodeError>>, ghost displayMap: map<ObjectId, ImageDisplayInfo>)
    ensures r == Err(InvalidQuality) <==> !ValidQuality(options.quality)
    ensures ValidQuality(options.quality) && env.load(input).None? ==> r == Err(LoadError)
    ensures r.Ok? ==> ValidQuality(options.quality) && env.load(input).Some?
    ensures r.Ok? && IdsBelowMax(env.load(input).value) ==>
              r.value.1.totalImages == |ImageIdSet(env.load(input).value)|
              && r.value.1.totalImages == r.value.1.resampledImages + r.value.1.skippedImages
    ensures ValidQuality(options.quality) && env.load(input).Some? ==>
              var doc := env.load(input).value;
              var processed := ProcessAll(env.codecs, doc, SortedIds(ImageIdSet(doc)), displayMap, options,
                                          ResampleResult(0, 0, 0));
              && (forall id :: id in displayMap ==>
                    IsImageId(doc, id)
                    && displayMap[id].pixelWidth == U32Entry(doc.objects[id].dict, "Width", 0)
                    && displayMap[id].pixelHeight == U32Entry(doc.objects[id].dict, "Height", 0))
              && ((r.Err? && r.error.ProcessingError?) <==> processed.1.Err?)
              && (processed.1.Err? ==> r == Err(ProcessingError(processed.1.error)))
              && (processed.1.Ok? ==>
                    r == if env.save(Compressed(env, options, processed.0)).Some?
                         then Ok((env.save(Compressed(env, options, processed.0)).value, processed.1.value))
                         else Err(SaveError))
  {
    displayMap := map[];
    if !ValidQuality(options.quality) {
      r := Err(InvalidQuality);
      return;
    }
    var scanned := env.load(input);
    if scanned.None? {
      r := Err(LoadError);
      return;
    }
    var scanner := new Scanner.ContentScanner(scanned.value, env.parse, env.sqrt, env.codecs.inflate);
    ghost var dims := scanner.imageDims;
    scanner.ScanAllPages();
    var sizes := scanner.GetDisplayInfoMap();
    displayMap := sizes;
    forall id | id in displayMap
      ensures IsImageId(scanned.value, id)
      ensures displayMap[id].pixelWidth == U32Entry(scanned.value.objects[id].dict, "Width", 0)
      ensures displayMap[id].pixelHeight == U32Entry(scanned.value.objects[id].dict, "Height", 0)
    {
      Scanner.BestDisplayInfoMeaning(scanner.displayInfo, scanner.imageDims, id);
      Scanner.CachedImagesAreImages(scanned.value, dims, id);
    }
    // The second load_mem reads the same bytes, so it gives the same document.
    var loaded := env.load(input);
    assert loaded == scanned;
    var doc := new PdfDocument(loaded.value);
    var result := doc.ProcessImagesInDoc(env.codecs, sizes, options);
    if IdsBelowMax(loaded.value) {
      ProcessedDocument(env.codecs, loaded.value, sizes, options);
    }
    if result.Err? {
      r := Err(ProcessingError(result.error));
      return;
    }
    var out := doc.Snapshot();
    if options.compressStreams {
      out := env.compress(out);
    }
    var saved := env.save(out);
    if saved.None? {
      r := Err(SaveError);
      return;
    }
    r := Ok((saved.value, result.value));
  }
}
