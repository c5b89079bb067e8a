/** ContentScanner: walks every page's content stream, the form XObjects, soft-mask
    forms and tiling patterns it enters and the appearance streams of annotations,
    keeping the graphics-state matrix stack, and records for each image every size
    (in points) at which it is drawn.  Each form or pattern is entered at most once. */
module Scanner {
  import opened Wrappers
  import opened PdfObject
  import opened Matrix
  import opened DisplayInfo
  import ContentTokens
  import opened GraphicsStack
  import opened Resources

  // ---------------------------------------------------------------------------
  // cache_image_dimensions

  /** The pixel size cached for one object: an image stream whose Width and Height,
      read as u32 with a default of 0, are both positive. */
  function CachedDims(o: Object): Option<Pixels> {
    if IsImageStream(o) then
      var w := U32Entry(o.dict, "Width", 0);
      var h := U32Entry(o.dict, "Height", 0);
      if w > 0 && h > 0 then Some(Pixels(w, h)) else None
    else None
  }

  /** The cache after looking at one object. */
  function CacheOne(dims: map<ObjectId, Pixels>, id: ObjectId, cached: Option<Pixels>): map<ObjectId, Pixels> {
    if cached.Some? then dims[id := cached.value] else dims
  }

  /** dims is the cache prior extended by the entries of the objects with the
      given ids: a cached object's entry is inserted, replacing any earlier one. */
  ghost predicate CacheOver(doc: Document, prior: map<ObjectId, Pixels>, dims: map<ObjectId, Pixels>, ids: set<ObjectId>) {
    && (forall id :: id in dims <==> id in prior || (id in ids && id in doc.objects && CachedDims(doc.objects[id]).Some?))
    && (forall id :: id in dims ==>
          dims[id] == if id in ids && id in doc.objects && CachedDims(doc.objects[id]).Some?
                      then CachedDims(doc.objects[id]).value else prior[id])
  }

  /** Caching one more object extends the cache over one more id. */
  lemma CacheOverStep(doc: Document, prior: map<ObjectId, Pixels>, dims: map<ObjectId, Pixels>,
                      todo: set<ObjectId>, id: ObjectId)
    requires CacheOver(doc, prior, dims, doc.objects.Keys - todo)
    requires id in todo && todo <= doc.objects.Keys
    ensures CacheOver(doc, prior, CacheOne(dims, id, CachedDims(doc.objects[id])), doc.objects.Keys - (todo - {id}))
  {
  }

  /** A cached image is an image stream of the document with both sides positive
      and below 2^32. */
  lemma CachedImagesAreImages(doc: Document, dims: map<ObjectId, Pixels>, id: ObjectId)
    requires CacheOver(doc, map[], dims, doc.objects.Keys)
    requires id in dims
    ensures IsImageId(doc, id)
    ensures 0 < dims[id].width < U32_LIMIT && 0 < dims[id].height < U32_LIMIT
    ensures dims[id].width == U32Entry(doc.objects[id].dict, "Width", 0)
    ensures dims[id].height == U32Entry(doc.objects[id].dict, "Height", 0)
  {
  }

  // ---------------------------------------------------------------------------
  // Token-level helpers of scan_content_stream

  /** str::trim_start_matches('/'): every leading slash removed. */
  function TrimSlashes(s: string): (r: string)
    ensures |r| <= |s| && s[|s| - |r|..] == r
    ensures |r| > 0 ==> r[0] != '/'
    ensures forall i :: 0 <= i < |s| - |r| ==> s[i] == '/'
    decreases |s|
  {
    if |s| > 0 && s[0] == '/' then TrimSlashes(s[1..]) else s
  }

  /** The object the token before position k names in a name map, if any. */
  function Named(names: map<string, ObjectId>, tokens: seq<string>, k: nat): Option<ObjectId>
    requires k < |tokens|
  {
    if k >= 1 && TrimSlashes(tokens[k - 1]) in names then Some(names[TrimSlashes(tokens[k - 1])])
    else None
  }

  /** The XObject a `/Name Do` at token k invokes. */
  function XObjectAt(xobjects: map<string, ObjectId>, tokens: seq<string>, k: nat): Option<ObjectId>
    requires k < |tokens|
  {
    if tokens[k] == "Do" then Named(xobjects, tokens, k) else None
  }

  /** The soft-mask form a `/Name gs` at token k selects. */
  function MaskAt(doc: Document, extgstates: map<string, ObjectId>, tokens: seq<string>, k: nat): Option<ObjectId>
    requires k < |tokens|
  {
    if tokens[k] == "gs" && Named(extgstates, tokens, k).Some? then SmaskForm(doc, Named(extgstates, tokens, k).value)
    else None
  }

  predicate IsFormId(doc: Document, id: ObjectId) {
    id in doc.objects && IsFormStream(doc.objects[id])
  }

  /** The display size of a unit image drawn with matrix m. */
  function DrawSize(sqrt: real -> real, m: Matrix): DisplaySize {
    DisplaySize(ScaleX(sqrt, m), ScaleY(sqrt, m))
  }

  /** Only a draw with both sides positive is recorded. */
  predicate Shown(s: DisplaySize) {
    s.width > 0.0 && s.height > 0.0
  }

  // ---------------------------------------------------------------------------
  // The display-size table and how it grows

  type SizeTable = map<ObjectId, seq<DisplaySize>>

  predicate Recorded(info: SizeTable, id: ObjectId, s: DisplaySize) {
    id in info && s in info[id]
  }

  /** b is a by appending to lists: no id is lost and no recorded size is changed. */
  predicate Extends(a: SizeTable, b: SizeTable) {
    forall id :: id in a ==> id in b && a[id] <= b[id]
  }

  /** display_info.entry(id).or_default().push(s). */
  function Appended(info: SizeTable, id: ObjectId, s: DisplaySize): (r: SizeTable)
    ensures Recorded(r, id, s)
    ensures Extends(info, r)
    ensures r.Keys == info.Keys + {id}
    ensures forall other :: other in info && other != id ==> r[other] == info[other]
  {
    var prior := if id in info then info[id] else [];
    assert (prior + [s])[|prior|] == s;
    info[id := prior + [s]]
  }

  lemma ExtendsTransitive(a: SizeTable, b: SizeTable, c: SizeTable)
    requires Extends(a, b) && Extends(b, c)
    ensures Extends(a, c)
  {
    forall id | id in a
      ensures id in c && a[id] <= c[id]
    {
      assert a[id] == b[id][..|a[id]|];
      assert b[id] == c[id][..|b[id]|];
      assert c[id][..|a[id]|] == c[id][..|b[id]|][..|a[id]|];
    }
  }

  lemma ExtendsKeepsRecorded(a: SizeTable, b: SizeTable)
    requires Extends(a, b)
    ensures forall id, s :: Recorded(a, id, s) ==> Recorded(b, id, s)
  {
    forall id, s | Recorded(a, id, s)
      ensures Recorded(b, id, s)
    {
      var i :| 0 <= i < |a[id]| && a[id][i] == s;
      assert b[id][i] == s;
    }
  }

  predicate AllIn(ids: seq<ObjectId>, s: set<ObjectId>) {
    forall i :: 0 <= i < |ids| ==> ids[i] in s
  }

  lemma AllInGrows(ids: seq<ObjectId>, s: set<ObjectId>, s': set<ObjectId>)
    requires AllIn(ids, s) && s <= s'
    ensures AllIn(ids, s')
  {
  }

  /** One more id of a loop over ids is in the grown set. */
  lemma AllInStep(ids: seq<ObjectId>, n: nat, s: set<ObjectId>, s': set<ObjectId>)
    requires n < |ids| && AllIn(ids[..n], s) && s <= s' && ids[n] in s'
    ensures AllIn(ids[..n + 1], s')
  {
    assert ids[..n + 1] == ids[..n] + [ids[n]];
  }

  // ---------------------------------------------------------------------------
  // Annotations (scan_page_annotations, scan_annotation)

  /** The annotation ids of a page: the references in its Annots array, in order. */
  function ReferencesIn(items: seq<Object>): (r: seq<ObjectId>)
    ensures forall id :: id in r <==> Reference(id) in items
    decreases |items|
  {
    if items == [] then []
    else
      var init := items[..|items| - 1];
      var v := items[|items| - 1];
      assert items == init + [v];
      ReferencesIn(init) + (if v.Reference? then [v.id] else [])
  }

  function AnnotationIds(doc: Document, page: Dict): seq<ObjectId> {
    match page.Get("Annots")
    case Some(annots) =>
      (match Resolve(doc, annots)
       case Some(Array(items)) => ReferencesIn(items)
       case _ => [])
    case None => []
  }

  /** The appearance dictionary of an annotation object. */
  function ApDict(doc: Document, annotId: ObjectId): Option<Dict> {
    match GetObject(doc, annotId)
    case Some(Dictionary(annot)) =>
      (match annot.Get("AP")
       case Some(ap) => ResolveDict(doc, ap)
       case None => None)
    case _ => None
  }

  const APPEARANCE_KEYS: seq<string> := ["N", "R", "D"]

  function AppearanceAt(doc: Document, ap: Dict, key: string): seq<ObjectId> {
    match ap.Get(key)
    case Some(appearance) => AppearanceTargets(doc, appearance)
    case None => []
  }

  /** The forms named by the first j appearance keys of an appearance dictionary
      are all entered. */
  predicate KeysScanned(doc: Document, ap: Dict, j: nat, s: set<ObjectId>) {
    forall q :: 0 <= q < j && q < |APPEARANCE_KEYS| ==> AllIn(AppearanceAt(doc, ap, APPEARANCE_KEYS[q]), s)
  }

  lemma KeysScannedStep(doc: Document, ap: Dict, j: nat, s: set<ObjectId>, s': set<ObjectId>)
    requires j < |APPEARANCE_KEYS|
    requires KeysScanned(doc, ap, j, s) && s <= s'
    requires AllIn(AppearanceAt(doc, ap, APPEARANCE_KEYS[j]), s')
    ensures KeysScanned(doc, ap, j + 1, s')
  {
    forall q | 0 <= q < j
      ensures AllIn(AppearanceAt(doc, ap, APPEARANCE_KEYS[q]), s')
    {
      AllInGrows(AppearanceAt(doc, ap, APPEARANCE_KEYS[q]), s, s');
    }
  }

  /** Scanning an annotation enters every form its normal, rollover and down
      appearances name. */
  predicate AnnotationScanned(doc: Document, annotId: ObjectId, s: set<ObjectId>) {
    ApDict(doc, annotId).Some? ==> KeysScanned(doc, ApDict(doc, annotId).value, |APPEARANCE_KEYS|, s)
  }

  predicate AnnotationsScanned(doc: Document, page: Dict, s: set<ObjectId>) {
    forall a :: a in AnnotationIds(doc, page) ==> AnnotationScanned(doc, a, s)
  }

  // ---------------------------------------------------------------------------
  // The streams the scanner reads

  /** One content stream as scan_content_stream receives it. */
  datatype ScanInput = ScanInput(content: Bytes, resources: Object, init: Matrix)

  /** m2 keeps every entry of m1. */
  predicate SubMap(m1: map<ObjectId, Matrix>, m2: map<ObjectId, Matrix>) {
    forall f :: f in m1 ==> f in m2 && m2[f] == m1[f]
  }

  lemma SubMapTransitive(m1: map<ObjectId, Matrix>, m2: map<ObjectId, Matrix>, m3: map<ObjectId, Matrix>)
    requires SubMap(m1, m2) && SubMap(m2, m3)
    ensures SubMap(m1, m3)
  {
  }

  // ---------------------------------------------------------------------------
  // The scanner

  class ContentScanner {
    const doc: Document
    const parse: NumberParser
    const sqrt: real -> real
    const inflate: Bytes -> Option<Bytes>
    /** Every size each image is drawn at, in drawing order. */
    var displayInfo: SizeTable
    /** The pixel size of every image, cached at construction. */
    var imageDims: map<ObjectId, Pixels>
    /** Forms and patterns already entered. */
    var scannedForms: set<ObjectId>
    /** The parent matrix each entered stream was entered with, the first time. */
    ghost var enteredAt: map<ObjectId, Matrix>
    /** The entered streams whose content is still being scanned. */
    ghost var active: set<ObjectId>
    /** The content streams whose scan has begun. */
    ghost var streams: set<ScanInput>

    /** The scanner's state: sizes are recorded only for images at positive sizes;
        the entered streams are those with an entry matrix; every entered stream
        that is no longer being scanned has been scanned; and nothing was read,
        entered or recorded that the source would not read, enter or record. */
    ghost predicate Valid()
      reads this
    {
      Consistent(displayInfo, scannedForms, enteredAt, active, streams)
    }

    /** Valid, on the values of the fields. */
    ghost predicate Consistent(info: SizeTable, scanned: set<ObjectId>, at: map<ObjectId, Matrix>,
                               busy: set<ObjectId>, reached: set<ScanInput>) {
      && SizesShown(info)
      && scanned == at.Keys && busy <= scanned
      && FormsDone(info, at, busy)
      && Sound(info, at, reached)
    }

    /** Sizes are recorded only for images, each at least once and at positive sizes. */
    predicate SizesShown(info: SizeTable) {
      forall id :: id in info ==>
        IsImageId(doc, id) && |info[id]| > 0 && forall s :: s in info[id] ==> Shown(s)
    }

    function TokensOf(input: ScanInput): seq<string> {
      ContentTokens.Tokens(ContentTokens.DecodeText(input.content))
    }

    /** What scan_form_xobject (and scan_tiling_pattern) reads for a stream entered
        with parent matrix parent: its decompressed data, its own Resources, and
        parent x its Matrix. */
    function FormInput(f: ObjectId, parent: Matrix): Option<ScanInput> {
      var obj := GetObject(doc, f);
      if obj.Some? && obj.value.Stream? then
        var d := obj.value.dict;
        Some(ScanInput(DecompressedContent(inflate, d, obj.value.content), d.Get("Resources").GetOr(Null),
                       Concat(parent, ParseMatrixFromDict(d))))
      else None
    }

    /** What scan_all_pages reads for page p: its joined Contents, its resources and
        the identity matrix. */
    function PageInput(p: nat): Option<ScanInput> {
      if p < |doc.pages| && PageDict(p).Some? && PageDict(p).value.Get("Contents").Some? then
        var page := PageDict(p).value;
        Some(ScanInput(ContentDataWithin(inflate, doc, page.Get("Contents").value, |doc.objects|),
                       PageResources(doc, page), Identity()))
      else None
    }

    /** The dictionary of page p, when it is one. */
    function PageDict(p: nat): Option<Dict>
      requires p < |doc.pages|
    {
      var obj := GetObject(doc, doc.pages[p]);
      if obj.Some? && obj.value.Dictionary? then Some(obj.value.dict) else None
    }

    /** input is read by the source: it is a page's content, or the data of a stream
        entered with the matrix at records. */
    ghost predicate Origin(input: ScanInput, at: map<ObjectId, Matrix>) {
      || (exists p :: PageInput(p) == Some(input))
      || (exists f :: f in at && FormInput(f, at[f]) == Some(input))
    }

    lemma OriginKept(input: ScanInput, at: map<ObjectId, Matrix>, at': map<ObjectId, Matrix>)
      requires SubMap(at, at') && Origin(input, at)
      ensures Origin(input, at')
    {
      if exists f :: f in at && FormInput(f, at[f]) == Some(input) {
        var f :| f in at && FormInput(f, at[f]) == Some(input);
        assert f in at' && FormInput(f, at'[f]) == Some(input);
      }
    }

    lemma PageOrigin(p: nat, at: map<ObjectId, Matrix>)
      requires PageInput(p).Some?
      ensures Origin(PageInput(p).value, at)
    {
    }

    lemma FormOrigin(f: ObjectId, at: map<ObjectId, Matrix>)
      requires f in at && FormInput(f, at[f]).Some?
      ensures Origin(FormInput(f, at[f]).value, at)
    {
    }

    // -------------------------------------------------------------------------
    // What the source enters and records

    /** Scanning input enters f with parent matrix m: f is one of its tiling
        patterns, entered with its initial matrix, or token k invokes f as a Form
        or selects it as a soft-mask group, under the matrix then on top of the
        stack. */
    predicate InputEnters(input: ScanInput, f: ObjectId, m: Matrix, k: nat) {
      var tokens := TokensOf(input);
      || (f in PatternIds(doc, input.resources) && m == input.init)
      || (k < |tokens| && m == Top(StackAfter(parse, input.init, tokens, k))
          && ((XObjectAt(NamedRefs(doc, input.resources, "XObject"), tokens, k) == Some(f) && IsFormId(doc, f))
              || MaskAt(doc, NamedRefs(doc, input.resources, "ExtGState"), tokens, k) == Some(f)))
    }

    /** Token k of input draws image id at the positive size s. */
    predicate InputDraws(input: ScanInput, id: ObjectId, s: DisplaySize, k: nat) {
      var tokens := TokensOf(input);
      && k < |tokens| && XObjectAt(NamedRefs(doc, input.resources, "XObject"), tokens, k) == Some(id)
      && IsImageId(doc, id) && Shown(s)
      && s == DrawSize(sqrt, Top(StackAfter(parse, input.init, tokens, k)))
    }

    /** Token k of input is a Do of objId under the matrix current. */
    predicate DoAt(input: ScanInput, objId: ObjectId, current: Matrix, k: nat) {
      var tokens := TokensOf(input);
      && k < |tokens| && XObjectAt(NamedRefs(doc, input.resources, "XObject"), tokens, k) == Some(objId)
      && current == Top(StackAfter(parse, input.init, tokens, k))
    }

    /** a is an annotation of page p. */
    predicate AnnotationOf(a: ObjectId, p: nat) {
      p < |doc.pages| && PageDict(p).Some? && a in AnnotationIds(doc, PageDict(p).value)
    }

    /** appearance is the entry under key j of the AP dictionary of annotation a
        of page p. */
    predicate AppearanceEntryOf(appearance: Object, p: nat, a: ObjectId, j: nat) {
      AnnotationOf(a, p) && j < |APPEARANCE_KEYS| && ApDict(doc, a).Some?
      && ApDict(doc, a).value.Get(APPEARANCE_KEYS[j]) == Some(appearance)
    }

    /** f is one of the streams named under key j of the AP dictionary of
        annotation a of page p. */
    predicate AppearanceOf(f: ObjectId, p: nat, a: ObjectId, j: nat) {
      AnnotationOf(a, p) && j < |APPEARANCE_KEYS| && ApDict(doc, a).Some?
      && f in AppearanceAt(doc, ApDict(doc, a).value, APPEARANCE_KEYS[j])
    }

    /** Entering f with parent matrix m is an entry the source makes: from a stream
        it reads, or as an annotation appearance with the identity. */
    ghost predicate EnteredFrom(f: ObjectId, m: Matrix, reached: set<ScanInput>) {
      || (exists input, k :: input in reached && InputEnters(input, f, m, k))
      || (m == Identity() && exists p, a, j :: AppearanceOf(f, p, a, j))
    }

    /** Image id is drawn at size s by a Do of a stream the source reads. */
    ghost predicate Drawn(reached: set<ScanInput>, id: ObjectId, s: DisplaySize) {
      exists input, k :: input in reached && InputDraws(input, id, s, k)
    }

    /** Every entry matrix is one the source enters with, every recorded size is
        the draw of an image by a Do of a stream the scanner has read, and every
        such stream is a page's content or an entered stream's data. */
    ghost predicate Sound(info: SizeTable, at: map<ObjectId, Matrix>, reached: set<ScanInput>) {
      && (forall f {:trigger EnteredFrom(f, at[f], reached)} :: f in at ==> EnteredFrom(f, at[f], reached))
      && (forall id, s {:trigger Drawn(reached, id, s)} :: Recorded(info, id, s) ==> Drawn(reached, id, s))
      && (forall input {:trigger Origin(input, at)} :: input in reached ==> Origin(input, at))
    }

    lemma EnteredBy(f: ObjectId, m: Matrix, reached: set<ScanInput>, input: ScanInput, k: nat)
      requires input in reached && InputEnters(input, f, m, k)
      ensures EnteredFrom(f, m, reached)
    {
    }

    lemma EnteredAsAppearance(f: ObjectId, reached: set<ScanInput>, p: nat, a: ObjectId, j: nat)
      requires AppearanceOf(f, p, a, j)
      ensures EnteredFrom(f, Identity(), reached)
    {
    }

    lemma DrawnBy(reached: set<ScanInput>, id: ObjectId, s: DisplaySize, input: ScanInput, k: nat)
      requires input in reached && InputDraws(input, id, s, k)
      ensures Drawn(reached, id, s)
    {
    }

    lemma EnteredFromGrows(f: ObjectId, m: Matrix, reached: set<ScanInput>, reached': set<ScanInput>)
      requires reached <= reached' && EnteredFrom(f, m, reached)
      ensures EnteredFrom(f, m, reached')
    {
      if exists input, k :: input in reached && InputEnters(input, f, m, k) {
        var input, k :| input in reached && InputEnters(input, f, m, k);
        EnteredBy(f, m, reached', input, k);
      }
    }

    lemma DrawnGrows(reached: set<ScanInput>, reached': set<ScanInput>, id: ObjectId, s: DisplaySize)
      requires reached <= reached' && Drawn(reached, id, s)
      ensures Drawn(reached', id, s)
    {
      var input, k :| input in reached && InputDraws(input, id, s, k);
      DrawnBy(reached', id, s, input, k);
    }

    /** The entered stream f has been scanned with its entry matrix combined with
        its own, if it is a stream. */
    ghost predicate FormDone(info: SizeTable, at: map<ObjectId, Matrix>, f: ObjectId)
      requires f in at
    {
      FormInput(f, at[f]).Some? ==> StreamScanned(info, at.Keys, FormInput(f, at[f]).value)
    }

    /** Every entered stream not in busy has been scanned. */
    ghost predicate FormsDone(info: SizeTable, at: map<ObjectId, Matrix>, busy: set<ObjectId>) {
      forall f {:trigger FormDone(info, at, f)} :: f in at && f !in busy ==> FormDone(info, at, f)
    }

    /** Entering a new stream in a way the source does keeps the state sound. */
    lemma SoundAfterEntering(info: SizeTable, at: map<ObjectId, Matrix>, reached: set<ScanInput>,
                             f: ObjectId, m: Matrix)
      requires Sound(info, at, reached) && f !in at && EnteredFrom(f, m, reached)
      ensures Sound(info, at[f := m], reached)
    {
      var at' := at[f := m];
      assert SubMap(at, at');
      forall g | g in at'
        ensures EnteredFrom(g, at'[g], reached)
      {
        if g != f {
          assert EnteredFrom(g, at[g], reached);
        }
      }
      forall input | input in reached
        ensures Origin(input, at')
      {
        assert Origin(input, at);
        OriginKept(input, at, at');
      }
    }

    /** Beginning the scan of a stream the source reads keeps the state sound. */
    lemma SoundAfterReaching(info: SizeTable, at: map<ObjectId, Matrix>, reached: set<ScanInput>,
                             input: ScanInput)
      requires Sound(info, at, reached) && Origin(input, at)
      ensures Sound(info, at, reached + {input})
    {
      var reached' := reached + {input};
      forall g | g in at
        ensures EnteredFrom(g, at[g], reached')
      {
        assert EnteredFrom(g, at[g], reached);
        EnteredFromGrows(g, at[g], reached, reached');
      }
      forall id, s | Recorded(info, id, s)
        ensures Drawn(reached', id, s)
      {
        assert Drawn(reached, id, s);
        DrawnGrows(reached, reached', id, s);
      }
      forall other | other in reached'
        ensures Origin(other, at)
      {
        if other != input {
          assert Origin(other, at);
        }
      }
    }

    /** The sizes recorded after appending s for id: the earlier ones and s. */
    lemma AppendedRecords(info: SizeTable, id: ObjectId, s: DisplaySize, x: ObjectId, t: DisplaySize)
      requires Recorded(Appended(info, id, s), x, t)
      ensures Recorded(info, x, t) || (x == id && t == s)
    {
      if x == id {
        var prior := if id in info then info[id] else [];
        assert Appended(info, id, s)[id] == prior + [s];
      }
    }

    /** Recording a draw the source makes keeps the state sound. */
    lemma SoundAfterRecording(info: SizeTable, at: map<ObjectId, Matrix>, reached: set<ScanInput>,
                              id: ObjectId, s: DisplaySize, input: ScanInput, k: nat)
      requires Sound(info, at, reached) && input in reached && InputDraws(input, id, s, k)
      ensures Sound(Appended(info, id, s), at, reached)
    {
      forall x, t | Recorded(Appended(info, id, s), x, t)
        ensures Drawn(reached, x, t)
      {
        AppendedRecords(info, id, s, x, t);
        if x == id && t == s {
          DrawnBy(reached, id, s, input, k);
        } else {
          assert Recorded(info, x, t);
        }
      }
    }

    lemma FormsDoneAfterEntering(info: SizeTable, at: map<ObjectId, Matrix>, busy: set<ObjectId>,
                                 f: ObjectId, m: Matrix)
      requires FormsDone(info, at, busy) && f !in at
      ensures FormsDone(info, at[f := m], busy + {f})
    {
      var at' := at[f := m];
      forall g | g in at' && g !in busy + {f}
        ensures FormDone(info, at', g)
      {
        assert FormDone(info, at, g);
        if FormInput(g, at[g]).Some? {
          StreamScannedPersists(info, info, at.Keys, at'.Keys, FormInput(g, at[g]).value);
        }
      }
    }

    lemma FormsDoneAfterRecording(info: SizeTable, at: map<ObjectId, Matrix>, busy: set<ObjectId>,
                                  id: ObjectId, s: DisplaySize)
      requires FormsDone(info, at, busy)
      ensures FormsDone(Appended(info, id, s), at, busy)
    {
      forall g | g in at && g !in busy
        ensures FormDone(Appended(info, id, s), at, g)
      {
        assert FormDone(info, at, g);
        if FormInput(g, at[g]).Some? {
          StreamScannedPersists(info, Appended(info, id, s), at.Keys, at.Keys, FormInput(g, at[g]).value);
        }
      }
    }

    /** Entering f with parent matrix m, as the source does, keeps the state
        consistent, with f being scanned. */
    lemma ConsistentAfterEntering(info: SizeTable, scanned: set<ObjectId>, at: map<ObjectId, Matrix>,
                                  busy: set<ObjectId>, reached: set<ScanInput>, f: ObjectId, m: Matrix)
      requires Consistent(info, scanned, at, busy, reached) && f !in scanned && EnteredFrom(f, m, reached)
      ensures Consistent(info, scanned + {f}, at[f := m], busy + {f}, reached)
    {
      SoundAfterEntering(info, at, reached, f, m);
      FormsDoneAfterEntering(info, at, busy, f, m);
    }

    /** Finishing f once it has been scanned keeps the state consistent. */
    lemma ConsistentAfterLeaving(info: SizeTable, scanned: set<ObjectId>, at: map<ObjectId, Matrix>,
                                 busy: set<ObjectId>, reached: set<ScanInput>, f: ObjectId)
      requires Consistent(info, scanned, at, busy, reached) && f in at && FormDone(info, at, f)
      ensures Consistent(info, scanned, at, busy - {f}, reached)
    {
      forall g | g in at && g !in busy - {f}
        ensures FormDone(info, at, g)
      {
      }
    }

    /** Beginning to scan a stream the source reads keeps the state consistent. */
    lemma ConsistentAfterReaching(info: SizeTable, scanned: set<ObjectId>, at: map<ObjectId, Matrix>,
                                  busy: set<ObjectId>, reached: set<ScanInput>, input: ScanInput)
      requires Consistent(info, scanned, at, busy, reached) && Origin(input, at)
      ensures Consistent(info, scanned, at, busy, reached + {input})
    {
      SoundAfterReaching(info, at, reached, input);
    }

    /** Recording a draw the source makes keeps the state consistent. */
    lemma ConsistentAfterRecording(info: SizeTable, scanned: set<ObjectId>, at: map<ObjectId, Matrix>,
                                   busy: set<ObjectId>, reached: set<ScanInput>, id: ObjectId, s: DisplaySize,
                                   input: ScanInput, k: nat)
      requires Consistent(info, scanned, at, busy, reached) && input in reached && InputDraws(input, id, s, k)
      ensures Consistent(Appended(info, id, s), scanned, at, busy, reached)
    {
      SoundAfterRecording(info, at, reached, id, s, input, k);
      FormsDoneAfterRecording(info, at, busy, id, s);
      var info' := Appended(info, id, s);
      forall x | x in info'
        ensures IsImageId(doc, x) && |info'[x]| > 0 && forall t :: t in info'[x] ==> Shown(t)
      {
        if x == id {
          var prior := if id in info then info[id] else [];
          assert info'[id] == prior + [s];
        }
      }
    }

    // -------------------------------------------------------------------------
    // What scanning a stream achieves

    /** What the operator at token k achieves once handled with current as the
        current transformation matrix: an image it draws at a positive size is
        recorded at that size, and a form it invokes or a soft-mask group it
        selects has been entered. */
    predicate OperatorScanned(info: SizeTable, entered: set<ObjectId>, xobjects: map<string, ObjectId>,
                              extgstates: map<string, ObjectId>, tokens: seq<string>, k: nat, current: Matrix)
      requires k < |tokens|
    {
      && (XObjectAt(xobjects, tokens, k).Some? && IsImageId(doc, XObjectAt(xobjects, tokens, k).value)
          && Shown(DrawSize(sqrt, current))
          ==> Recorded(info, XObjectAt(xobjects, tokens, k).value, DrawSize(sqrt, current)))
      && (XObjectAt(xobjects, tokens, k).Some? && IsFormId(doc, XObjectAt(xobjects, tokens, k).value)
          ==> XObjectAt(xobjects, tokens, k).value in entered)
      && (MaskAt(doc, extgstates, tokens, k).Some? ==> MaskAt(doc, extgstates, tokens, k).value in entered)
    }

    /** Token k of a content stream is scanned when its operator is, under the matrix
        that q, Q and cm leave on top of the stack before it. */
    predicate TokenScanned(info: SizeTable, entered: set<ObjectId>, xobjects: map<string, ObjectId>,
                           extgstates: map<string, ObjectId>, init: Matrix, tokens: seq<string>, k: nat)
      requires k < |tokens|
    {
      OperatorScanned(info, entered, xobjects, extgstates, tokens, k, Top(StackAfter(parse, init, tokens, k)))
    }

    /** The first n tokens of a content stream are scanned. */
    predicate TokensScanned(info: SizeTable, entered: set<ObjectId>, xobjects: map<string, ObjectId>,
                            extgstates: map<string, ObjectId>, init: Matrix, tokens: seq<string>, n: nat)
      requires n <= |tokens|
      decreases n
    {
      n == 0 ||
      (TokensScanned(info, entered, xobjects, extgstates, init, tokens, n - 1)
       && TokenScanned(info, entered, xobjects, extgstates, init, tokens, n - 1))
    }

    /** Every token among the first n is scanned. */
    lemma {:induction false} TokensScannedEach(info: SizeTable, entered: set<ObjectId>, xobjects: map<string, ObjectId>,
                                               extgstates: map<string, ObjectId>, init: Matrix, tokens: seq<string>,
                                               n: nat, k: nat)
      requires n <= |tokens| && k < n
      requires TokensScanned(info, entered, xobjects, extgstates, init, tokens, n)
      ensures TokenScanned(info, entered, xobjects, extgstates, init, tokens, k)
    {
      if k < n - 1 {
        TokensScannedEach(info, entered, xobjects, extgstates, init, tokens, n - 1, k);
      }
    }

    lemma {:induction false} TokensScannedPersist(info: SizeTable, info': SizeTable, entered: set<ObjectId>,
                                                  entered': set<ObjectId>, xobjects: map<string, ObjectId>,
                                                  extgstates: map<string, ObjectId>, init: Matrix,
                                                  tokens: seq<string>, n: nat)
      requires n <= |tokens|
      requires TokensScanned(info, entered, xobjects, extgstates, init, tokens, n)
      requires Extends(info, info') && entered <= entered'
      ensures TokensScanned(info', entered', xobjects, extgstates, init, tokens, n)
    {
      if n > 0 {
        TokensScannedPersist(info, info', entered, entered', xobjects, extgstates, init, tokens, n - 1);
        ExtendsKeepsRecorded(info, info');
      }
    }

    /** A Do has done its part when an image drawn at a positive size is recorded and
        a form has been entered. */
    predicate DrawDone(info: SizeTable, entered: set<ObjectId>, id: ObjectId, size: DisplaySize) {
      && (IsImageId(doc, id) && Shown(size) ==> Recorded(info, id, size))
      && (IsFormId(doc, id) ==> id in entered)
    }

    /** The operator at token k is scanned once the branch of the token loop that
        handles it has run. */
    lemma OperatorAtScanned(info: SizeTable, entered: set<ObjectId>, xobjects: map<string, ObjectId>,
                            extgstates: map<string, ObjectId>, tokens: seq<string>, k: nat, current: Matrix)
      requires k < |tokens|
      requires (tokens[k] == "Do" && k >= 1 && TrimSlashes(tokens[k - 1]) in xobjects)
               ==> DrawDone(info, entered, xobjects[TrimSlashes(tokens[k - 1])], DrawSize(sqrt, current))
      requires (tokens[k] == "gs" && k >= 1 && TrimSlashes(tokens[k - 1]) in extgstates
                && SmaskForm(doc, extgstates[TrimSlashes(tokens[k - 1])]).Some?)
               ==> SmaskForm(doc, extgstates[TrimSlashes(tokens[k - 1])]).value in entered
      ensures OperatorScanned(info, entered, xobjects, extgstates, tokens, k, current)
    {
    }

    /** What scanning one content stream achieves: every token, and before them
        every tiling pattern of the resources. */
    predicate StreamScanned(info: SizeTable, entered: set<ObjectId>, input: ScanInput) {
      var tokens := TokensOf(input);
      && TokensScanned(info, entered, NamedRefs(doc, input.resources, "XObject"),
                       NamedRefs(doc, input.resources, "ExtGState"), input.init, tokens, |tokens|)
      && AllIn(PatternIds(doc, input.resources), entered)
    }

    lemma StreamScannedPersists(info: SizeTable, info': SizeTable, entered: set<ObjectId>, entered': set<ObjectId>,
                                input: ScanInput)
      requires StreamScanned(info, entered, input)
      requires Extends(info, info') && entered <= entered'
      ensures StreamScanned(info', entered', input)
    {
      var tokens := TokensOf(input);
      TokensScannedPersist(info, info', entered, entered', NamedRefs(doc, input.resources, "XObject"),
                           NamedRefs(doc, input.resources, "ExtGState"), input.init, tokens, |tokens|);
    }

    /** What scanning one page achieves: its content stream and its annotations. */
    predicate PageScanned(info: SizeTable, entered: set<ObjectId>, p: nat) {
      && (PageInput(p).Some? ==> StreamScanned(info, entered, PageInput(p).value))
      && (p < |doc.pages| && PageDict(p).Some? ==> AnnotationsScanned(doc, PageDict(p).value, entered))
    }

    lemma PageScannedPersists(info: SizeTable, info': SizeTable, entered: set<ObjectId>, entered': set<ObjectId>,
                              p: nat)
      requires PageScanned(info, entered, p)
      requires Extends(info, info') && entered <= entered'
      ensures PageScanned(info', entered', p)
    {
      if PageInput(p).Some? {
        StreamScannedPersists(info, info', entered, entered', PageInput(p).value);
      }
    }

    // -------------------------------------------------------------------------
    // The methods

    /** ContentScanner::new. */
    constructor (doc: Document, parse: NumberParser, sqrt: real -> real, inflate: Bytes -> Option<Bytes>)
      ensures Valid() && CacheOver(doc, map[], imageDims, doc.objects.Keys)
      ensures this.doc == doc && this.parse == parse && this.sqrt == sqrt && this.inflate == inflate
      ensures displayInfo == map[] && scannedForms == {} && enteredAt == map[] && active == {} && streams == {}
    {
      this.doc := doc;
      this.parse := parse;
      this.sqrt := sqrt;
      this.inflate := inflate;
      displayInfo := map[];
      imageDims := map[];
      scannedForms := {};
      enteredAt := map[];
      active := {};
      streams := {};
      new;
      CacheImageDimensions();
    }

    /** Inserts the pixel size of every image with positive dimensions. */
    method CacheImageDimensions()
      modifies this
      ensures CacheOver(doc, old(imageDims), imageDims, doc.objects.Keys)
      ensures displayInfo == old(displayInfo) && scannedForms == old(scannedForms)
      ensures enteredAt == old(enteredAt) && active == old(active) && streams == old(streams)
    {
      var todo := doc.objects.Keys;
      while todo != {}
        invariant todo <= doc.objects.Keys
        invariant CacheOver(doc, old(imageDims), imageDims, doc.objects.Keys - todo)
        invariant displayInfo == old(displayInfo) && scannedForms == old(scannedForms)
        invariant enteredAt == old(enteredAt) && active == old(active) && streams == old(streams)
        decreases |todo|
      {
        var id :| id in todo;
        CacheOverStep(doc, old(imageDims), imageDims, todo, id);
        var cached := CachedDims(doc.objects[id]);
        if cached.Some? {
          imageDims := imageDims[id := cached.value];
        }
        todo := todo - {id};
      }
    }

    /** scan_form_xobject, and scan_tiling_pattern, which has the same body: enter
        the stream once, combining its Matrix with the parent's, and scan its data
        with its own resources.  A stream entered for the first time is entered
        with parent and, once this returns, has been scanned. */
    method ScanFormXObject(formId: ObjectId, parent: Matrix)
      requires Valid() && EnteredFrom(formId, parent, streams)
      modifies this
      ensures Valid() && active == old(active)
      ensures SubMap(old(enteredAt), enteredAt) && Extends(old(displayInfo), displayInfo) && imageDims == old(imageDims)
      ensures old(scannedForms) <= scannedForms && old(streams) <= streams && formId in scannedForms
      ensures old(formId in scannedForms) ==> scannedForms == old(scannedForms) && displayInfo == old(displayInfo)
                                               && enteredAt == old(enteredAt)
      ensures !old(formId in scannedForms) ==> enteredAt[formId] == parent
      ensures (!old(formId in scannedForms) && FormInput(formId, parent).None?)
              ==> enteredAt == old(enteredAt)[formId := parent] && displayInfo == old(displayInfo)
      ensures (!old(formId in scannedForms) && FormInput(formId, parent).Some?)
              ==> StreamScanned(displayInfo, scannedForms, FormInput(formId, parent).value)
      decreases doc.objects.Keys - scannedForms, 1
    {
      if formId in scannedForms {
        return;
      }
      var obj := GetObject(doc, formId);
      if obj.Some? && obj.value.Stream? {
        ScanFormStream(formId, parent, obj.value.dict, obj.value.content);
      } else {
        EnterStream(formId, parent);
        LeaveStream(formId);
      }
    }

    /** The branch of scan_form_xobject for a stream not yet entered: mark it
        entered, then scan its decompressed data with its own resources under
        parent x its Matrix. */
    method ScanFormStream(formId: ObjectId, parent: Matrix, d: Dict, content: Bytes)
      requires Valid() && EnteredFrom(formId, parent, streams)
      requires formId !in scannedForms && GetObject(doc, formId) == Some(Stream(d, content))
      modifies this
      ensures Valid() && active == old(active)
      ensures SubMap(old(enteredAt), enteredAt) && Extends(old(displayInfo), displayInfo) && imageDims == old(imageDims)
      ensures old(scannedForms) <= scannedForms && old(streams) <= streams
      ensures formId in scannedForms && enteredAt[formId] == parent
      ensures StreamScanned(displayInfo, scannedForms, FormInput(formId, parent).value)
      decreases doc.objects.Keys - scannedForms, 0
    {
      var combined := Concat(parent, ParseMatrixFromDict(d));
      var resources := d.Get("Resources").GetOr(Null);
      var data := DecompressStream(inflate, d, content);
      assert FormInput(formId, parent) == Some(ScanInput(data, resources, combined));
      EnterStream(formId, parent);
      FormOrigin(formId, enteredAt);
      ghost var at := enteredAt;
      ScanContentStream(data, resources, combined);
      SubMapTransitive(old(enteredAt), at, enteredAt);
      LeaveStream(formId);
    }

    /** Marks f entered with parent matrix parent and begins its scan. */
    method EnterStream(f: ObjectId, parent: Matrix)
      requires Valid() && EnteredFrom(f, parent, streams) && f !in scannedForms
      modifies this
      ensures Valid() && scannedForms == old(scannedForms) + {f} && enteredAt == old(enteredAt)[f := parent]
      ensures active == old(active) + {f} && displayInfo == old(displayInfo) && imageDims == old(imageDims)
      ensures streams == old(streams)
    {
      ConsistentAfterEntering(displayInfo, scannedForms, enteredAt, active, streams, f, parent);
      scannedForms := scannedForms + {f};
      enteredAt := enteredAt[f := parent];
      active := active + {f};
    }

    /** Ends the scan of the entered stream f, which has been scanned. */
    method LeaveStream(f: ObjectId)
      requires Valid() && f in enteredAt && FormDone(displayInfo, enteredAt, f)
      modifies this
      ensures Valid() && active == old(active) - {f}
      ensures scannedForms == old(scannedForms) && enteredAt == old(enteredAt) && displayInfo == old(displayInfo)
      ensures imageDims == old(imageDims) && streams == old(streams)
    {
      ConsistentAfterLeaving(displayInfo, scannedForms, enteredAt, active, streams, f);
      active := active - {f};
    }

    /** display_info.entry(id).or_default().push(size), for a draw the source makes. */
    method RecordDraw(id: ObjectId, size: DisplaySize, ghost input: ScanInput, ghost k: nat)
      requires Valid() && input in streams && InputDraws(input, id, size, k)
      modifies this
      ensures Valid() && displayInfo == Appended(old(displayInfo), id, size)
      ensures scannedForms == old(scannedForms) && imageDims == old(imageDims) && enteredAt == old(enteredAt)
      ensures active == old(active) && streams == old(streams)
    {
      ConsistentAfterRecording(displayInfo, scannedForms, enteredAt, active, streams, id, size, input, k);
      displayInfo := Appended(displayInfo, id, size);
    }

    /** The Do branch of scan_content_stream: an image records the current display
        size when both sides are positive; a form is entered with the current
        matrix. */
    method ScanXObject(objId: ObjectId, current: Matrix, ghost input: ScanInput, ghost k: nat)
      requires Valid() && input in streams && DoAt(input, objId, current, k)
      modifies this
      ensures Valid() && active == old(active)
      ensures SubMap(old(enteredAt), enteredAt) && Extends(old(displayInfo), displayInfo) && imageDims == old(imageDims)
      ensures old(scannedForms) <= scannedForms && old(streams) <= streams
      ensures (IsImageId(doc, objId) && Shown(DrawSize(sqrt, current)))
              ==> displayInfo == Appended(old(displayInfo), objId, DrawSize(sqrt, current))
                  && enteredAt == old(enteredAt)
      ensures DrawDone(displayInfo, scannedForms, objId, DrawSize(sqrt, current))
      ensures IsFormId(doc, objId) && objId !in old(scannedForms) ==> enteredAt[objId] == current
      ensures (!IsFormId(doc, objId) && !(IsImageId(doc, objId) && Shown(DrawSize(sqrt, current))))
              ==> displayInfo == old(displayInfo) && enteredAt == old(enteredAt)
      decreases doc.objects.Keys - scannedForms, 2
    {
      var obj := GetObject(doc, objId);
      if obj.Some? && obj.value.Stream? {
        var subtype := SubtypeOf(obj.value.dict);
        if subtype == Some("Image") {
          var size := DrawSize(sqrt, current);
          if size.width > 0.0 && size.height > 0.0 {
            RecordDraw(objId, size, input, k);
          }
        } else if subtype == Some("Form") {
          EnteredBy(objId, current, streams, input, k);
          ScanFormXObject(objId, current);
        }
      }
    }

    /** The loop over the resources' tiling patterns that opens scan_content_stream:
        each is entered with the stream's initial matrix. */
    method ScanTilingPatterns(patterns: seq<ObjectId>, init: Matrix, ghost input: ScanInput)
      requires Valid() && input in streams
      requires patterns == PatternIds(doc, input.resources) && init == input.init
      modifies this
      ensures Valid() && active == old(active)
      ensures SubMap(old(enteredAt), enteredAt) && Extends(old(displayInfo), displayInfo) && imageDims == old(imageDims)
      ensures old(scannedForms) <= scannedForms && old(streams) <= streams
      ensures AllIn(patterns, scannedForms)
      decreases doc.objects.Keys - scannedForms, 2
    {
      for p := 0 to |patterns|
        invariant Valid() && active == old(active)
        invariant SubMap(old(enteredAt), enteredAt) && Extends(old(displayInfo), displayInfo) && imageDims == old(imageDims)
        invariant old(scannedForms) <= scannedForms && old(streams) <= streams
        invariant AllIn(patterns[..p], scannedForms)
      {
        ghost var info := displayInfo;
        ghost var entered := scannedForms;
        EnteredBy(patterns[p], init, streams, input, 0);
        ScanFormXObject(patterns[p], init);
        ExtendsTransitive(old(displayInfo), info, displayInfo);
        AllInStep(patterns, p, entered, scannedForms);
      }
      assert patterns[..|patterns|] == patterns;
    }

    /** scan_content_stream: first every tiling pattern of the resources, then the
        tokens of the data, keeping the matrix stack.  The stream is one the source
        reads. */
    method ScanContentStream(content: Bytes, resources: Object, init: Matrix)
      requires Valid() && Origin(ScanInput(content, resources, init), enteredAt)
      modifies this
      ensures Valid() && active == old(active)
      ensures SubMap(old(enteredAt), enteredAt) && Extends(old(displayInfo), displayInfo) && imageDims == old(imageDims)
      ensures old(scannedForms) <= scannedForms && old(streams) <= streams
      ensures ScanInput(content, resources, init) in streams
      ensures StreamScanned(displayInfo, scannedForms, ScanInput(content, resources, init))
      decreases doc.objects.Keys - scannedForms, 5
    {
      ghost var input := ScanInput(content, resources, init);
      ConsistentAfterReaching(displayInfo, scannedForms, enteredAt, active, streams, input);
      streams := streams + {input};
      var xobjects := XObjects(doc, resources);
      var extgstates := ExtGStates(doc, resources);
      var patterns := PatternForms(doc, resources);
      ScanTilingPatterns(patterns, init, input);
      ghost var info := displayInfo;
      ghost var at := enteredAt;

      var tokens := ContentTokens.Tokenize(ContentTokens.DecodeText(content));
      ScanTokens(tokens, xobjects, extgstates, init, input);
      ExtendsTransitive(old(displayInfo), info, displayInfo);
      AllInGrows(patterns, at.Keys, scannedForms);
    }

    /** The gs and Do branches of the token loop of scan_content_stream, for the
        operator at token i under the current matrix: gs enters the soft-mask group
        of the named graphics state, Do handles the named XObject; a form or group
        entered for the first time is entered with the current matrix. */
    method ScanOperator(tokens: seq<string>, i: nat, xobjects: map<string, ObjectId>,
                        extgstates: map<string, ObjectId>, current: Matrix, ghost input: ScanInput)
      requires Valid() && input in streams
      requires tokens == TokensOf(input) && i < |tokens|
      requires xobjects == NamedRefs(doc, input.resources, "XObject")
      requires extgstates == NamedRefs(doc, input.resources, "ExtGState")
      requires current == Top(StackAfter(parse, input.init, tokens, i))
      modifies this
      ensures Valid() && active == old(active)
      ensures SubMap(old(enteredAt), enteredAt) && Extends(old(displayInfo), displayInfo) && imageDims == old(imageDims)
      ensures old(scannedForms) <= scannedForms && old(streams) <= streams
      ensures OperatorScanned(displayInfo, scannedForms, xobjects, extgstates, tokens, i, current)
      ensures XObjectAt(xobjects, tokens, i).Some? && IsFormId(doc, XObjectAt(xobjects, tokens, i).value)
              && XObjectAt(xobjects, tokens, i).value !in old(scannedForms)
              ==> enteredAt[XObjectAt(xobjects, tokens, i).value] == current
      ensures MaskAt(doc, extgstates, tokens, i).Some? && MaskAt(doc, extgstates, tokens, i).value !in old(scannedForms)
              ==> enteredAt[MaskAt(doc, extgstates, tokens, i).value] == current
      decreases doc.objects.Keys - scannedForms, 3
    {
      var token := tokens[i];
      if token == "gs" && i >= 1 {
        var name := TrimSlashes(tokens[i - 1]);
        if name in extgstates {
          var form := SmaskForm(doc, extgstates[name]);
          if form.Some? {
            EnteredBy(form.value, current, streams, input, i);
            ScanFormXObject(form.value, current);
          }
        }
      } else if token == "Do" && i >= 1 {
        var name := TrimSlashes(tokens[i - 1]);
        if name in xobjects {
          ScanXObject(xobjects[name], current, input, i);
        }
      }
      OperatorAtScanned(displayInfo, scannedForms, xobjects, extgstates, tokens, i, current);
    }

    /** The token loop of scan_content_stream, over the tokens of the stream's text,
        with the stream's XObject and ExtGState names: q, Q and cm update the matrix
        stack, gs and Do are handled under the matrix on top of it. */
    method ScanTokens(tokens: seq<string>, xobjects: map<string, ObjectId>, extgstates: map<string, ObjectId>,
                      init: Matrix, ghost input: ScanInput)
      requires Valid() && input in streams
      requires tokens == TokensOf(input) && init == input.init
      requires xobjects == NamedRefs(doc, input.resources, "XObject")
      requires extgstates == NamedRefs(doc, input.resources, "ExtGState")
      modifies this
      ensures Valid() && active == old(active)
      ensures SubMap(old(enteredAt), enteredAt) && Extends(old(displayInfo), displayInfo) && imageDims == old(imageDims)
      ensures old(scannedForms) <= scannedForms && old(streams) <= streams
      ensures TokensScanned(displayInfo, scannedForms, xobjects, extgstates, init, tokens, |tokens|)
      decreases doc.objects.Keys - scannedForms, 4
    {
      var stack := [init];
      var i := 0;
      while i < |tokens|
        invariant 0 <= i <= |tokens|
        invariant stack == StackAfter(parse, init, tokens, i)
        invariant Valid() && active == old(active)
        invariant SubMap(old(enteredAt), enteredAt) && Extends(old(displayInfo), displayInfo) && imageDims == old(imageDims)
        invariant old(scannedForms) <= scannedForms && old(streams) <= streams
        invariant TokensScanned(displayInfo, scannedForms, xobjects, extgstates, init, tokens, i)
        decreases |tokens| - i
      {
        ghost var info := displayInfo;
        ghost var entered := scannedForms;
        ScanOperator(tokens, i, xobjects, extgstates, Top(stack), input);
        ExtendsTransitive(old(displayInfo), info, displayInfo);
        TokensScannedPersist(info, displayInfo, entered, scannedForms, xobjects, extgstates, init, tokens, i);
        stack := TokenEffect(parse, stack, tokens, i);
        i := i + 1;
      }
    }

    /** scan_appearance_entry: every stream the entry names is entered with the
        identity matrix. */
    method ScanAppearanceEntry(appearance: Object, ghost p: nat, ghost a: ObjectId, ghost j: nat)
      requires Valid() && AppearanceEntryOf(appearance, p, a, j)
      modifies this
      ensures Valid() && active == old(active)
      ensures SubMap(old(enteredAt), enteredAt) && Extends(old(displayInfo), displayInfo) && imageDims == old(imageDims)
      ensures old(scannedForms) <= scannedForms && old(streams) <= streams
      ensures AllIn(AppearanceTargets(doc, appearance), scannedForms)
      decreases doc.objects.Keys - scannedForms, 6
    {
      var ids := AppearanceIds(doc, appearance);
      for k := 0 to |ids|
        invariant Valid() && active == old(active)
        invariant SubMap(old(enteredAt), enteredAt) && Extends(old(displayInfo), displayInfo) && imageDims == old(imageDims)
        invariant old(scannedForms) <= scannedForms && old(streams) <= streams
        invariant AllIn(ids[..k], scannedForms)
      {
        ghost var info := displayInfo;
        ghost var entered := scannedForms;
        assert AppearanceOf(ids[k], p, a, j);
        EnteredAsAppearance(ids[k], streams, p, a, j);
        ScanFormXObject(ids[k], Identity());
        ExtendsTransitive(old(displayInfo), info, displayInfo);
        AllInStep(ids, k, entered, scannedForms);
      }
      assert ids[..|ids|] == ids;
    }

    /** scan_annotation: the N, R and D appearances of an annotation dictionary. */
    method ScanAnnotation(annotId: ObjectId, ghost p: nat)
      requires Valid() && AnnotationOf(annotId, p)
      modifies this
      ensures Valid() && active == old(active)
      ensures SubMap(old(enteredAt), enteredAt) && Extends(old(displayInfo), displayInfo) && imageDims == old(imageDims)
      ensures old(scannedForms) <= scannedForms && old(streams) <= streams
      ensures AnnotationScanned(doc, annotId, scannedForms)
      decreases doc.objects.Keys - scannedForms, 7
    {
      var ap := ApDict(doc, annotId);
      if ap.None? {
        return;
      }
      var apDict := ap.value;
      for j := 0 to |APPEARANCE_KEYS|
        invariant Valid() && active == old(active)
        invariant SubMap(old(enteredAt), enteredAt) && Extends(old(displayInfo), displayInfo) && imageDims == old(imageDims)
        invariant old(scannedForms) <= scannedForms && old(streams) <= streams
        invariant KeysScanned(doc, apDict, j, scannedForms)
      {
        var appearance := apDict.Get(APPEARANCE_KEYS[j]);
        ghost var info := displayInfo;
        ghost var entered := scannedForms;
        if appearance.Some? {
          ScanAppearanceEntry(appearance.value, p, annotId, j);
        }
        ExtendsTransitive(old(displayInfo), info, displayInfo);
        KeysScannedStep(doc, apDict, j, entered, scannedForms);
      }
    }

    /** scan_page_annotations: every annotation the Annots array of page p refers to. */
    method ScanPageAnnotations(page: Dict, ghost p: nat)
      requires Valid() && p < |doc.pages| && GetObject(doc, doc.pages[p]) == Some(Dictionary(page))
      modifies this
      ensures Valid() && active == old(active)
      ensures SubMap(old(enteredAt), enteredAt) && Extends(old(displayInfo), displayInfo) && imageDims == old(imageDims)
      ensures old(scannedForms) <= scannedForms && old(streams) <= streams
      ensures AnnotationsScanned(doc, page, scannedForms)
      decreases doc.objects.Keys - scannedForms, 8
    {
      var annots := page.Get("Annots");
      if annots.None? {
        return;
      }
      var resolved := Resolve(doc, annots.value);
      if !(resolved.Some? && resolved.value.Array?) {
        return;
      }
      var items := resolved.value.items;
      for k := 0 to |items|
        invariant Valid() && active == old(active)
        invariant SubMap(old(enteredAt), enteredAt) && Extends(old(displayInfo), displayInfo) && imageDims == old(imageDims)
        invariant old(scannedForms) <= scannedForms && old(streams) <= streams
        invariant forall a :: Reference(a) in items[..k] ==> AnnotationScanned(doc, a, scannedForms)
      {
        assert items[..k + 1] == items[..k] + [items[k]];
        if items[k].Reference? {
          ghost var info := displayInfo;
          assert items[k] in items;
          ScanAnnotation(items[k].id, p);
          ExtendsTransitive(old(displayInfo), info, displayInfo);
        }
      }
      assert items[..|items|] == items;
    }

    /** The body of scan_all_pages for page p: its content stream, when it has
        one, with the page's resources and the identity matrix, then its
        annotations; a page that is not a dictionary is skipped. */
    method ScanPage(pageId: ObjectId, ghost p: nat)
      requires Valid() && p < |doc.pages| && doc.pages[p] == pageId
      modifies this
      ensures Valid() && active == old(active)
      ensures SubMap(old(enteredAt), enteredAt) && Extends(old(displayInfo), displayInfo) && imageDims == old(imageDims)
      ensures old(scannedForms) <= scannedForms && old(streams) <= streams
      ensures PageScanned(displayInfo, scannedForms, p)
      decreases doc.objects.Keys - scannedForms, 9
    {
      var obj := GetObject(doc, pageId);
      if obj.Some? && obj.value.Dictionary? {
        var page := obj.value.dict;
        var resources := PageResources(doc, page);
        var contents := page.Get("Contents");
        ghost var info1 := displayInfo;
        ghost var entered1 := scannedForms;
        if contents.Some? {
          var data := ContentData(inflate, doc, contents.value, |doc.objects|);
          assert PageInput(p) == Some(ScanInput(data, resources, Identity()));
          PageOrigin(p, enteredAt);
          ScanContentStream(data, resources, Identity());
          info1 := displayInfo;
          entered1 := scannedForms;
        }
        ScanPageAnnotations(page, p);
        ExtendsTransitive(old(displayInfo), info1, displayInfo);
        if contents.Some? {
          StreamScannedPersists(info1, displayInfo, entered1, scannedForms, PageInput(p).value);
        }
      }
    }

    /** The first n pages of the document are scanned. */
    predicate PagesScanned(info: SizeTable, entered: set<ObjectId>, n: nat)
      decreases n
    {
      n == 0 || (PagesScanned(info, entered, n - 1) && PageScanned(info, entered, n - 1))
    }

    lemma {:induction false} PagesScannedPersist(info: SizeTable, info': SizeTable, entered: set<ObjectId>,
                                                 entered': set<ObjectId>, n: nat)
      requires PagesScanned(info, entered, n)
      requires Extends(info, info') && entered <= entered'
      ensures PagesScanned(info', entered', n)
    {
      if n > 0 {
        PagesScannedPersist(info, info', entered, entered', n - 1);
        PageScannedPersists(info, info', entered, entered', n - 1);
      }
    }

    /** Every page among the first n is scanned. */
    lemma {:induction false} PagesScannedEach(info: SizeTable, entered: set<ObjectId>, n: nat, q: nat)
      requires PagesScanned(info, entered, n)
      requires q < n
      ensures PageScanned(info, entered, q)
    {
      if q < n - 1 {
        PagesScannedEach(info, entered, n - 1, q);
      }
    }

    /** scan_all_pages: every page in page order.  Afterwards every page's content
        and annotations are scanned, every stream entered from them, at any depth,
        has been scanned with its entry matrix, and everything read, entered or
        recorded is something a page, or a stream entered from one, reads, enters
        or draws. */
    method ScanAllPages()
      requires Valid() && active == {}
      modifies this
      ensures Valid() && active == {}
      ensures SubMap(old(enteredAt), enteredAt) && Extends(old(displayInfo), displayInfo) && imageDims == old(imageDims)
      ensures old(scannedForms) <= scannedForms && old(streams) <= streams
      ensures PagesScanned(displayInfo, scannedForms, |doc.pages|)
      ensures FormsDone(displayInfo, enteredAt, {}) && Sound(displayInfo, enteredAt, streams)
      decreases doc.objects.Keys - scannedForms, 10
    {
      for n := 0 to |doc.pages|
        invariant Valid() && active == {}
        invariant SubMap(old(enteredAt), enteredAt) && Extends(old(displayInfo), displayInfo) && imageDims == old(imageDims)
        invariant old(scannedForms) <= scannedForms && old(streams) <= streams
        invariant PagesScanned(displayInfo, scannedForms, n)
      {
        ghost var info0 := displayInfo;
        ghost var entered0 := scannedForms;
        ScanPage(doc.pages[n], n);
        ExtendsTransitive(old(displayInfo), info0, displayInfo);
        PagesScannedPersist(info0, displayInfo, entered0, scannedForms, n);
      }
    }


    /** get_display_info_map: for every image with recorded sizes and a cached pixel
        size, the pixel size and the largest recorded display size. */
    method GetDisplayInfoMap() returns (m: map<ObjectId, ImageDisplayInfo>)
      ensures m == BestDisplayInfo(displayInfo, imageDims)
    {
      m := map[];
      var todo := displayInfo.Keys;
      while todo != {}
        invariant todo <= displayInfo.Keys
        invariant m == BestOn(displayInfo, imageDims, displayInfo.Keys - todo)
        decreases |todo|
      {
        var id :| id in todo;
        ghost var done := displayInfo.Keys - todo;
        assert displayInfo.Keys - (todo - {id}) == done + {id};
        if id in imageDims {
          var pixels := imageDims[id];
          var best := MaxByArea(displayInfo[id]).GetOr(DisplaySize(pixels.width as real, pixels.height as real));
          m := m[id := ImageDisplayInfo(pixels.width, pixels.height, best.width, best.height)];
        }
        BestOnStep(displayInfo, imageDims, done, id);
        todo := todo - {id};
      }
      assert displayInfo.Keys - todo == displayInfo.Keys;
    }
  }

  // ---------------------------------------------------------------------------
  // The best display size of each image

  /** The size an image is taken to be shown at: the largest recorded area, or its
      own pixel size read as points when nothing was recorded. */
  function BestFor(sizes: seq<DisplaySize>, pixels: Pixels): ImageDisplayInfo {
    var best := MaxByArea(sizes).GetOr(DisplaySize(pixels.width as real, pixels.height as real));
    ImageDisplayInfo(pixels.width, pixels.height, best.width, best.height)
  }

  function BestOn(info: SizeTable, dims: map<ObjectId, Pixels>, ids: set<ObjectId>): map<ObjectId, ImageDisplayInfo> {
    map id | id in ids && id in info && id in dims :: BestFor(info[id], dims[id])
  }

  lemma BestOnStep(info: SizeTable, dims: map<ObjectId, Pixels>, done: set<ObjectId>, id: ObjectId)
    requires id in info
    ensures BestOn(info, dims, done + {id})
            == if id in dims then BestOn(info, dims, done)[id := BestFor(info[id], dims[id])]
               else BestOn(info, dims, done)
  {
  }

  function BestDisplayInfo(info: SizeTable, dims: map<ObjectId, Pixels>): map<ObjectId, ImageDisplayInfo> {
    BestOn(info, dims, info.Keys)
  }

  /** An image gets an entry exactly when it was drawn and its pixel size is known;
      the entry keeps the pixel size and takes a recorded size with the largest area,
      the last such one in drawing order. */
  lemma BestDisplayInfoMeaning(info: SizeTable, dims: map<ObjectId, Pixels>, id: ObjectId)
    ensures id in BestDisplayInfo(info, dims) <==> id in info && id in dims
    ensures id in info && id in dims && |info[id]| > 0 ==>
              var r := BestDisplayInfo(info, dims)[id];
              var chosen := DisplaySize(r.displayWidthPoints, r.displayHeightPoints);
              && r.pixelWidth == dims[id].width && r.pixelHeight == dims[id].height
              && (forall i :: 0 <= i < |info[id]| ==> Area(info[id][i]) <= Area(chosen))
              && exists k :: 0 <= k < |info[id]| && info[id][k] == chosen
                             && forall j :: k < j < |info[id]| ==> Area(info[id][j]) < Area(chosen)
  {
    if id in info && id in dims && |info[id]| > 0 {
      var best := MaxByArea(info[id]);
      assert DisplaySize(best.value.width, best.value.height) == best.value;
    }
  }
}
