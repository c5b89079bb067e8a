/** Reading a resource dictionary, a page's resources, a stream's data and the
    appearance entries of an annotation: the lookups the scanner does before and
    between content streams.  lopdf's get_object is a single look-up in the
    object table. */
module Resources {
  import opened Wrappers
  import opened PdfObject
  import opened Matrix

  // ---------------------------------------------------------------------------
  // Name -> object maps (get_xobjects_from_resources, get_extgstates_from_resources)

  /** The HashMap built by inserting, entry by entry, each key whose value is a
      reference; a later insert of a key replaces an earlier one. */
  function RefMap(es: seq<Entry>): map<string, ObjectId>
    decreases |es|
  {
    if es == [] then map[]
    else
      var e := es[|es| - 1];
      var m := RefMap(es[..|es| - 1]);
      if e.value.Reference? then m[e.key := e.value.id] else m
  }

  /** A name is in the map exactly when some entry gives it a reference, and it maps
      to the last such reference. */
  lemma {:induction false} RefMapMeaning(es: seq<Entry>, key: string)
    ensures key in RefMap(es) <==> exists j :: 0 <= j < |es| && IsRefEntry(es[j], key)
    ensures key in RefMap(es) ==>
              exists j :: 0 <= j < |es| && es[j] == Entry(key, Reference(RefMap(es)[key]))
                          && forall i :: j < i < |es| ==> !IsRefEntry(es[i], key)
    decreases |es|
  {
    if es != [] {
      var init := es[..|es| - 1];
      var e := es[|es| - 1];
      RefMapMeaning(init, key);
      assert forall i :: 0 <= i < |init| ==> es[i] == init[i];
      if IsRefEntry(e, key) {
        assert es[|es| - 1] == Entry(key, Reference(RefMap(es)[key]));
      } else if key in RefMap(es) {
        assert key in RefMap(init) && RefMap(es)[key] == RefMap(init)[key];
        var j :| 0 <= j < |init| && init[j] == Entry(key, Reference(RefMap(init)[key]))
                 && forall i :: j < i < |init| ==> !IsRefEntry(init[i], key);
        assert es[j] == Entry(key, Reference(RefMap(es)[key]));
      }
    }
  }

  predicate IsRefEntry(e: Entry, key: string) {
    e.key == key && e.value.Reference?
  }

  /** In a dictionary whose keys are distinct, as lopdf's are, a name is in the map
      exactly when its entry is a reference, and maps to that reference. */
  lemma RefMapOfDict(d: Dict, key: string)
    requires UniqueKeys(d)
    ensures key in RefMap(d.entries) <==> d.Get(key).Some? && d.Get(key).value.Reference?
    ensures key in RefMap(d.entries) ==> d.Get(key) == Some(Reference(RefMap(d.entries)[key]))
  {
    var m := RefMap(d.entries);
    RefMapMeaning(d.entries, key);
    GetMeaning(d, key);
    if key in m {
      var j :| 0 <= j < |d.entries| && d.entries[j] == Entry(key, Reference(m[key]));
      GetOfUniqueKey(d, key, j);
    } else if d.Get(key).Some? {
      var j :| 0 <= j < |d.entries| && d.entries[j] == Entry(key, d.Get(key).value);
      assert !IsRefEntry(d.entries[j], key);
    }
  }

  /** The loop that fills the map, entry by entry. */
  method CollectReferences(d: Dict) returns (m: map<string, ObjectId>)
    ensures m == RefMap(d.entries)
  {
    m := map[];
    for k := 0 to |d.entries|
      invariant m == RefMap(d.entries[..k])
    {
      var e := d.entries[k];
      assert d.entries[..k + 1][..k] == d.entries[..k];
      if e.value.Reference? {
        m := m[e.key := e.value.id];
      }
    }
    assert d.entries[..|d.entries|] == d.entries;
  }

  /** The dictionary under `key` in a resource dictionary, following at most one
      reference at each level. */
  function SubDict(doc: Document, resources: Object, key: string): Option<Dict> {
    match ResolveDict(doc, resources)
    case Some(res) =>
      (match res.Get(key)
       case Some(sub) => ResolveDict(doc, sub)
       case None => None)
    case None => None
  }

  function NamedRefs(doc: Document, resources: Object, key: string): map<string, ObjectId> {
    match SubDict(doc, resources, key)
    case Some(d) => RefMap(d.entries)
    case None => map[]
  }

  /** get_xobjects_from_resources; get_xobjects_static reads the same way. */
  method XObjects(doc: Document, resources: Object) returns (m: map<string, ObjectId>)
    ensures m == NamedRefs(doc, resources, "XObject")
  {
    m := map[];
    var sub := SubDict(doc, resources, "XObject");
    if sub.Some? {
      m := CollectReferences(sub.value);
    }
  }

  /** get_extgstates_from_resources. */
  method ExtGStates(doc: Document, resources: Object) returns (m: map<string, ObjectId>)
    ensures m == NamedRefs(doc, resources, "ExtGState")
  {
    m := map[];
    var sub := SubDict(doc, resources, "ExtGState");
    if sub.Some? {
      m := CollectReferences(sub.value);
    }
  }

  /** A name refers to an object through a resource dictionary given inline, with
      its sub-dictionary inline: the map has exactly the reference entries. */
  lemma NamedRefsInline(doc: Document, sub: Dict, key: string, name: string)
    requires UniqueKeys(sub)
    ensures var res := Dictionary(Dict([Entry(key, Dictionary(sub))]));
            && (name in NamedRefs(doc, res, key) <==> sub.Get(name).Some? && sub.Get(name).value.Reference?)
            && (name in NamedRefs(doc, res, key) ==> sub.Get(name) == Some(Reference(NamedRefs(doc, res, key)[name])))
  {
    var res := Dictionary(Dict([Entry(key, Dictionary(sub))]));
    assert SubDict(doc, res, key) == Some(sub);
    RefMapOfDict(sub, name);
  }

  // ---------------------------------------------------------------------------
  // get_smask_form_from_extgstate

  /** The Form XObject of an ExtGState's soft mask: the /G reference of its /SMask
      dictionary, given inline or by reference; None for /None or anything else. */
  function SmaskForm(doc: Document, gsId: ObjectId): (r: Option<ObjectId>)
    ensures r.Some? ==> exists mask :: MaskDict(doc, gsId) == Some(mask) && mask.Get("G") == Some(Reference(r.value))
  {
    var mask := MaskDict(doc, gsId);
    if mask.Some? && mask.value.Get("G").Some? && mask.value.Get("G").value.Reference? then
      Some(mask.value.Get("G").value.id)
    else None
  }

  function MaskDict(doc: Document, gsId: ObjectId): Option<Dict> {
    var gs := GetObject(doc, gsId);
    if gs.Some? && gs.value.Dictionary? then
      var smask := gs.value.dict.Get("SMask");
      if smask.Some? && smask.value.Dictionary? then Some(smask.value.dict)
      else if smask.Some? && smask.value.Reference? then
        var target := GetObject(doc, smask.value.id);
        if target.Some? && target.value.Dictionary? then Some(target.value.dict) else None
      else None
    else None
  }

  /** An ExtGState whose soft mask names a group: both spellings lead to the group;
      a soft mask of /None leads nowhere. */
  lemma SmaskFormShapes(doc: Document, gsId: ObjectId, maskId: ObjectId, form: ObjectId)
    requires gsId in doc.objects && doc.objects[gsId].Dictionary?
    requires UniqueKeys(doc.objects[gsId].dict)
    ensures var gs := doc.objects[gsId].dict;
            var mask := Dict([Entry("S", Name("Luminosity")), Entry("G", Reference(form))]);
            && (gs.Get("SMask") == Some(Dictionary(mask)) ==> SmaskForm(doc, gsId) == Some(form))
            && ((gs.Get("SMask") == Some(Reference(maskId)) && GetObject(doc, maskId) == Some(Dictionary(mask)))
                  ==> SmaskForm(doc, gsId) == Some(form))
            && (gs.Get("SMask") == Some(Name("None")) ==> SmaskForm(doc, gsId) == None)
  {
    var mask := Dict([Entry("S", Name("Luminosity")), Entry("G", Reference(form))]);
    assert mask.Get("G") == Some(Reference(form)) by {
      assert mask.entries[0].key != "G";
      assert mask.entries[1..] == [Entry("G", Reference(form))];
      assert FindEntry(mask.entries[1..], "G") == Some(Reference(form));
    }
  }

  // ---------------------------------------------------------------------------
  // get_pattern_forms_from_resources

  predicate IsTilingPattern(doc: Document, id: ObjectId) {
    id in doc.objects && doc.objects[id].Stream?
    && doc.objects[id].dict.Get("PatternType") == Some(Integer(1))
  }

  /** The referenced tiling patterns (PatternType 1 streams), in entry order. */
  function TilingPatterns(doc: Document, es: seq<Entry>): (r: seq<ObjectId>)
    ensures forall i :: 0 <= i < |r| ==> IsTilingPattern(doc, r[i])
    ensures forall j :: 0 <= j < |es| && es[j].value.Reference? && IsTilingPattern(doc, es[j].value.id)
              ==> es[j].value.id in r
    ensures forall id :: id in r ==> exists j :: 0 <= j < |es| && es[j].value == Reference(id)
    decreases |es|
  {
    if es == [] then []
    else
      var init := es[..|es| - 1];
      var v := es[|es| - 1].value;
      assert forall i :: 0 <= i < |init| ==> es[i] == init[i];
      TilingPatterns(doc, init) + (if v.Reference? && IsTilingPattern(doc, v.id) then [v.id] else [])
  }

  function PatternIds(doc: Document, resources: Object): seq<ObjectId> {
    match SubDict(doc, resources, "Pattern")
    case Some(d) => TilingPatterns(doc, d.entries)
    case None => []
  }

  method PatternForms(doc: Document, resources: Object) returns (ids: seq<ObjectId>)
    ensures ids == PatternIds(doc, resources)
  {
    ids := [];
    var sub := SubDict(doc, resources, "Pattern");
    if sub.Some? {
      var es := sub.value.entries;
      for k := 0 to |es|
        invariant ids == TilingPatterns(doc, es[..k])
      {
        TilingPatternsStep(doc, es, k);
        var v := es[k].value;
        if v.Reference? && IsTilingPattern(doc, v.id) {
          ids := ids + [v.id];
        }
      }
      assert es[..|es|] == es;
    }
  }

  lemma TilingPatternsStep(doc: Document, es: seq<Entry>, k: nat)
    requires k < |es|
    ensures var v := es[k].value;
            TilingPatterns(doc, es[..k + 1])
            == TilingPatterns(doc, es[..k]) + (if v.Reference? && IsTilingPattern(doc, v.id) then [v.id] else [])
  {
    assert es[..k + 1][..k] == es[..k];
  }

  // ---------------------------------------------------------------------------
  // parse_matrix_from_dict

  function Number(o: Object): Option<real> {
    match o
    case Integer(n) => Some(n as real)
    case Real(x) => Some(x)
    case _ => None
  }

  /** The /Matrix entry when it is an array of at least six numbers, else identity. */
  function ParseMatrixFromDict(d: Dict): Matrix {
    match d.Get("Matrix")
    case Some(Array(items)) =>
      if |items| >= 6 && Number(items[0]).Some? && Number(items[1]).Some? && Number(items[2]).Some?
         && Number(items[3]).Some? && Number(items[4]).Some? && Number(items[5]).Some?
      then Matrix(Number(items[0]).value, Number(items[1]).value, Number(items[2]).value,
                  Number(items[3]).value, Number(items[4]).value, Number(items[5]).value)
      else Identity()
    case _ => Identity()
  }

  /** A matrix written as an array of six reals. */
  function MatrixObject(m: Matrix): Object {
    Array([Real(m.a), Real(m.b), Real(m.c), Real(m.d), Real(m.e), Real(m.f)])
  }

  /** Writing a matrix into /Matrix and parsing it back gives the matrix, whatever
      follows the six numbers. */
  lemma ParseMatrixRoundTrip(d: Dict, m: Matrix, extra: seq<Object>)
    requires d.Get("Matrix") == Some(Array(MatrixObject(m).items + extra))
    ensures ParseMatrixFromDict(d) == m
  {
  }

  /** Fewer than six entries, a non-number among the first six, or no array at all
      give the identity. */
  lemma ParseMatrixFallsBack(d: Dict)
    requires match d.Get("Matrix")
             case Some(Array(items)) => |items| < 6 || exists i :: 0 <= i < 6 && Number(items[i]).None?
             case _ => true
    ensures ParseMatrixFromDict(d) == Identity()
  {
    match d.Get("Matrix")
    case Some(Array(items)) =>
      if |items| >= 6 {
        var i :| 0 <= i < 6 && Number(items[i]).None?;
        assert i == 0 || i == 1 || i == 2 || i == 3 || i == 4 || i == 5;
      }
    case _ =>
  }

  // ---------------------------------------------------------------------------
  // get_page_resources and get_page_resources_static

  function ParentResources(doc: Document, page: Dict): Option<Object> {
    match page.Get("Parent")
    case Some(Reference(parent)) =>
      (match GetObject(doc, parent)
       case Some(Dictionary(pd)) => pd.Get("Resources")
       case _ => None)
    case _ => None
  }

  /** The Resources of the catalog's /Pages node. */
  function CatalogResources(doc: Document): Option<Object> {
    match doc.root
    case Some(rootId) =>
      (match GetObject(doc, rootId)
       case Some(Dictionary(catalog)) =>
         (match catalog.Get("Pages")
          case Some(Reference(pagesId)) =>
            (match GetObject(doc, pagesId)
             case Some(Dictionary(pages)) => pages.Get("Resources")
             case _ => None)
          case _ => None)
       case _ => None)
    case None => None
  }

  /** The page's own Resources, else its Parent's, else the catalog's Pages node's,
      else Null. */
  function PageResources(doc: Document, page: Dict): (r: Object)
    ensures page.Get("Resources").Some? ==> r == page.Get("Resources").value
    ensures (page.Get("Resources").None? && ParentResources(doc, page).Some?)
              ==> r == ParentResources(doc, page).value
    ensures (page.Get("Resources").None? && ParentResources(doc, page).None? && CatalogResources(doc).Some?)
              ==> r == CatalogResources(doc).value
    ensures (page.Get("Resources").None? && ParentResources(doc, page).None? && CatalogResources(doc).None?)
              ==> r == Null
  {
    if page.Get("Resources").Some? then page.Get("Resources").value
    else if ParentResources(doc, page).Some? then ParentResources(doc, page).value
    else if CatalogResources(doc).Some? then CatalogResources(doc).value
    else Null
  }

  /** The reporting path's version: the same without the catalog fallback. */
  function PageResourcesStatic(doc: Document, page: Dict): Object {
    if page.Get("Resources").Some? then page.Get("Resources").value
    else if ParentResources(doc, page).Some? then ParentResources(doc, page).value
    else Null
  }

  /** The two agree except on a page that inherits its resources only from the
      catalog's Pages node, which the static version does not consult. */
  lemma PageResourcesAgree(doc: Document, page: Dict)
    ensures PageResourcesStatic(doc, page) != Null ==> PageResourcesStatic(doc, page) == PageResources(doc, page)
    ensures PageResourcesStatic(doc, page) != PageResources(doc, page) ==>
              page.Get("Resources").None? && ParentResources(doc, page).None? && CatalogResources(doc).Some?
  {
  }

  // ---------------------------------------------------------------------------
  // decompress_stream

  /** The filter names of a stream: one Name, or the Names of an Array (others are
      skipped); no Filter entry means no filter. */
  function FilterNames(d: Dict): (fs: seq<string>)
    ensures d.Get("Filter").Some? && d.Get("Filter").value.Name? ==> fs == [d.Get("Filter").value.name]
  {
    match d.Get("Filter")
    case Some(Name(n)) => [n]
    case Some(Array(items)) => NamesIn(items)
    case _ => []
  }

  function NamesIn(items: seq<Object>): (r: seq<string>)
    ensures forall n :: n in r <==> Name(n) in items
    decreases |items|
  {
    if items == [] then []
    else
      (if items[0].Name? then [items[0].name] else []) + NamesIn(items[1..])
  }

  /** The filter loop from the data so far: FlateDecode inflates (a failure gives the
      stream's original bytes), any other filter stops with the data so far. */
  function ApplyFilters(inflate: Bytes -> Option<Bytes>, original: Bytes, data: Bytes, fs: seq<string>): Bytes
    decreases |fs|
  {
    if fs == [] then data
    else if fs[0] == "FlateDecode" then
      match inflate(data)
      case Some(next) => ApplyFilters(inflate, original, next, fs[1..])
      case None => original
    else data
  }

  /** Decompression never invents data: the result is the stream's original bytes,
      the data it started from, or that data inflated k times in a row, once per
      leading FlateDecode filter. */
  lemma {:induction false} FiltersOutcome(inflate: Bytes -> Option<Bytes>, original: Bytes, data: Bytes, fs: seq<string>)
    ensures var r := ApplyFilters(inflate, original, data, fs);
            || r == original
            || r == data
            || exists k :: 0 < k <= |fs| && (forall i :: 0 <= i < k ==> fs[i] == "FlateDecode")
                           && InflateTimes(inflate, data, k) == Some(r)
    decreases |fs|
  {
    if fs != [] && fs[0] == "FlateDecode" && inflate(data).Some? {
      var next := inflate(data).value;
      var r := ApplyFilters(inflate, original, next, fs[1..]);
      FiltersOutcome(inflate, original, next, fs[1..]);
      if r != original && r != next {
        var k :| 0 < k <= |fs| - 1 && (forall i :: 0 <= i < k ==> fs[1..][i] == "FlateDecode")
                 && InflateTimes(inflate, next, k) == Some(r);
        InflateTimesShift(inflate, data, next, k);
        assert forall i :: 0 <= i < k + 1 ==> fs[i] == "FlateDecode" by {
          forall i | 0 < i < k + 1 ensures fs[i] == "FlateDecode" {
            assert fs[i] == fs[1..][i - 1];
          }
        }
        assert InflateTimes(inflate, data, k + 1) == Some(r);
      } else if r == next {
        assert InflateTimes(inflate, next, 0) == Some(next);
        InflateTimesShift(inflate, data, next, 0);
        assert InflateTimes(inflate, data, 1) == Some(r);
      }
    }
  }

  /** k successive inflations, when each succeeds. */
  function InflateTimes(inflate: Bytes -> Option<Bytes>, data: Bytes, k: nat): Option<Bytes>
    decreases k
  {
    if k == 0 then Some(data)
    else match inflate(data)
      case Some(next) => InflateTimes(inflate, next, k - 1)
      case None => None
  }

  lemma InflateTimesShift(inflate: Bytes -> Option<Bytes>, data: Bytes, next: Bytes, k: nat)
    requires inflate(data) == Some(next)
    ensures InflateTimes(inflate, data, k + 1) == InflateTimes(inflate, next, k)
  {
  }

  function DecompressedContent(inflate: Bytes -> Option<Bytes>, d: Dict, content: Bytes): Bytes {
    ApplyFilters(inflate, content, content, FilterNames(d))
  }

  /** decompress_stream as the source writes it: a loop over the filters with two
      early returns. */
  method DecompressStream(inflate: Bytes -> Option<Bytes>, d: Dict, content: Bytes) returns (data: Bytes)
    ensures data == DecompressedContent(inflate, d, content)
  {
    var fs := FilterNames(d);
    data := content;
    var k := 0;
    while k < |fs|
      invariant 0 <= k <= |fs|
      invariant ApplyFilters(inflate, content, data, fs[k..]) == DecompressedContent(inflate, d, content)
      decreases |fs| - k
    {
      assert fs[k..][1..] == fs[k + 1..];
      if fs[k] == "FlateDecode" {
        var decoded := inflate(data);
        if decoded.Some? {
          data := decoded.value;
        } else {
          return content;
        }
      } else {
        return data;
      }
      k := k + 1;
    }
  }

  /** A single FlateDecode filter inflates the content, or keeps it when inflating
      fails; no filter or an unknown first filter keeps it too. */
  lemma DecompressSingleFilter(inflate: Bytes -> Option<Bytes>, d: Dict, content: Bytes)
    ensures d.Get("Filter") == Some(Name("FlateDecode")) ==>
              DecompressedContent(inflate, d, content) == inflate(content).GetOr(content)
    ensures d.Get("Filter").None? ==> DecompressedContent(inflate, d, content) == content
    ensures |FilterNames(d)| > 0 && FilterNames(d)[0] != "FlateDecode" ==>
              DecompressedContent(inflate, d, content) == content
  {
    if d.Get("Filter") == Some(Name("FlateDecode")) {
      var fs := FilterNames(d);
      assert fs == ["FlateDecode"] && fs[1..] == [];
      match inflate(content)
      case Some(next) =>
        assert ApplyFilters(inflate, content, next, fs[1..]) == next;
      case None =>
    }
  }

  // ---------------------------------------------------------------------------
  // get_content_data

  function Flatten(parts: seq<Bytes>): Bytes
    decreases |parts|
  {
    if parts == [] then [] else Flatten(parts[..|parts| - 1]) + parts[|parts| - 1]
  }

  const NEWLINE: byte := 10

  /** get_content_data with at most `fuel` reference hops: a stream gives its
      decompressed data, an array gives each item's data followed by a newline, a
      reference is followed; anything else, or a missing object, gives nothing. */
  function ContentDataWithin(inflate: Bytes -> Option<Bytes>, doc: Document, contents: Object, fuel: nat): Bytes
    decreases fuel, contents
  {
    match contents
    case Reference(id) =>
      if id in doc.objects && fuel > 0 then ContentDataWithin(inflate, doc, doc.objects[id], fuel - 1) else []
    case Stream(d, c) => DecompressedContent(inflate, d, c)
    case Array(items) =>
      Flatten(seq(|items|, i requires 0 <= i < |items| => ContentDataWithin(inflate, doc, items[i], fuel) + [NEWLINE]))
    case _ => []
  }

  lemma FlattenAppend(parts: seq<Bytes>, p: Bytes)
    ensures Flatten(parts + [p]) == Flatten(parts) + p
  {
    assert (parts + [p])[..|parts|] == parts;
  }

  /** The recursive method the source has, with its loop over an array's items. */
  method ContentData(inflate: Bytes -> Option<Bytes>, doc: Document, contents: Object, fuel: nat)
    returns (data: Bytes)
    ensures data == ContentDataWithin(inflate, doc, contents, fuel)
    decreases fuel, contents
  {
    match contents
    case Reference(id) =>
      if id in doc.objects && fuel > 0 {
        data := ContentData(inflate, doc, doc.objects[id], fuel - 1);
      } else {
        data := [];
      }
    case Stream(d, c) =>
      data := DecompressStream(inflate, d, c);
    case Array(items) =>
      ghost var parts := seq(|items|, i requires 0 <= i < |items| => ContentDataWithin(inflate, doc, items[i], fuel) + [NEWLINE]);
      data := [];
      for k := 0 to |items|
        invariant data == Flatten(parts[..k])
      {
        var item := ContentData(inflate, doc, items[k], fuel);
        assert parts[..k + 1] == parts[..k] + [parts[k]];
        FlattenAppend(parts[..k], parts[k]);
        data := data + item + [NEWLINE];
      }
      assert parts[..|items|] == parts;
    case _ =>
      data := [];
  }

  /** A Contents array of two streams is the first stream's data, a newline, the
      second's data and a newline. */
  lemma ContentDataOfPair(inflate: Bytes -> Option<Bytes>, doc: Document, a: Object, b: Object, fuel: nat)
    requires a.Stream? && b.Stream?
    ensures ContentDataWithin(inflate, doc, Array([a, b]), fuel)
            == DecompressedContent(inflate, a.dict, a.content) + [NEWLINE]
               + DecompressedContent(inflate, b.dict, b.content) + [NEWLINE]
  {
    var parts := seq(2, i requires 0 <= i < 2 => ContentDataWithin(inflate, doc, [a, b][i], fuel) + [NEWLINE]);
    assert parts[0] == DecompressedContent(inflate, a.dict, a.content) + [NEWLINE];
    assert parts[1] == DecompressedContent(inflate, b.dict, b.content) + [NEWLINE];
    assert parts[..1][..0] == [];
    assert Flatten(parts[..1]) == parts[0];
    assert parts[..|parts| - 1] == parts[..1];
    assert Flatten(parts) == Flatten(parts[..1]) + parts[1];
  }

  // ---------------------------------------------------------------------------
  // scan_appearance_entry: which objects an appearance entry names

  function RefValues(es: seq<Entry>): (r: seq<ObjectId>)
    ensures forall id :: id in r <==> exists j :: 0 <= j < |es| && es[j].value == Reference(id)
    decreases |es|
  {
    if es == [] then []
    else
      var init := es[..|es| - 1];
      var v := es[|es| - 1].value;
      assert forall i :: 0 <= i < |init| ==> es[i] == init[i];
      RefValues(init) + (if v.Reference? then [v.id] else [])
  }

  /** A reference to a stream names that stream; a dictionary of appearance states,
      inline or by reference, names each state that is a reference. */
  function AppearanceTargets(doc: Document, appearance: Object): seq<ObjectId> {
    match appearance
    case Reference(id) =>
      (match GetObject(doc, id)
       case Some(Stream(_, _)) => [id]
       case Some(Dictionary(states)) => RefValues(states.entries)
       case _ => [])
    case Dictionary(states) => RefValues(states.entries)
    case _ => []
  }

  method CollectRefValues(d: Dict) returns (ids: seq<ObjectId>)
    ensures ids == RefValues(d.entries)
  {
    ids := [];
    for k := 0 to |d.entries|
      invariant ids == RefValues(d.entries[..k])
    {
      assert d.entries[..k + 1][..k] == d.entries[..k];
      var v := d.entries[k].value;
      if v.Reference? {
        ids := ids + [v.id];
      }
    }
    assert d.entries[..|d.entries|] == d.entries;
  }

  /** ids_to_scan of scan_appearance_entry. */
  method AppearanceIds(doc: Document, appearance: Object) returns (ids: seq<ObjectId>)
    ensures ids == AppearanceTargets(doc, appearance)
  {
    ids := [];
    match appearance {
      case Reference(id) =>
        var target := GetObject(doc, id);
        if target.Some? && target.value.Stream? {
          ids := [id];
        } else if target.Some? && target.value.Dictionary? {
          ids := CollectRefValues(target.value.dict);
        }
      case Dictionary(states) =>
        ids := CollectRefValues(states);
      case _ =>
    }
  }
}
