/** The PDF object graph as the resampler sees it through lopdf: indirect objects
    addressed by (number, generation), dictionaries as ordered entry lists, streams
    as a dictionary plus raw bytes.  Only the lookups the core performs are here. */
module PdfObject {
  import opened Wrappers

  newtype byte = x: int | 0 <= x < 256
  type Bytes = seq<byte>

  /** 2^32 and 2^16: one past the largest u32 and u16. */
  const U32_LIMIT: int := 0x1_0000_0000
  const U16_LIMIT: int := 0x1_0000

  /** lopdf's ObjectId = (u32, u16). */
  datatype ObjectId = ObjectId(num: nat, gen: nat)

  /** The order of lopdf's BTreeMap of objects: by number, then by generation. */
  predicate IdLess(x: ObjectId, y: ObjectId) {
    x.num < y.num || (x.num == y.num && x.gen < y.gen)
  }

  datatype Object =
    | Name(name: string)
    | Integer(i: int)
    | Real(r: real)
    | Array(items: seq<Object>)
    | Dictionary(dict: Dict)
    | Stream(dict: Dict, content: Bytes)
    | Reference(id: ObjectId)
    | Null

  datatype Entry = Entry(key: string, value: Object)

  /** A lopdf Dictionary is an IndexMap: entries keep their insertion order. */
  datatype Dict = Dict(entries: seq<Entry>) {

    function Get(key: string): Option<Object> {
      FindEntry(entries, key)
    }

    /** IndexMap::insert: an existing key keeps its place and takes the new value,
        a new key is appended. */
    function Set(key: string, value: Object): (r: Dict)
      ensures r.Get(key) == Some(value)
      ensures forall k :: k != key ==> r.Get(k) == Get(k)
    {
      Dict(SetEntry(entries, key, value))
    }
  }

  /** lopdf dictionaries never hold a key twice. */
  predicate UniqueKeys(d: Dict) {
    forall i, j :: 0 <= i < j < |d.entries| ==> d.entries[i].key != d.entries[j].key
  }

  /** With distinct keys, the entry at index j is the one Get finds. */
  lemma GetOfUniqueKey(d: Dict, key: string, j: int)
    requires UniqueKeys(d)
    requires 0 <= j < |d.entries| && d.entries[j].key == key
    ensures d.Get(key) == Some(d.entries[j].value)
  {
    GetMeaning(d, key);
    var r := d.Get(key);
    var k :| 0 <= k < |d.entries| && d.entries[k] == Entry(key, r.value);
    assert k == j;
  }

  /** The first entry with the key is the one Get finds. */
  lemma GetFirst(d: Dict, key: string, k: int)
    requires 0 <= k < |d.entries| && d.entries[k].key == key
    requires forall i :: 0 <= i < k ==> d.entries[i].key != key
    ensures d.Get(key) == Some(d.entries[k].value)
  {
    FindEntryMeaning(d.entries, key);
    var r := FindEntry(d.entries, key);
    var j :| 0 <= j < |d.entries| && d.entries[j] == Entry(key, r.value)
             && forall i :: 0 <= i < j ==> d.entries[i].key != key;
    assert j == k;
  }

  /** The value of the first entry with the given key. */
  function FindEntry(es: seq<Entry>, key: string): Option<Object>
    decreases |es|
  {
    if es == [] then None
    else if es[0].key == key then Some(es[0].value)
    else FindEntry(es[1..], key)
  }

  /** FindEntry finds the first entry with the key, and finds nothing exactly when
      no entry has it. */
  lemma {:induction false} FindEntryMeaning(es: seq<Entry>, key: string)
    ensures FindEntry(es, key).Some? ==>
              exists j :: 0 <= j < |es| && es[j] == Entry(key, FindEntry(es, key).value)
                          && forall i :: 0 <= i < j ==> es[i].key != key
    ensures FindEntry(es, key).None? <==> forall j :: 0 <= j < |es| ==> es[j].key != key
    decreases |es|
  {
    if es != [] && es[0].key != key {
      FindEntryMeaning(es[1..], key);
      assert forall j :: 1 <= j < |es| ==> es[j] == es[1..][j - 1];
      if FindEntry(es, key).Some? {
        var j :| 0 <= j < |es[1..]| && es[1..][j] == Entry(key, FindEntry(es, key).value)
                 && forall i :: 0 <= i < j ==> es[1..][i].key != key;
        assert es[j + 1] == Entry(key, FindEntry(es, key).value);
      }
    }
  }

  /** Get finds a value exactly when some entry has the key, and the value is that
      of an entry with the key. */
  lemma GetMeaning(d: Dict, key: string)
    ensures d.Get(key).Some? <==> exists j :: 0 <= j < |d.entries| && d.entries[j].key == key
    ensures d.Get(key).Some? ==> exists j :: 0 <= j < |d.entries| && d.entries[j] == Entry(key, d.Get(key).value)
  {
    FindEntryMeaning(d.entries, key);
  }

  function SetEntry(es: seq<Entry>, key: string, value: Object): (r: seq<Entry>)
    ensures FindEntry(r, key) == Some(value)
    ensures forall k :: k != key ==> FindEntry(r, k) == FindEntry(es, k)
    decreases |es|
  {
    if es == [] then [Entry(key, value)]
    else if es[0].key == key then [Entry(key, value)] + es[1..]
    else
      var tail := SetEntry(es[1..], key, value);
      assert FindEntry([es[0]] + tail, key) == FindEntry(tail, key);
      [es[0]] + tail
  }

  /** The in-memory document: the object table, the largest object number handed
      out so far, the catalog reference from the trailer, and the page list that
      lopdf's get_pages derives from the page tree. */
  datatype Document = Document(
    objects: map<ObjectId, Object>,
    maxId: nat,
    root: Option<ObjectId>,
    pages: seq<ObjectId>)

  function GetObject(doc: Document, id: ObjectId): Option<Object> {
    if id in doc.objects then Some(doc.objects[id]) else None
  }

  /** ContentScanner::resolve: one reference is followed, anything else is kept. */
  function Resolve(doc: Document, obj: Object): Option<Object> {
    if obj.Reference? then GetObject(doc, obj.id) else Some(obj)
  }

  function ResolveDict(doc: Document, obj: Object): Option<Dict> {
    var r := Resolve(doc, obj);
    if r.Some? && r.value.Dictionary? then Some(r.value.dict) else None
  }

  function NameOf(o: Option<Object>): Option<string> {
    if o.Some? && o.value.Name? then Some(o.value.name) else None
  }

  function SubtypeOf(d: Dict): Option<string> {
    NameOf(d.Get("Subtype"))
  }

  predicate IsImageStream(o: Object) {
    o.Stream? && SubtypeOf(o.dict) == Some("Image")
  }

  predicate IsFormStream(o: Object) {
    o.Stream? && SubtypeOf(o.dict) == Some("Form")
  }

  predicate IsImageId(doc: Document, id: ObjectId) {
    id in doc.objects && IsImageStream(doc.objects[id])
  }

  /** Rust's `n as u32` on an i64 keeps the low 32 bits. */
  function AsU32(n: int): (r: nat)
    ensures r < U32_LIMIT
    ensures 0 <= n < U32_LIMIT ==> r == n
    ensures -U32_LIMIT <= n < 0 ==> r == n + U32_LIMIT
  {
    n % U32_LIMIT
  }

  /** An Integer entry read as u32, or the default when absent or not an Integer
      (the Width, Height and BitsPerComponent reads). */
  function U32Entry(d: Dict, key: string, default: nat): (r: nat)
    ensures d.Get(key).Some? && d.Get(key).value.Integer? ==> r == AsU32(d.Get(key).value.i)
    ensures !(d.Get(key).Some? && d.Get(key).value.Integer?) ==> r == default
  {
    match d.Get(key)
    case Some(Integer(n)) => AsU32(n)
    case _ => default
  }

  /** The first filter of a stream: a Name, or the first element of an Array when it
      is a Name. */
  function FirstFilterName(d: Dict): (r: Option<string>)
    ensures r.Some? <==>
              match d.Get("Filter")
              case Some(Name(_)) => true
              case Some(Array(items)) => |items| > 0 && items[0].Name?
              case _ => false
    ensures r.Some? ==>
              || d.Get("Filter") == Some(Name(r.value))
              || (d.Get("Filter").Some? && d.Get("Filter").value.Array?
                  && d.Get("Filter").value.items[0] == Name(r.value))
  {
    match d.Get("Filter")
    case Some(Name(n)) => Some(n)
    case Some(Array(items)) => if |items| > 0 && items[0].Name? then Some(items[0].name) else None
    case _ => None
  }

  /** get_color_space_name with at most `fuel` reference hops; None when the hops run
      out, which the source (recursing without a bound) never reaches on an acyclic
      chain of references. */
  function ColorSpaceNameWithin(doc: Document, obj: Object, fuel: nat): Option<string>
    decreases fuel
  {
    match obj
    case Name(n) => Some(n)
    case Array(items) => Some(if |items| > 0 && items[0].Name? then items[0].name else "Unknown")
    case Reference(id) =>
      if id !in doc.objects then Some("Unknown")
      else if fuel == 0 then None
      else ColorSpaceNameWithin(doc, doc.objects[id], fuel - 1)
    case _ => Some("Unknown")
  }

  /** One hop per object of the document is enough for every reference chain that
      comes to an end. */
  function ColorSpaceName(doc: Document, obj: Object): string {
    ColorSpaceNameWithin(doc, obj, |doc.objects|).GetOr("Unknown")
  }

  /** Once a chain of references resolves within some fuel, more fuel changes
      nothing. */
  lemma {:induction false} ColorSpaceNameFuelMonotone(doc: Document, obj: Object, fuel: nat, more: nat)
    requires ColorSpaceNameWithin(doc, obj, fuel).Some?
    requires fuel <= more
    ensures ColorSpaceNameWithin(doc, obj, more) == ColorSpaceNameWithin(doc, obj, fuel)
    decreases fuel
  {
    match obj
    case Reference(id) =>
      if id in doc.objects {
        ColorSpaceNameFuelMonotone(doc, doc.objects[id], fuel - 1, more - 1);
      }
    case _ =>
  }

  /** obj starts a chain of n + 1 references, each to an object of doc. */
  predicate Chained(doc: Document, obj: Object, n: nat)
    decreases n
  {
    obj.Reference? && obj.id in doc.objects && (n == 0 || Chained(doc, doc.objects[obj.id], n - 1))
  }

  /** The object reached from obj after n reference hops (stopping at anything else). */
  function Walk(doc: Document, obj: Object, n: nat): Object
    decreases n
  {
    if n > 0 && obj.Reference? && obj.id in doc.objects then Walk(doc, doc.objects[obj.id], n - 1) else obj
  }

  /** The hops run out exactly on a chain of fuel + 1 references. */
  lemma {:induction false} OutOfFuelIsChained(doc: Document, obj: Object, fuel: nat)
    ensures ColorSpaceNameWithin(doc, obj, fuel).None? <==> Chained(doc, obj, fuel)
    decreases fuel
  {
    if obj.Reference? && obj.id in doc.objects && fuel > 0 {
      OutOfFuelIsChained(doc, doc.objects[obj.id], fuel - 1);
    }
  }

  lemma {:induction false} ChainedPrefix(doc: Document, obj: Object, n: nat, m: nat)
    requires Chained(doc, obj, n) && m <= n
    ensures Chained(doc, obj, m)
    decreases m
  {
    if m > 0 {
      ChainedPrefix(doc, doc.objects[obj.id], n - 1, m - 1);
    }
  }

  /** Along a chain, the object after k hops starts the rest of the chain. */
  lemma {:induction false} ChainedSuffix(doc: Document, obj: Object, n: nat, k: nat)
    requires Chained(doc, obj, n) && k <= n
    ensures Chained(doc, Walk(doc, obj, k), n - k)
    decreases k
  {
    if k > 0 {
      ChainedSuffix(doc, doc.objects[obj.id], n - 1, k - 1);
    }
  }

  lemma {:induction false} ChainedJoin(doc: Document, obj: Object, a: nat, b: nat)
    requires Chained(doc, obj, a) && Chained(doc, Walk(doc, obj, a + 1), b)
    ensures Chained(doc, obj, a + 1 + b)
    decreases a
  {
    assert Walk(doc, obj, a + 1) == Walk(doc, doc.objects[obj.id], a);
    if a > 0 {
      ChainedJoin(doc, doc.objects[obj.id], a - 1, b);
    } else {
      assert Walk(doc, doc.objects[obj.id], 0) == doc.objects[obj.id];
    }
  }

  lemma {:induction false} WalkAdd(doc: Document, obj: Object, a: nat, b: nat)
    ensures Walk(doc, obj, a + b) == Walk(doc, Walk(doc, obj, a), b)
    decreases a
  {
    if a > 0 && obj.Reference? && obj.id in doc.objects {
      WalkAdd(doc, doc.objects[obj.id], a - 1, b);
    }
  }

  /** A chain that comes back to its start after p hops goes on for ever. */
  lemma {:induction false} CycleNeverEnds(doc: Document, obj: Object, p: nat, m: nat)
    requires p >= 1 && Chained(doc, obj, p - 1) && Walk(doc, obj, p) == obj
    ensures Chained(doc, obj, m)
    decreases m
  {
    if m < p {
      ChainedPrefix(doc, obj, p - 1, m);
    } else {
      CycleNeverEnds(doc, obj, p, m - p);
      ChainedJoin(doc, obj, p - 1, m - p);
    }
  }

  predicate Distinct(s: seq<ObjectId>) {
    forall i, j :: 0 <= i < j < |s| ==> s[i] != s[j]
  }

  lemma {:induction false} DistinctCardinality(s: seq<ObjectId>)
    requires Distinct(s)
    ensures |set x | x in s| == |s|
    decreases |s|
  {
    if |s| > 0 {
      var t := s[..|s| - 1];
      assert Distinct(t);
      DistinctCardinality(t);
      assert (set x | x in s) == (set x | x in t) + {s[|s| - 1]};
      assert s[|s| - 1] !in (set x | x in t);
    }
  }

  lemma {:induction false} SubsetCardinality(a: set<ObjectId>, b: set<ObjectId>)
    requires a <= b
    ensures |a| <= |b|
    decreases b
  {
    if a != {} {
      var x :| x in a;
      SubsetCardinality(a - {x}, b - {x});
    }
  }

  /** A sequence longer than the set its elements come from repeats one. */
  lemma Pigeonhole(s: seq<ObjectId>, keys: set<ObjectId>)
    requires |s| > |keys| && forall i :: 0 <= i < |s| ==> s[i] in keys
    ensures exists i, j :: 0 <= i < j < |s| && s[i] == s[j]
  {
    if Distinct(s) {
      DistinctCardinality(s);
      SubsetCardinality((set x | x in s), keys);
    }
  }

  /** A chain of references that outlasts one hop per object of the document
      never ends: it repeats an object, and from there goes round for ever. */
  lemma OutOfFuelForEver(doc: Document, obj: Object, fuel: nat)
    requires ColorSpaceNameWithin(doc, obj, |doc.objects|).None?
    ensures ColorSpaceNameWithin(doc, obj, fuel).None?
  {
    var n := |doc.objects|;
    OutOfFuelIsChained(doc, obj, n);
    OutOfFuelIsChained(doc, obj, fuel);
    forall k | 0 <= k <= n
      ensures Walk(doc, obj, k).Reference? && Walk(doc, obj, k).id in doc.objects
    {
      ChainedSuffix(doc, obj, n, k);
    }
    var ids := seq(n + 1, k requires 0 <= k <= n && Walk(doc, obj, k).Reference? => Walk(doc, obj, k).id);
    Pigeonhole(ids, doc.objects.Keys);
    var i, j :| 0 <= i < j < |ids| && ids[i] == ids[j];
    var x := Walk(doc, obj, i + 1);
    assert x == doc.objects[ids[i]] by {
      WalkAdd(doc, obj, i, 1);
    }
    assert Walk(doc, obj, j + 1) == x by {
      WalkAdd(doc, obj, j, 1);
    }
    assert Walk(doc, x, j - i) == x by {
      WalkAdd(doc, obj, i + 1, j - i);
    }
    ChainedSuffix(doc, obj, n, i + 1);
    ChainedPrefix(doc, x, n - (i + 1), j - i - 1);
    if fuel <= n {
      ChainedPrefix(doc, obj, n, fuel);
    } else {
      CycleNeverEnds(doc, x, j - i, fuel - i - 1);
      ChainedPrefix(doc, obj, n, i);
      ChainedJoin(doc, obj, i, fuel - i - 1);
    }
  }

  /** One hop per object is enough: a chain that resolves with some fuel resolves
      to the same name with |doc.objects|, the fuel ColorSpaceName gives. */
  lemma FuelOfObjectCountSuffices(doc: Document, obj: Object, fuel: nat)
    requires ColorSpaceNameWithin(doc, obj, fuel).Some?
    ensures ColorSpaceNameWithin(doc, obj, |doc.objects|) == ColorSpaceNameWithin(doc, obj, fuel)
  {
    if fuel <= |doc.objects| {
      ColorSpaceNameFuelMonotone(doc, obj, fuel, |doc.objects|);
    } else {
      if ColorSpaceNameWithin(doc, obj, |doc.objects|).None? {
        OutOfFuelForEver(doc, obj, fuel);
      }
      ColorSpaceNameFuelMonotone(doc, obj, |doc.objects|, fuel);
    }
  }

  /** The name is the colour-space family of the object reached by resolving
      references: a direct name, the family name heading an array such as
      [/ICCBased 5 0 R], and "Unknown" for any other shape or a dangling reference. */
  lemma ColorSpaceNameThroughReference(doc: Document, id: ObjectId, target: Object)
    requires id in doc.objects && doc.objects[id] == target
    requires target.Name? || target.Array?
    ensures ColorSpaceName(doc, Reference(id)) ==
              if target.Name? then target.name
              else if |target.items| > 0 && target.items[0].Name? then target.items[0].name
              else "Unknown"
  {
    var n := |doc.objects|;
    assert doc.objects.Keys == (doc.objects.Keys - {id}) + {id};
    assert n >= 1;
    assert ColorSpaceNameWithin(doc, Reference(id), n) == ColorSpaceNameWithin(doc, target, n - 1);
  }
}
