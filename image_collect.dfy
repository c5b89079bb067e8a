/** The reporting path's image collection: collect_page_images and the depth-first
    collect_images_recursive, which follows Form XObjects through their own
    resources and keeps a `seen` set so that each object is entered once. */
module ImageCollect {
  import opened Wrappers
  import opened PdfObject
  import opened Resources

  /** The XObjects a Form XObject names in its own Resources; nothing for any
      other object. */
  function FormChildren(doc: Document, id: ObjectId): map<string, ObjectId> {
    var obj := GetObject(doc, id);
    if obj.Some? && obj.value.Stream? && SubtypeOf(obj.value.dict) == Some("Form")
       && obj.value.dict.Get("Resources").Some? then
      NamedRefs(doc, obj.value.dict.Get("Resources").value, "XObject")
    else map[]
  }

  /** A chain of objects, each a child of the one before. */
  predicate IsPath(doc: Document, p: seq<ObjectId>) {
    |p| > 0 && forall i :: 0 <= i < |p| - 1 ==> p[i + 1] in FormChildren(doc, p[i]).Values
  }

  /** A set of objects that holds the children of each of its Forms. */
  predicate Closed(doc: Document, s: set<ObjectId>) {
    forall f :: f in s ==> FormChildren(doc, f).Values <= s
  }

  /** A closed set holds every object reachable from one of its members. */
  lemma {:induction false} ClosedHoldsPaths(doc: Document, s: set<ObjectId>, p: seq<ObjectId>)
    requires Closed(doc, s) && IsPath(doc, p) && p[0] in s
    ensures p[|p| - 1] in s
    decreases |p|
  {
    if |p| > 1 {
      var q := p[..|p| - 1];
      assert IsPath(doc, q) by {
        assert forall i :: 0 <= i < |q| ==> q[i] == p[i];
      }
      ClosedHoldsPaths(doc, s, q);
      assert p[|p| - 1] in FormChildren(doc, p[|p| - 2]).Values;
    }
  }

  /** id is reached from one of roots through Forms. */
  ghost predicate ReachableFrom(doc: Document, roots: set<ObjectId>, id: ObjectId) {
    exists p :: IsPath(doc, p) && p[0] in roots && p[|p| - 1] == id
  }

  lemma RootReachable(doc: Document, roots: set<ObjectId>, r: ObjectId)
    requires r in roots
    ensures ReachableFrom(doc, roots, r)
  {
    assert IsPath(doc, [r]);
  }

  /** A child of a reachable Form is reachable. */
  lemma ChildReachable(doc: Document, roots: set<ObjectId>, f: ObjectId, c: ObjectId)
    requires ReachableFrom(doc, roots, f) && c in FormChildren(doc, f).Values
    ensures ReachableFrom(doc, roots, c)
  {
    var p :| IsPath(doc, p) && p[0] in roots && p[|p| - 1] == f;
    var q := p + [c];
    forall i | 0 <= i < |q| - 1
      ensures q[i + 1] in FormChildren(doc, q[i]).Values
    {
      if i < |p| - 1 {
        assert q[i] == p[i] && q[i + 1] == p[i + 1];
      }
    }
    assert IsPath(doc, q) && q[0] in roots && q[|q| - 1] == c;
  }

  predicate NoDuplicates(s: seq<ObjectId>) {
    forall i, j :: 0 <= i < j < |s| ==> s[i] != s[j]
  }

  class ImageCollector {
    const doc: Document
    /** The objects the collection starts from. */
    ghost const roots: set<ObjectId>
    /** The image ids found so far, in the order found. */
    var images: seq<ObjectId>
    /** Every id entered so far, whatever it turned out to be. */
    var seen: set<ObjectId>
    /** The objects entered but not yet finished: a Form whose children are still
        being entered, or an object just marked seen. */
    ghost var active: set<ObjectId>

    ghost predicate Valid()
      reads this
    {
      && NoDuplicates(images)
      && (forall i :: 0 <= i < |images| ==> IsImageId(doc, images[i]) && images[i] in seen)
      && (forall id :: id in seen && id !in active && IsImageId(doc, id) ==> id in images)
      && active <= seen
      && (forall f :: f in seen && f !in active ==> FormChildren(doc, f).Values <= seen)
      && (forall id :: id in seen ==> ReachableFrom(doc, roots, id))
    }

    constructor (doc: Document, ghost roots: set<ObjectId>)
      ensures this.doc == doc && this.roots == roots && images == [] && seen == {} && active == {} && Valid()
    {
      this.doc := doc;
      this.roots := roots;
      images := [];
      seen := {};
      active := {};
    }

    /** collect_images_recursive: an id already seen is ignored; otherwise it is
        marked seen, an Image is appended, and a Form's children are entered in
        the (unspecified) order of their map. */
    method Collect(id: ObjectId)
      requires Valid() && ReachableFrom(doc, roots, id)
      modifies this
      ensures Valid() && active == old(active)
      ensures id in seen && old(seen) <= seen
      ensures |old(images)| <= |images| && images[..|old(images)|] == old(images)
      ensures id in old(seen) ==> seen == old(seen) && images == old(images)
      decreases doc.objects.Keys - seen, 1
    {
      if id in seen {
        return;
      }
      Enter(id);
      var obj := GetObject(doc, id);
      if obj.Some? && obj.value.Stream? {
        var subtype := SubtypeOf(obj.value.dict);
        if subtype == Some("Image") {
          AddImage(id);
        } else if subtype == Some("Form") {
          var res := obj.value.dict.Get("Resources");
          if res.Some? {
            var children := XObjects(doc, res.value);
            CollectChildren(id, children);
          }
        }
      }
      Leave(id);
    }

    /** seen.insert(id), for an id reached from the roots. */
    method Enter(id: ObjectId)
      requires Valid() && ReachableFrom(doc, roots, id) && id !in seen
      modifies this
      ensures Valid() && seen == old(seen) + {id} && active == old(active) + {id} && images == old(images)
    {
      seen := seen + {id};
      active := active + {id};
    }

    /** images.push(id), for an image just entered. */
    method AddImage(id: ObjectId)
      requires Valid() && id in active && IsImageId(doc, id) && id !in images
      modifies this
      ensures Valid() && seen == old(seen) && active == old(active) && images == old(images) + [id]
    {
      images := images + [id];
    }

    /** Ends the visit of id once its children are seen and, as an image, it is listed. */
    method Leave(id: ObjectId)
      requires Valid() && id in active
      requires FormChildren(doc, id).Values <= seen && (IsImageId(doc, id) ==> id in images)
      modifies this
      ensures Valid() && seen == old(seen) && active == old(active) - {id} && images == old(images)
    {
      active := active - {id};
    }

    /** The loop over a Form's children, split out of Collect. */
    method CollectChildren(form: ObjectId, children: map<string, ObjectId>)
      requires Valid() && form in seen && form in active && form in doc.objects
      requires children == FormChildren(doc, form) && !IsImageId(doc, form)
      modifies this
      ensures Valid() && active == old(active)
      ensures old(seen) <= seen && children.Values <= seen
      ensures |old(images)| <= |images| && images[..|old(images)|] == old(images)
      decreases doc.objects.Keys - (seen - {form}), 0
    {
      var todo := children.Keys;
      while todo != {}
        invariant todo <= children.Keys
        invariant Valid() && active == old(active) && old(seen) <= seen
        invariant forall n :: n in children.Keys - todo ==> children[n] in seen
        invariant |old(images)| <= |images| && images[..|old(images)|] == old(images)
        decreases |todo|
      {
        var n :| n in todo;
        ChildReachable(doc, roots, form, children[n]);
        Collect(children[n]);
        todo := todo - {n};
      }
    }
  }

  /** The XObjects a page names directly, through its own or its Parent's
      Resources; nothing for an id that is not a page dictionary. */
  function PageXObjects(doc: Document, pageId: ObjectId): map<string, ObjectId> {
    var obj := GetObject(doc, pageId);
    if obj.Some? && obj.value.Dictionary? then NamedRefs(doc, PageResourcesStatic(doc, obj.value.dict), "XObject")
    else map[]
  }

  /** collect_page_images: the images of a page, each once: exactly the images that
      the page's XObjects reach through Forms. */
  method CollectPageImages(doc: Document, pageId: ObjectId) returns (images: seq<ObjectId>)
    ensures NoDuplicates(images)
    ensures forall i :: 0 <= i < |images| ==> IsImageId(doc, images[i])
    ensures forall i :: 0 <= i < |images| ==> ReachableFrom(doc, PageXObjects(doc, pageId).Values, images[i])
    ensures forall p :: (IsPath(doc, p) && p[0] in PageXObjects(doc, pageId).Values
                         && IsImageId(doc, p[|p| - 1])) ==> p[|p| - 1] in images
  {
    images := [];
    var obj := GetObject(doc, pageId);
    if obj.Some? && obj.value.Dictionary? {
      var resources := PageResourcesStatic(doc, obj.value.dict);
      var xobjects := XObjects(doc, resources);
      var collector := new ImageCollector(doc, xobjects.Values);
      var todo := xobjects.Keys;
      while todo != {}
        invariant todo <= xobjects.Keys
        invariant collector.doc == doc && collector.roots == xobjects.Values
        invariant collector.Valid() && collector.active == {}
        invariant forall n :: n in xobjects.Keys - todo ==> xobjects[n] in collector.seen
        decreases |todo|
      {
        var n :| n in todo;
        RootReachable(doc, xobjects.Values, xobjects[n]);
        collector.Collect(xobjects[n]);
        todo := todo - {n};
      }
      assert Closed(doc, collector.seen);
      forall p | IsPath(doc, p) && p[0] in PageXObjects(doc, pageId).Values && IsImageId(doc, p[|p| - 1])
        ensures p[|p| - 1] in collector.images
      {
        ClosedHoldsPaths(doc, collector.seen, p);
      }
      images := collector.images;
    }
  }
}
