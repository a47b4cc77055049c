/**
 * The parts of lopdf's object model that `chunking.rs` inspects: PDF objects,
 * dictionaries as ordered key/value lists, pages and the object table.
 * Parsing a file into this shape is lopdf's job and is not modelled.
 */
module PdfObjects {
  import opened Outcomes
  import opened Models

  newtype byte = x: int | 0 <= x < 256
  type Bytes = seq<byte>

  /** lopdf stores integers as `i64`. */
  newtype i64 = x: int | -0x8000_0000_0000_0000 <= x < 0x8000_0000_0000_0000

  /**
   * `str::from_utf8` (and `String::from_utf8`), which fails on invalid UTF-8: an
   * input of the model. The lossy decoding lives with the other formatters in `Renderers`.
   */
  datatype Utf8Decoder = Utf8Decoder(strict: Bytes -> Option<string>)

  datatype StringFormat = Literal | Hexadecimal

  /** An indirect object's number and generation. */
  datatype ObjectId = ObjectId(number: nat, generation: nat)

  datatype Object =
    | Null
    | Boolean(b: bool)
    | Integer(i: i64)
    | Real(f: F32)
    | Str(bytes: Bytes, format: StringFormat)
    | Name(name: Bytes)
    | Array(items: seq<Object>)
    | Dictionary(dict: seq<Entry>)
    | Stream(streamDict: seq<Entry>, content: Bytes)
    | Reference(id: ObjectId)

  datatype Entry = Entry(key: Bytes, value: Object)

  /** A lopdf `Dictionary`: entries in insertion order. */
  type Dictionary = seq<Entry>

  /** `Dictionary::get`: the value stored under `key`, if any. */
  function Get(d: Dictionary, key: Bytes): (r: Option<Object>)
    ensures r.Some? <==> exists i :: 0 <= i < |d| && d[i].key == key
    ensures r.Some? ==> exists i :: 0 <= i < |d| && d[i] == Entry(key, r.value)
  {
    if d == [] then None
    else if d[0].key == key then Some(d[0].value)
    else
      var r := Get(d[1..], key);
      assert forall i :: 0 <= i < |d| - 1 ==> d[1..][i] == d[i + 1];
      r
  }

  /** `Object::as_name_str`: the name as UTF-8 text, failing on other objects or invalid UTF-8. */
  function AsNameStr(o: Object, utf8: Utf8Decoder): Option<string>
  {
    if o.Name? then utf8.strict(o.name) else None
  }

  /**
   * A page as `get_pages`/`page_iter` yield it: its object id, and the first part of
   * `get_page_resources`, the page's own inline resource dictionary, if any. The code
   * discards the second part (referenced and inherited resource ids), so a page whose
   * resources are only referenced or inherited has None here.
   */
  datatype PdfPage = PdfPage(id: ObjectId, resources: Option<Dictionary>)

  /** A loaded `lopdf::Document`: pages in page-number order and the object table. */
  datatype PdfDocument = PdfDocument(pages: seq<PdfPage>, objects: map<ObjectId, Object>)

  /** `Error::ObjectNotFound`, the type error of `Object::as_dict`, and `Error::ReferenceLimit`. */
  datatype LookupError = ObjectNotFound | NotADictionary | ReferenceLimit

  /**
   * An assumed bound on the number of references `Document::dereference` follows
   * in a row; the exact value of lopdf's limit depends on its version.
   */
  const MaxDereferences: nat := 100

  /**
   * The object reached from `o` by following `k` references, or None when a
   * non-reference or a missing object comes first: the meaning of a reference chain.
   */
  function Follow(objects: map<ObjectId, Object>, o: Object, k: nat): Option<Object>
    decreases k
  {
    if k == 0 then Some(o)
    else if o.Reference? && o.id in objects then Follow(objects, objects[o.id], k - 1)
    else None
  }

  /**
   * `Document::dereference`: follows references from `o`, `hops` of them having
   * been followed already; a missing target is ObjectNotFound, and one hop more
   * than `MaxDereferences` is ReferenceLimit.
   */
  function Dereference(objects: map<ObjectId, Object>, o: Object, hops: nat): (r: Result<Object, LookupError>)
    requires hops <= MaxDereferences
    ensures r.Ok? ==> !r.value.Reference?
    ensures r.Err? ==> r.error == ObjectNotFound || r.error == ReferenceLimit
    ensures !o.Reference? ==> r == Ok(o)
    ensures o.Reference? && o.id !in objects ==> r == Err(ObjectNotFound)
    decreases MaxDereferences - hops
  {
    if !o.Reference? then Ok(o)
    else if o.id !in objects then Err(ObjectNotFound)
    else if hops + 1 > MaxDereferences then Err(ReferenceLimit)
    else Dereference(objects, objects[o.id], hops + 1)
  }

  /**
   * Dereferencing succeeds exactly with the non-reference at the end of a chain
   * of at most `MaxDereferences - hops` references.
   */
  lemma {:induction false} DereferenceFollows(objects: map<ObjectId, Object>, o: Object, hops: nat, k: nat)
    requires hops <= MaxDereferences
    ensures Dereference(objects, o, hops).Ok? ==>
      exists j: nat :: hops + j <= MaxDereferences && Follow(objects, o, j) == Some(Dereference(objects, o, hops).value)
    ensures (hops + k <= MaxDereferences && Follow(objects, o, k).Some? && !Follow(objects, o, k).value.Reference?) ==>
      Dereference(objects, o, hops) == Ok(Follow(objects, o, k).value)
    decreases MaxDereferences - hops
  {
    if o.Reference? && o.id in objects && hops + 1 <= MaxDereferences {
      DereferenceFollows(objects, objects[o.id], hops + 1, if k == 0 then 0 else k - 1);
      if Dereference(objects, o, hops).Ok? {
        var j: nat :| hops + 1 + j <= MaxDereferences && Follow(objects, objects[o.id], j) == Some(Dereference(objects, o, hops).value);
        assert Follow(objects, o, j + 1) == Follow(objects, objects[o.id], j);
      }
    } else if !o.Reference? {
      assert Follow(objects, o, 0) == Some(o);
    }
  }

  /** An object that refers to itself is a cycle: dereferencing it stops at the limit. */
  lemma {:induction false} SelfReferenceHitsLimit(objects: map<ObjectId, Object>, id: ObjectId, hops: nat)
    requires hops <= MaxDereferences && id in objects && objects[id] == Reference(id)
    ensures Dereference(objects, Reference(id), hops) == Err(ReferenceLimit)
    decreases MaxDereferences - hops
  {
    if hops + 1 <= MaxDereferences {
      SelfReferenceHitsLimit(objects, id, hops + 1);
    }
  }

  /** `Document::get_object`: the object stored under `id`, with references followed. */
  function GetObject(doc: PdfDocument, id: ObjectId): (r: Result<Object, LookupError>)
    ensures r.Ok? ==> !r.value.Reference?
    ensures r.Err? ==> r.error == ObjectNotFound || r.error == ReferenceLimit
    ensures id !in doc.objects ==> r == Err(ObjectNotFound)
    ensures id in doc.objects && !doc.objects[id].Reference? ==> r == Ok(doc.objects[id])
  {
    if id !in doc.objects then Err(ObjectNotFound) else Dereference(doc.objects, doc.objects[id], 0)
  }

  /** `Document::get_dictionary`: the object under `id`, references followed, which must be a dictionary. */
  function GetDictionary(doc: PdfDocument, id: ObjectId): (r: Result<Dictionary, LookupError>)
    ensures r.Ok? <==> GetObject(doc, id).Ok? && GetObject(doc, id).value.Dictionary?
    ensures r.Ok? ==> GetObject(doc, id) == Ok(Dictionary(r.value))
    ensures r == Err(NotADictionary) <==> GetObject(doc, id).Ok? && !GetObject(doc, id).value.Dictionary?
    ensures r.Err? && r.error != NotADictionary ==> GetObject(doc, id) == Err(r.error)
    ensures r == Err(ObjectNotFound) <== id !in doc.objects
  {
    match GetObject(doc, id)
    case Err(e) => Err(e)
    case Ok(o) => if o.Dictionary? then Ok(o.dict) else Err(NotADictionary)
  }

  /** An object `1 0 R` stored under id 1 that points at a dictionary under id 2 resolves to that dictionary. */
  lemma ReferenceChainFollowed(d: Dictionary)
    ensures GetDictionary(PdfDocument([], map[ObjectId(1, 0) := Reference(ObjectId(2, 0)), ObjectId(2, 0) := Dictionary(d)]), ObjectId(1, 0)) == Ok(d)
  {
    var objects := map[ObjectId(1, 0) := Reference(ObjectId(2, 0)), ObjectId(2, 0) := Dictionary(d)];
    assert Dereference(objects, Reference(ObjectId(2, 0)), 0) == Dereference(objects, Dictionary(d), 1);
  }

  /** A self-referencing object gives ReferenceLimit. */
  lemma SelfReferenceExample()
    ensures GetDictionary(PdfDocument([], map[ObjectId(1, 0) := Reference(ObjectId(1, 0))]), ObjectId(1, 0)) == Err(ReferenceLimit)
  {
    SelfReferenceHitsLimit(map[ObjectId(1, 0) := Reference(ObjectId(1, 0))], ObjectId(1, 0), 0);
  }
}
