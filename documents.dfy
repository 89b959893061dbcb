/**
 * Stored documents and the serialization applied to every document an
 * endpoint returns (`oid_str` and `serialize_doc` in main.py).
 */
module Documents {

  /** A value a stored document can hold. */
  datatype Value =
    | ObjId(hex: string)             // a store-assigned ObjectId
    | DateTime(instant: int)         // a datetime.datetime, as an opaque instant
    | Date(day: int)                 // a datetime.date, as an opaque day number
    | Str(s: string)
    | Int(i: int)
    | Bool(b: bool)
    | Null
    | List(items: seq<Value>)
    | Object(fields: map<string, Value>)

  /** A document: field names to values. */
  type Doc = map<string, Value>

  /**
   * The two foreign formatters the serializer calls: `str(obj)` and
   * `obj.isoformat()`. Their text is not modelled; both are left arbitrary.
   */
  datatype Formatting = Formatting(str: Value -> string, isoformat: Value -> string)

  /** Python truthiness: None, "", 0, False and empty containers are falsy. */
  predicate Truthy(v: Value) {
    match v
    case Null => false
    case Str(s) => s != ""
    case Int(i) => i != 0
    case Bool(b) => b
    case List(items) => items != []
    case Object(fields) => fields != map[]
    case _ => true
  }

  /** `isinstance(v, (datetime, date))`. */
  predicate IsDate(v: Value) { v.DateTime? || v.Date? }

  /**
   * One value after the date loop of main.py:41-42: a date or datetime
   * becomes its isoformat string, and any other value is kept.
   */
  function Rendered(v: Value, f: Formatting): (r: Value)
    ensures !IsDate(r)
    ensures IsDate(v) ==> r == Str(f.isoformat(v))
    ensures !IsDate(v) ==> r == v
  {
    if IsDate(v) then Str(f.isoformat(v)) else v
  }

  /**
   * `oid_str(obj)`: the string form of an identifier. The source tests for
   * an ObjectId, but both of its paths return `str(obj)`, so there is no
   * branch here.
   */
  function OidStr(v: Value, f: Formatting): (r: string)
    ensures r == f.str(v)
  {
    f.str(v)
  }

  /** Whether serialization moves `_id` to `id`: it is present and truthy. */
  predicate MovesId(doc: Doc) { "_id" in doc && Truthy(doc["_id"]) }

  /** The document after the `_id` step: a truthy `_id` is moved to `id` as a string. */
  function Moved(doc: Doc, f: Formatting): (m: Doc)
    ensures MovesId(doc) ==> m.Keys == doc.Keys - {"_id"} + {"id"}
    ensures MovesId(doc) ==> m["id"] == Str(OidStr(doc["_id"], f))
    ensures MovesId(doc) ==> forall k :: k in doc && k != "_id" && k != "id" ==> m[k] == doc[k]
    ensures !MovesId(doc) ==> m == doc
  {
    if MovesId(doc) then (doc - {"_id"})["id" := Str(OidStr(doc["_id"], f))] else doc
  }

  /**
   * What `serialize_doc` returns. A non-empty document: a truthy `_id` is
   * removed and its string form stored under `id`; then every date or
   * datetime value is replaced by its isoformat string.
   */
  function Serialized(doc: Doc, f: Formatting): (r: Doc)
    ensures doc == map[] ==> r == doc
    ensures r.Keys == if MovesId(doc) then doc.Keys - {"_id"} + {"id"} else doc.Keys
    ensures MovesId(doc) ==> "_id" !in r && r["id"] == Str(OidStr(doc["_id"], f))
    ensures forall k :: k in doc && k != "_id" && !(MovesId(doc) && k == "id") ==> r[k] == Rendered(doc[k], f)
    ensures "_id" in doc && !Truthy(doc["_id"]) ==> r["_id"] == doc["_id"]
    ensures forall k :: k in r ==> !IsDate(r[k])
  {
    if doc == map[] then doc
    else
      var moved := Moved(doc, f);
      map k | k in moved :: Rendered(moved[k], f)
  }

  /** Serializing a serialized document changes nothing. */
  lemma SerializedIdempotent(doc: Doc, f: Formatting)
    ensures Serialized(Serialized(doc, f), f) == Serialized(doc, f)
  {
    var once := Serialized(doc, f);
    assert !MovesId(once);
    var twice := Serialized(once, f);
    assert twice.Keys == once.Keys;
    forall k | k in once ensures twice[k] == once[k] {
      if k == "_id" {
        assert !Truthy(once["_id"]);
      }
    }
  }

  /**
   * `serialize_doc(doc)`, as main.py runs it: copy the document, move a
   * truthy `_id` to `id`, then rewrite every date value of the copy in place.
   * The caller's document is a value here, so the copy cannot alias it.
   */
  method SerializeDoc(doc: Doc, f: Formatting) returns (d: Doc)
    ensures d == Serialized(doc, f)
  {
    if doc == map[] {
      return doc;
    }
    d := doc;
    if "_id" in d && Truthy(d["_id"]) {
      var id := d["_id"];
      d := d - {"_id"};
      d := d["id" := Str(OidStr(id, f))];
    }
    ghost var copied := d;
    var pending := d.Keys;
    while pending != {}
      invariant pending <= copied.Keys && d.Keys == copied.Keys
      invariant forall k :: k in d && k in pending ==> d[k] == copied[k]
      invariant forall k :: k in d && k !in pending ==> d[k] == Rendered(copied[k], f)
      decreases pending
    {
      var k :| k in pending;
      if IsDate(d[k]) {
        d := d[k := Str(f.isoformat(d[k]))];
      }
      pending := pending - {k};
    }
    assert copied == Moved(doc, f);
    RenderedEverywhere(copied, d, f);
  }

  /** A map that agrees with the rendering of `m` at every key of `m` is that rendering. */
  lemma RenderedEverywhere(m: Doc, d: Doc, f: Formatting)
    requires d.Keys == m.Keys && forall k :: k in d ==> d[k] == Rendered(m[k], f)
    ensures d == map k | k in m :: Rendered(m[k], f)
  {
  }
}
