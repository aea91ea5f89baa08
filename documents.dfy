/** Documents as the handlers receive them from the store, and `_safe_id`, which
    makes a document safe to return as JSON by turning its identity into text. */
module Documents {
  import opened Common
  import opened Dict

  /** A field value. Values whose `str()` text is not derived here (floats, lists,
      nested documents) are carried together with that text. */
  datatype Value =
    | VNone
    | VBool(b: bool)
    | VInt(i: int)
    | VStr(s: string)
    | VObjectId(hex: string)
    | VOther(text: string)

  type Doc = Dict<Value>

  /** Python's `str(v)`. */
  function ToStr(v: Value): string {
    match v
    case VNone => "None"
    case VBool(b) => if b then "True" else "False"
    case VInt(i) => IntToString(i)
    case VStr(s) => s
    case VObjectId(hex) => hex
    case VOther(text) => text
  }

  /** `not doc`: no document, or an empty one. */
  predicate Falsy(doc: Option<Doc>) {
    doc.None? || doc.value == []
  }

  const IdKey: string := "_id"

  /** `_safe_id`: a falsy document is handed back as it is; any other is copied,
      and in the copy only the value under `_id`, when there is one, is replaced
      by its string form. */
  function SafeId(doc: Option<Doc>): (r: Option<Doc>)
    ensures Falsy(doc) ==> r == doc
    ensures !Falsy(doc) ==> r.Some? && Keys(r.value) == Keys(doc.value)
    ensures !Falsy(doc) ==> Get(r.value, IdKey) == match Get(doc.value, IdKey)
                                                     case None => None
                                                     case Some(v) => Some(VStr(ToStr(v)))
    ensures !Falsy(doc) ==> forall k :: k != IdKey ==> Get(r.value, k) == Get(doc.value, k)
    ensures !Falsy(doc) && !Contains(doc.value, IdKey) ==> r == doc
    ensures doc.Some? && DistinctKeys(doc.value) ==> r.Some? && DistinctKeys(r.value)
  {
    if Falsy(doc) then doc
    else
      var d := doc.value;
      if Contains(d, IdKey) then Some(Put(d, IdKey, VStr(ToStr(Get(d, IdKey).value)))) else Some(d)
  }

  /** A document that went through `_safe_id` already has a string identity, so
      going through it again changes nothing. */
  lemma SafeIdIdempotent(doc: Option<Doc>)
    ensures SafeId(SafeId(doc)) == SafeId(doc)
  {
    if !Falsy(doc) && Contains(doc.value, IdKey) {
      var d := doc.value;
      var i := IndexOf(d, IdKey);
      var once := d[i := (IdKey, VStr(ToStr(d[i].1)))];
      assert SafeId(doc) == Some(once);
      IndexOfSameKeys(once, d, IdKey);
      assert once[i := (IdKey, VStr(ToStr(once[i].1)))] == once;
    }
  }
}
