/**
 * Stored documents as dictionaries, and the helper that turns one into its
 * public form by renaming the internal `_id` key to `id`.
 */
module Documents {
  import opened Results
  import opened ObjectIds

  /** The values a stored document holds. */
  datatype Value =
    | Null
    | Bool(b: bool)
    | Int(i: int)
    | Str(s: string)
    | Oid(oid: ObjectId)
    | List(items: seq<Value>)
    | Dict(entries: map<string, Value>)

  type Doc = map<string, Value>

  const INTERNAL_ID: string := "_id"
  const PUBLIC_ID: string := "id"

  /** Python truthiness of an optional document: None and `{}` are falsy. */
  predicate IsFalsy(doc: Option<Doc>) {
    doc.None? || doc.value == map[]
  }

  /**
   * `to_public`: a falsy document comes back as it is; otherwise a copy in
   * which `_id`, when present, is removed and `id` holds its string form as
   * produced by `str` (Python's string conversion, a parameter here).
   */
  function ToPublic(doc: Option<Doc>, str: Value -> string): (r: Option<Doc>)
    ensures IsFalsy(doc) ==> r == doc
    ensures !IsFalsy(doc) ==> r.Some? && "_id" !in r.value
    ensures !IsFalsy(doc) && "_id" !in doc.value ==> r == doc
    ensures !IsFalsy(doc) && "_id" in doc.value ==>
              r.value.Keys == doc.value.Keys - {"_id"} + {"id"}
              && r.value["id"] == Str(str(doc.value["_id"]))
    ensures !IsFalsy(doc) ==>
              forall k :: k in doc.value && k != "_id" && k != "id" ==> k in r.value && r.value[k] == doc.value[k]
  {
    if IsFalsy(doc) then doc
    else if INTERNAL_ID in doc.value then
      Some((doc.value - {INTERNAL_ID})[PUBLIC_ID := Str(str(doc.value[INTERNAL_ID]))])
    else doc
  }

  /** A document already in public form is left as it is. */
  lemma ToPublicIdempotent(doc: Option<Doc>, str: Value -> string)
    ensures ToPublic(ToPublic(doc, str), str) == ToPublic(doc, str)
  {
  }

  /**
   * For a stored document, whose `_id` is an ObjectId, the public `id` is the
   * identifier's 24-digit text, from which the identifier can be parsed back.
   */
  lemma PublicIdOfStored(doc: Doc, oid: ObjectId, str: Value -> string)
    requires "_id" in doc && doc["_id"] == Oid(oid)
    requires str(Oid(oid)) == Text(oid)
    ensures var r := ToPublic(Some(doc), str);
            r.Some? && "id" in r.value && "_id" !in r.value
            && r.value["id"].Str? && Parse(r.value["id"].s) == Some(oid)
  {
    ParseText(oid);
  }
}
