/** Documents of a revision-tree (MVCC) store as the conflict resolver sees them:
    JSON field values, documents with their identity fields, and the branch entries
    returned by an "all open revisions" fetch. */
module Documents {

  datatype Option<T> = None | Some(value: T)

  /** A JSON value. Numbers are restricted to integers (no floating point, no NaN). */
  datatype Value =
    | Null
    | Bool(b: bool)
    | Num(n: int)
    | Str(s: string)
    | Arr(items: seq<Value>)
    | Obj(members: map<string, Value>)

  /** JavaScript truthiness: `false`, `0`, `""` and `null` are falsy, every array and
      object is truthy. A key that is absent reads as `undefined`, which is falsy too. */
  predicate Truthy(v: Value) {
    match v
    case Null => false
    case Bool(b) => b
    case Num(n) => n != 0
    case Str(s) => s != ""
    case Arr(_) => true
    case Obj(_) => true
  }

  const IdKey: string := "_id"
  const RevKey: string := "_rev"
  const DeletedKey: string := "_deleted"

  /** The two identity keys that field copying never touches. */
  predicate IsIdentityKey(k: string) {
    k == IdKey || k == RevKey
  }

  /** A document: its `_id`, its `_rev`, and every other key of the JSON object
      (including `_deleted` when the store sets it) in `fields`. */
  datatype Doc = Doc(id: string, rev: string, fields: map<string, Value>)

  /** The identity keys are held only by `id` and `rev`, never in `fields`. */
  predicate WellFormed(d: Doc) {
    IdKey !in d.fields && RevKey !in d.fields
  }

  /** `doc._deleted` is truthy. */
  predicate Deleted(d: Doc) {
    DeletedKey in d.fields && Truthy(d.fields[DeletedKey])
  }

  /** One entry of an `open_revs=all` fetch: a leaf document under `ok`, or a
      revision the store could not materialise (no `ok` member). */
  datatype Branch = Found(ok: Doc) | Missing(missing: string)

  /** The result of a call to the store: the data, or an error. */
  datatype Fetch<T> = Fetched(value: T) | FetchFailed

  /** What a strategy hands back: one of the two informational callback messages
      ("Document is not conflicted." and "Document could not be fetched"), or the
      documents of the single bulk write it issues. */
  datatype Outcome =
    | NotConflicted
    | FetchError
    | Batch(docs: seq<Doc>)
}
