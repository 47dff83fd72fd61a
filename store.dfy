/** The backing store: one JSON array file per entity type identity, read and
    rewritten whole. */
module Store {
  import opened Documents
  import opened Errors

  /** A backing file either holds a decoded record array or is not valid JSON. */
  datatype StoredFile = Records(docs: seq<Doc>) | Malformed

  /** The store directory: file content by entity type identity; an absent key
      is a file that does not exist yet. */
  type Files = map<string, StoredFile>

  /** Every record array in the store is decoded JSON (holds no entity value). */
  predicate FilesDecoded(files: Files) {
    forall identity :: identity in files && files[identity].Records? ==> Decoded(files[identity].docs)
  }

  /** Loading a type's file (openDB): a missing file loads as nothing without
      error, a readable one as its array, a malformed one fails. */
  function Load(files: Files, identity: string): (r: (Doc, Option<Error>))
    ensures r.1.None? <==> !(identity in files && files[identity].Malformed?)
    ensures r.1.Some? ==> r == (Null, Some(ParseFailed(identity)))
    ensures r.1.None? && identity in files ==> r.0 == Arr(files[identity].docs)
    ensures identity !in files ==> r.0 == Null
  {
    if identity !in files then (Null, None)
    else match files[identity]
      case Records(docs) => (Arr(docs), None)
      case Malformed => (Null, Some(ParseFailed(identity)))
  }

  /** The records a type's file holds; none when it is missing or malformed. */
  function Existing(files: Files, identity: string): seq<Doc> {
    if identity in files && files[identity].Records? then files[identity].docs else []
  }

  /** Appending one serialized entity to its type's file (readAppend). */
  function Appended(files: Files, unwritable: set<string>, e: Entity): (r: (Files, Option<Error>))
    ensures r.1.None? ==> r.0 == files[e.identity := Records(Existing(files, e.identity) + [Serialize(e)])]
    ensures r.1.Some? ==> r.0 == files
    ensures r.1.None? <==> e.identity !in unwritable && !(e.identity in files && files[e.identity].Malformed?)
  {
    if e.identity in files && files[e.identity].Malformed? then (files, Some(ParseFailed(e.identity)))
    else if e.identity in unwritable then (files, Some(WriteFailed(e.identity)))
    else (files[e.identity := Records(Existing(files, e.identity) + [Serialize(e)])], None)
  }

  /** Replacing a type's whole file by a record array (writeAll). */
  function Written(files: Files, unwritable: set<string>, identity: string, rs: seq<Doc>): (r: (Files, Option<Error>))
    ensures r.1.None? <==> identity !in unwritable
    ensures r.1.None? ==> r.0 == files[identity := Records(EncodeAll(rs))]
    ensures r.1.Some? ==> r == (files, Some(WriteFailed(identity)))
  {
    if identity in unwritable then (files, Some(WriteFailed(identity)))
    else (files[identity := Records(EncodeAll(rs))], None)
  }

  /** Neither store operation ever leaves an entity value in a file. */
  lemma StoreKeepsDecoded(files: Files, unwritable: set<string>, e: Entity, identity: string, rs: seq<Doc>)
    requires FilesDecoded(files)
    ensures FilesDecoded(Appended(files, unwritable, e).0)
    ensures FilesDecoded(Written(files, unwritable, identity, rs).0)
  {
  }
}
