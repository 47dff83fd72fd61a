/** The database driver: one object whose methods update its query, snapshot
    and error fields in place and read and rewrite its type's backing file. */
module Simdb {
  import opened Documents
  import opened Errors
  import opened Queries
  import opened Records
  import opened Store
  import opened DriverSpec

  class Driver {
    var queries: seq<seq<Clause>>
    var queryIndex: int
    var jsonContent: Doc          // the working snapshot, refined by Get and First
    var errors: seq<Error>
    var originalJSON: Doc         // the pristine snapshot, as loaded by Open
    var isOpened: bool
    var entityDealingWith: string
    /** The directory's backing files, by entity type identity. */
    var files: Files
    /** Stands in for the operator map and the clause evaluation of processQuery. */
    const engine: QueryEngine
    /** The identities whose backing file cannot be written. */
    const unwritable: set<string>

    ghost function Abs(): State
      reads this
    {
      State(queries, queryIndex, jsonContent, errors, originalJSON, isOpened, entityDealingWith, files)
    }

    ghost predicate Valid()
      reads this
    {
      Reachable(Abs())
    }

    /** A driver over a directory whose files hold the given record arrays. */
    constructor (engine: QueryEngine, unwritable: set<string>, files: Files)
      requires FilesDecoded(files)
      ensures Valid() && Abs() == Initial(files)
      ensures this.engine == engine && this.unwritable == unwritable
    {
      queries := [];
      queryIndex := 0;
      jsonContent := Null;
      errors := [];
      originalJSON := Null;
      isOpened := false;
      entityDealingWith := "";
      this.files := files;
      this.engine := engine;
      this.unwritable := unwritable;
    }

    // ----- the backing store -----

    /** Loads the entity type's file. */
    method OpenDB(e: Entity) returns (db: Doc, err: Option<Error>)
      ensures (db, err) == Load(files, e.identity)
      ensures err.None? ==> db.Null? || db.Arr?
    {
      var loaded := Load(files, e.identity);
      db, err := loaded.0, loaded.1;
    }

    /** Appends one serialized entity to its type's file. */
    method ReadAppend(e: Entity) returns (err: Option<Error>)
      modifies this`files
      ensures (files, err) == Appended(old(files), unwritable, e)
    {
      var appended := Appended(files, unwritable, e);
      files, err := appended.0, appended.1;
    }

    /** Replaces the current type's file by the given records. */
    method WriteAll(records: seq<Doc>) returns (err: Option<Error>)
      modifies this`files
      ensures (files, err) == Written(old(files), unwritable, entityDealingWith, records)
    {
      var written := Written(files, unwritable, entityDealingWith, records);
      files, err := written.0, written.1;
    }

    // ----- the chainable read path -----

    method Open(e: Entity)
      requires Valid()
      modifies this
      ensures Valid()
      ensures Abs() == OpenState(old(Abs()), e)
    {
      queries := [];
      entityDealingWith := e.identity;
      var db, err := OpenDB(e);
      originalJSON := db;
      jsonContent := originalJSON;
      isOpened := true;
      if err.Some? {
        errors := errors + [err.value];
      }
    }

    /** The accumulated errors; no operation removes one (ErrorsNeverCleared). */
    function Errors(): (r: seq<Error>)
      reads this
      ensures r == errors
    {
      errors
    }

    method Where(key: string, cond: string, val: Doc)
      requires Valid()
      modifies this
      ensures Valid()
      ensures Abs() == WhereState(old(Abs()), Clause(key, cond, val))
    {
      WhereAppendsToSingleGroup(Abs(), Clause(key, cond, val));
      var q := Clause(key, cond, val);
      if queryIndex == 0 && |queries| == 0 {
        queries := queries + [[q]];
      } else {
        queries := queries[queryIndex := queries[queryIndex] + [q]];
      }
    }

    method Get()
      requires Valid()
      modifies this
      ensures Valid()
      ensures Abs() == GetState(old(Abs()), engine)
    {
      if !isOpened {
        return;
      }
      if |queries| > 0 {
        jsonContent := engine(queries, originalJSON);
      } else {
        jsonContent := originalJSON;
      }
      queryIndex := 0;
    }

    method First()
      requires Valid()
      modifies this
      ensures Valid()
      ensures Abs() == FirstState(old(Abs()), engine)
    {
      if !isOpened {
        return;
      }
      Get();
      var records := RawArray();
      if |records| > 0 {
        jsonContent := records[0];
      } else {
        errors := errors + [NoRecordsForFirst];
      }
    }

    /** The working snapshot, whatever its shape. */
    function Raw(): (r: Doc)
      reads this
      ensures r == jsonContent
    {
      jsonContent
    }

    /** The working snapshot's records, or none when it is not an array. */
    function RawArray(): (r: seq<Doc>)
      reads this
      ensures jsonContent.Arr? ==> r == jsonContent.items
      ensures !jsonContent.Arr? ==> r == []
    {
      ArrayView(jsonContent)
    }

    /** The guards before converting the working snapshot into the caller's
        value; on success, the JSON value that conversion starts from. */
    function AsEntity(): (r: Result<Doc>)
      reads this
      ensures r.Err? <==> !isOpened || jsonContent == Arr([])
      ensures !isOpened ==> r == Err(NotOpened)
      ensures isOpened && jsonContent == Arr([]) ==> r == Err(RecordNotFound)
      ensures isOpened && jsonContent == Null ==> r == Ok(Null)
      ensures r.Ok? ==> r.value == Marshal(jsonContent)
    {
      if !isOpened then Err(NotOpened)
      else if jsonContent.Arr? && |jsonContent.items| <= 0 then Err(RecordNotFound)
      else Ok(Marshal(jsonContent))
    }

    // ----- the mutating operations -----

    method Insert(e: Entity) returns (err: Option<Error>)
      requires Valid()
      modifies this
      ensures Valid()
      ensures (Abs(), err) == InsertState(old(Abs()), e, unwritable)
    {
      OperationsStayReachable(Abs(), e, engine, unwritable);
      entityDealingWith := e.identity;
      err := ReadAppend(e);
    }

    method Update(e: Entity) returns (err: Option<Error>)
      requires Valid()
      modifies this
      ensures Valid()
      ensures (Abs(), err) == UpdateState(old(Abs()), e, engine, unwritable)
    {
      OperationsStayReachable(Abs(), e, engine, unwritable);
      ghost var reloaded := Reloaded(Abs(), e, engine);
      queries := [];
      entityDealingWith := e.identity;
      var couldUpdate := false;
      Open(e);
      Get();
      assert Abs() == reloaded;
      var records := RawArray();
      ghost var loaded := records;
      if |records| > 0 {
        records, couldUpdate := UpdateScan(records, e);
        // The scan wrote into the slice that both snapshots share.
        originalJSON := Arr(records);
        jsonContent := Arr(records);
      }
      assert Abs() == Rewritten(reloaded, UpdateRecords(loaded, e));
      if couldUpdate {
        err := WriteAll(records);
      } else {
        err := Some(UpdateFailed);
      }
    }

    method Upsert(e: Entity) returns (err: Option<Error>)
      requires Valid()
      modifies this
      ensures Valid()
      ensures (Abs(), err) == UpsertState(old(Abs()), e, engine, unwritable)
    {
      err := Update(e);
      if err == Some(UpdateFailed) {
        err := Insert(e);
      }
    }

    method Delete(e: Entity) returns (err: Option<Error>)
      requires Valid()
      modifies this
      ensures Valid()
      ensures (Abs(), err) == DeleteState(old(Abs()), e, engine, unwritable)
    {
      OperationsStayReachable(Abs(), e, engine, unwritable);
      ghost var reloaded := Reloaded(Abs(), e, engine);
      queries := [];
      entityDealingWith := e.identity;
      var couldDelete := false;
      var newRecordArray: seq<Doc> := [];
      Open(e);
      Get();
      assert Abs() == reloaded;
      var records := RawArray();
      ghost var loaded := records;
      if |records| > 0 {
        records, newRecordArray, couldDelete := DeleteScan(records, e);
        // Kept positions were overwritten in the slice that both snapshots share.
        originalJSON := Arr(records);
        jsonContent := Arr(records);
      }
      assert Abs() == Rewritten(reloaded, DeleteOverwrite(loaded, e));
      if couldDelete {
        err := WriteAll(newRecordArray);
      } else {
        err := Some(DeleteNotFound(e.identifier));
      }
    }
  }

  /** Update's scan over the loaded records: every record whose identifier
      prints like the entity's is overwritten by the entity. */
  method UpdateScan(loaded: seq<Doc>, e: Entity) returns (records: seq<Doc>, couldUpdate: bool)
    ensures records == UpdateRecords(loaded, e)
    ensures couldUpdate <==> AnyUpdateMatch(loaded, e.identifier)
  {
    var entityID := e.identifier;
    records := loaded;
    couldUpdate := false;
    var indx := 0;
    while indx < |records|
      invariant 0 <= indx <= |records| == |loaded|
      invariant forall j :: 0 <= j < indx && UpdateMatch(loaded[j], entityID) ==> records[j] == Ent(e)
      invariant forall j :: 0 <= j < indx && !UpdateMatch(loaded[j], entityID) ==> records[j] == loaded[j]
      invariant forall j :: indx <= j < |records| ==> records[j] == loaded[j]
      invariant couldUpdate <==> exists j :: 0 <= j < indx && UpdateMatch(loaded[j], entityID)
    {
      var item := records[indx];
      if item.Obj? {
        var record := item.fields;
        if IdentifierKey in record && Format(record[IdentifierKey]) == Format(entityID) {
          records := records[indx := Ent(e)];
          couldUpdate := true;
        }
      }
      indx := indx + 1;
    }
    forall i | 0 <= i < |loaded| ensures records[i] == UpdateRecords(loaded, e)[i] {
      UpdateRecordsAt(loaded, e, i);
    }
  }

  /** Delete's scan over the loaded records: the kept records are collected in
      order, and, as in the source, each kept position is also overwritten by
      the entity. */
  method DeleteScan(loaded: seq<Doc>, e: Entity) returns (records: seq<Doc>, newRecordArray: seq<Doc>, couldDelete: bool)
    ensures records == DeleteOverwrite(loaded, e)
    ensures newRecordArray == Kept(loaded, e.identifier)
    ensures couldDelete <==> CouldDelete(loaded, e.identifier)
  {
    var entityID := e.identifier;
    records := loaded;
    newRecordArray := [];
    couldDelete := false;
    var indx := 0;
    while indx < |records|
      invariant 0 <= indx <= |records| == |loaded|
      invariant newRecordArray == Kept(loaded[..indx], entityID)
      invariant forall j :: 0 <= j < indx && DeleteKeeps(loaded[j], entityID) ==> records[j] == Ent(e)
      invariant forall j :: 0 <= j < indx && !DeleteKeeps(loaded[j], entityID) ==> records[j] == loaded[j]
      invariant forall j :: indx <= j < |records| ==> records[j] == loaded[j]
      invariant couldDelete <==> exists j :: 0 <= j < indx && DeleteDrops(loaded[j], entityID)
    {
      assert loaded[..indx + 1][..indx] == loaded[..indx];
      var item := records[indx];
      if item.Obj? {
        var record := item.fields;
        if IdentifierKey in record && record[IdentifierKey] != entityID {
          records := records[indx := Ent(e)];
          newRecordArray := newRecordArray + [item];
        } else {
          couldDelete := true;
        }
      }
      indx := indx + 1;
    }
    assert loaded[..|loaded|] == loaded;
    forall i | 0 <= i < |loaded| ensures records[i] == DeleteOverwrite(loaded, e)[i] {
      DeleteOverwriteAt(loaded, e, i);
    }
  }
}
