/** The driver's state as a value, what each operation makes of it, and the
    properties of those transitions. The class in module Simdb is proved to
    follow these functions. */
module DriverSpec {
  import opened Documents
  import opened Errors
  import opened Queries
  import opened Records
  import opened Store

  /** The client-visible fields of a driver, with the backing store. */
  datatype State = State(
    queries: seq<seq<Clause>>,
    queryIndex: int,
    jsonContent: Doc,       // the working snapshot
    errors: seq<Error>,
    originalJSON: Doc,      // the pristine snapshot
    isOpened: bool,
    entityDealingWith: string,
    files: Files)

  /** What every state reached from construction satisfies: the cursor is only
      ever reset to 0, so at most one clause group exists, and the files hold
      decoded JSON. */
  predicate Reachable(s: State) {
    s.queryIndex == 0 && |s.queries| <= 1 && FilesDecoded(s.files)
  }

  /** A freshly constructed driver over the given directory contents. */
  function Initial(files: Files): State {
    State([], 0, Null, [], Null, false, "", files)
  }

  function WhereState(s: State, c: Clause): State
    requires CursorInRange(s.queries, s.queryIndex)
  {
    s.(queries := AddClause(s.queries, s.queryIndex, c))
  }

  function OpenState(s: State, e: Entity): State {
    var loaded := Load(s.files, e.identity);
    s.(queries := [], entityDealingWith := e.identity,
       originalJSON := loaded.0, jsonContent := loaded.0, isOpened := true,
       errors := if loaded.1.Some? then s.errors + [loaded.1.value] else s.errors)
  }

  function GetState(s: State, engine: QueryEngine): State {
    if !s.isOpened then s
    else s.(jsonContent := if |s.queries| > 0 then engine(s.queries, s.originalJSON) else s.originalJSON,
            queryIndex := 0)
  }

  function FirstState(s: State, engine: QueryEngine): State {
    if !s.isOpened then s
    else
      var g := GetState(s, engine);
      var records := ArrayView(g.jsonContent);
      if |records| > 0 then g.(jsonContent := records[0])
      else g.(errors := g.errors + [NoRecordsForFirst])
  }

  function InsertState(s: State, e: Entity, unwritable: set<string>): (State, Option<Error>) {
    var appended := Appended(s.files, unwritable, e);
    (s.(entityDealingWith := e.identity, files := appended.0), appended.1)
  }

  /** Update and Delete start by clearing the clauses, reopening the entity's
      type and calling Get. */
  function Reloaded(s: State, e: Entity, engine: QueryEngine): State {
    GetState(OpenState(s.(queries := [], entityDealingWith := e.identity), e), engine)
  }

  /** The scan rewrites the loaded slice in place, and both snapshots share it. */
  function Rewritten(s: State, rs: seq<Doc>): State {
    if s.jsonContent.Arr? then s.(originalJSON := Arr(rs), jsonContent := Arr(rs)) else s
  }

  function UpdateState(s: State, e: Entity, engine: QueryEngine, unwritable: set<string>): (State, Option<Error>) {
    var r := Reloaded(s, e, engine);
    var records := ArrayView(r.jsonContent);
    var t := Rewritten(r, UpdateRecords(records, e));
    if AnyUpdateMatch(records, e.identifier) then
      var written := Written(t.files, unwritable, t.entityDealingWith, UpdateRecords(records, e));
      (t.(files := written.0), written.1)
    else (t, Some(UpdateFailed))
  }

  function DeleteState(s: State, e: Entity, engine: QueryEngine, unwritable: set<string>): (State, Option<Error>) {
    var r := Reloaded(s, e, engine);
    var records := ArrayView(r.jsonContent);
    var t := Rewritten(r, DeleteOverwrite(records, e));
    if CouldDelete(records, e.identifier) then
      var written := Written(t.files, unwritable, t.entityDealingWith, Kept(records, e.identifier));
      (t.(files := written.0), written.1)
    else (t, Some(DeleteNotFound(e.identifier)))
  }

  function UpsertState(s: State, e: Entity, engine: QueryEngine, unwritable: set<string>): (State, Option<Error>) {
    var updated := UpdateState(s, e, engine, unwritable);
    if updated.1 == Some(UpdateFailed) then InsertState(updated.0, e, unwritable) else updated
  }

  // ----- Where -----

  /** In a reachable state Where never indexes out of range, appends the clause
      to the single group, and keeps the state reachable. */
  lemma WhereAppendsToSingleGroup(s: State, c: Clause)
    requires Reachable(s)
    ensures CursorInRange(s.queries, s.queryIndex)
    ensures Reachable(WhereState(s, c))
    ensures WhereState(s, c).queries == [(if s.queries == [] then [] else s.queries[0]) + [c]]
  {
    if s.queries == [] {
      assert [] + [c] == [c];
    } else {
      assert WhereState(s, c).queries == [s.queries[0] + [c]];
    }
  }

  // ----- Open, Get, First -----

  /** Open clears the clauses, marks the driver opened, loads both snapshots
      alike, and records at most one error, exactly when the load failed. */
  lemma OpenLoads(s: State, e: Entity)
    ensures var t := OpenState(s, e);
            t.queries == [] && t.isOpened && t.originalJSON == t.jsonContent &&
            t.entityDealingWith == e.identity && t.files == s.files && t.queryIndex == s.queryIndex
    ensures var t := OpenState(s, e);
            if e.identity in s.files && s.files[e.identity].Malformed?
            then t.errors == s.errors + [ParseFailed(e.identity)] && t.jsonContent == Null
            else t.errors == s.errors && t.jsonContent == Load(s.files, e.identity).0
  {
  }

  /** Get on an unopened driver changes nothing; without clauses it resets the
      working snapshot to the pristine one; either way the cursor is 0 after. */
  lemma GetResets(s: State, engine: QueryEngine)
    ensures !s.isOpened ==> GetState(s, engine) == s
    ensures s.isOpened ==> GetState(s, engine).queryIndex == 0
    ensures s.isOpened && s.queries == [] ==> GetState(s, engine).jsonContent == s.originalJSON
    ensures GetState(s, engine).errors == s.errors && GetState(s, engine).queries == s.queries
  {
  }

  /** Two Get calls in a row leave the state one Get leaves. */
  lemma GetIdempotent(s: State, engine: QueryEngine)
    ensures GetState(GetState(s, engine), engine) == GetState(s, engine)
  {
  }

  /** First narrows to element 0 of what Get leaves if that is a non-empty
      array; otherwise it adds exactly one error and keeps Get's snapshot. */
  lemma FirstNarrows(s: State, engine: QueryEngine)
    requires s.isOpened
    ensures var g := GetState(s, engine);
            var t := FirstState(s, engine);
            if g.jsonContent.Arr? && |g.jsonContent.items| > 0
            then t == g.(jsonContent := g.jsonContent.items[0])
            else t.jsonContent == g.jsonContent && t.errors == g.errors + [NoRecordsForFirst] &&
                 t == g.(errors := t.errors)
  {
  }

  // ----- the accumulated errors -----

  /** No operation ever removes an accumulated error. */
  lemma ErrorsNeverCleared(s: State, e: Entity, c: Clause, engine: QueryEngine, unwritable: set<string>)
    ensures CursorInRange(s.queries, s.queryIndex) ==> WhereState(s, c).errors == s.errors
    ensures s.errors <= OpenState(s, e).errors && |OpenState(s, e).errors| <= |s.errors| + 1
    ensures GetState(s, engine).errors == s.errors
    ensures s.errors <= FirstState(s, engine).errors
    ensures InsertState(s, e, unwritable).0.errors == s.errors
    ensures s.errors <= UpdateState(s, e, engine, unwritable).0.errors
    ensures s.errors <= DeleteState(s, e, engine, unwritable).0.errors
    ensures s.errors <= UpsertState(s, e, engine, unwritable).0.errors
  {
  }

  // ----- reachability -----

  /** Every operation keeps the driver in a reachable state. */
  lemma OperationsStayReachable(s: State, e: Entity, engine: QueryEngine, unwritable: set<string>)
    requires Reachable(s)
    ensures Reachable(OpenState(s, e))
    ensures Reachable(GetState(s, engine))
    ensures Reachable(FirstState(s, engine))
    ensures Reachable(InsertState(s, e, unwritable).0)
    ensures Reachable(UpdateState(s, e, engine, unwritable).0)
    ensures Reachable(DeleteState(s, e, engine, unwritable).0)
    ensures Reachable(UpsertState(s, e, engine, unwritable).0)
  {
    var r := Reloaded(s, e, engine);
    var records := ArrayView(r.jsonContent);
    StoreKeepsDecoded(s.files, unwritable, e, e.identity, UpdateRecords(records, e));
    StoreKeepsDecoded(s.files, unwritable, e, e.identity, Kept(records, e.identifier));
    var u := UpdateState(s, e, engine, unwritable).0;
    StoreKeepsDecoded(u.files, unwritable, e, e.identity, []);
  }

  // ----- Update -----

  /** When some record of the loaded file matches, Update writes an array of
      the same length in which every matching position holds the entity and
      every other position is unchanged. */
  lemma UpdateRewritesMatches(s: State, e: Entity, engine: QueryEngine, unwritable: set<string>, rs: seq<Doc>)
    requires Reachable(s)
    requires e.identity in s.files && s.files[e.identity] == Records(rs)
    requires e.identity !in unwritable
    requires AnyUpdateMatch(rs, e.identifier)
    ensures var (t, err) := UpdateState(s, e, engine, unwritable);
            err.None? && t.files == s.files[e.identity := Records(EncodeAll(UpdateRecords(rs, e)))] &&
            |t.files[e.identity].docs| == |rs| &&
            (forall i :: 0 <= i < |rs| && UpdateMatch(rs[i], e.identifier) ==> t.files[e.identity].docs[i] == Serialize(e)) &&
            (forall i :: 0 <= i < |rs| && !UpdateMatch(rs[i], e.identifier) ==> t.files[e.identity].docs[i] == rs[i])
  {
    var t := UpdateState(s, e, engine, unwritable).0;
    var docs := EncodeAll(UpdateRecords(rs, e));
    assert t.files == s.files[e.identity := Records(docs)];
    forall i | 0 <= i < |rs|
      ensures UpdateMatch(rs[i], e.identifier) ==> docs[i] == Serialize(e)
      ensures !UpdateMatch(rs[i], e.identifier) ==> docs[i] == rs[i]
    {
      UpdateRecordsAt(rs, e, i);
    }
  }

  /** When nothing matches, Update fails with UpdateFailed, writes nothing, and
      leaves both snapshots as freshly loaded. */
  lemma UpdateNoMatchFails(s: State, e: Entity, engine: QueryEngine, unwritable: set<string>)
    requires !AnyUpdateMatch(ArrayView(Load(s.files, e.identity).0), e.identifier)
    ensures var (t, err) := UpdateState(s, e, engine, unwritable);
            err == Some(UpdateFailed) && t.files == s.files &&
            t.jsonContent == t.originalJSON == Load(s.files, e.identity).0
  {
    UpdateNoMatch(ArrayView(Load(s.files, e.identity).0), e);
  }

  // ----- Delete -----

  /** When the loaded file has something to remove, Delete writes exactly the
      kept records in their original order, and, as written, leaves both
      snapshots with the entity at every kept position. */
  lemma DeleteWritesKept(s: State, e: Entity, engine: QueryEngine, unwritable: set<string>, rs: seq<Doc>)
    requires e.identity in s.files && s.files[e.identity] == Records(rs)
    requires e.identity !in unwritable
    requires CouldDelete(rs, e.identifier)
    ensures var (t, err) := DeleteState(s, e, engine, unwritable);
            err.None? && t.files == s.files[e.identity := Records(Kept(rs, e.identifier))] &&
            t.jsonContent == t.originalJSON == Arr(DeleteOverwrite(rs, e))
  {
    var kept := Kept(rs, e.identifier);
    forall i | 0 <= i < |kept| ensures !kept[i].Ent? {
      assert kept[i] in kept;
    }
    EncodeAllDecoded(kept);
  }

  /** When nothing is to be removed, Delete reports the identifier it did not
      find and writes nothing. */
  lemma DeleteNothingFails(s: State, e: Entity, engine: QueryEngine, unwritable: set<string>)
    requires !CouldDelete(ArrayView(Load(s.files, e.identity).0), e.identifier)
    ensures var (t, err) := DeleteState(s, e, engine, unwritable);
            err == Some(DeleteNotFound(e.identifier)) && t.files == s.files
  {
  }

  /** Delete writes the file exactly when some object record lacks the key or
      holds the target identifier. */
  lemma DeleteWritesIff(s: State, e: Entity, engine: QueryEngine, unwritable: set<string>)
    requires e.identity !in unwritable
    ensures var rs := ArrayView(Load(s.files, e.identity).0);
            DeleteState(s, e, engine, unwritable).1.None? <==> CouldDelete(rs, e.identifier)
  {
  }

  // ----- Upsert -----

  /** Upsert inserts exactly when Update failed with UpdateFailed, and then
      starts from the state that Update left; otherwise it is Update. */
  lemma UpsertFallsBack(s: State, e: Entity, engine: QueryEngine, unwritable: set<string>)
    ensures var updated := UpdateState(s, e, engine, unwritable);
            updated.1 == Some(UpdateFailed) ==>
              UpsertState(s, e, engine, unwritable) == InsertState(updated.0, e, unwritable)
    ensures var updated := UpdateState(s, e, engine, unwritable);
            updated.1 != Some(UpdateFailed) ==> UpsertState(s, e, engine, unwritable) == updated
  {
  }

  /** On a writable file: an identifier nobody matches gains exactly one
      record at the end; a matched one keeps the record count. */
  lemma UpsertRecordCount(s: State, e: Entity, engine: QueryEngine, unwritable: set<string>, rs: seq<Doc>)
    requires Reachable(s)
    requires e.identity in s.files && s.files[e.identity] == Records(rs)
    requires e.identity !in unwritable
    ensures var (t, err) := UpsertState(s, e, engine, unwritable);
            err.None? && e.identity in t.files && t.files[e.identity].Records? &&
            (!AnyUpdateMatch(rs, e.identifier) ==> t.files[e.identity] == Records(rs + [Serialize(e)])) &&
            (AnyUpdateMatch(rs, e.identifier) ==> |t.files[e.identity].docs| == |rs|)
  {
    if AnyUpdateMatch(rs, e.identifier) {
      UpdateRewritesMatches(s, e, engine, unwritable, rs);
    } else {
      UpdateNoMatchFails(s, e, engine, unwritable);
    }
  }

  // ----- a worked call sequence -----

  function EntityA(): Entity { Entity("T", Str("A"), map["name" := Str("x")]) }
  function EntityB(): Entity { Entity("T", Str("B"), map["name" := Str("y")]) }
  function EntityB2(): Entity { Entity("T", Str("B"), map["name" := Str("z")]) }

  /** Inserting A then B into an empty store gives a file holding both, in order. */
  lemma InsertTwo()
    ensures var s := InsertState(InsertState(Initial(map[]), EntityA(), {}).0, EntityB(), {}).0;
            Reachable(s) && s.files == map["T" := Records([Serialize(EntityA()), Serialize(EntityB())])]
  {
    assert [] + [Serialize(EntityA())] == [Serialize(EntityA())];
    assert [Serialize(EntityA())] + [Serialize(EntityB())] == [Serialize(EntityA()), Serialize(EntityB())];
  }

  /** Deleting A from the file [A, B] leaves [B]. */
  lemma DeleteFirstOfTwo(s: State, engine: QueryEngine)
    requires s.files == map["T" := Records([Serialize(EntityA()), Serialize(EntityB())])]
    ensures DeleteState(s, EntityA(), engine, {}).0.files == map["T" := Records([Serialize(EntityB())])]
  {
    var sa, sb := Serialize(EntityA()), Serialize(EntityB());
    assert DeleteDrops(sa, Str("A")) && DeleteKeeps(sb, Str("A"));
    assert [sa, sb][..1] == [sa];
    assert Kept([sa, sb], Str("A")) == [sb];
    DeleteWritesKept(s, EntityA(), engine, {}, [sa, sb]);
  }

  /** Updating B in the file [B] replaces it by B's new fields. */
  lemma UpdateOnly(s: State, engine: QueryEngine)
    requires Reachable(s)
    requires s.files == map["T" := Records([Serialize(EntityB())])]
    ensures UpdateState(s, EntityB2(), engine, {}).0.files == map["T" := Records([Serialize(EntityB2())])]
  {
    var sb := Serialize(EntityB());
    assert UpdateMatch([sb][0], Str("B"));
    UpdateRewritesMatches(s, EntityB2(), engine, {}, [sb]);
    var docs := UpdateState(s, EntityB2(), engine, {}).0.files["T"].docs;
    assert docs == [Serialize(EntityB2())];
  }

  /** Insert A and B into an empty store, delete A, then update B: the file
      holds B alone, then B's new fields. */
  lemma InsertDeleteUpdateScenario(engine: QueryEngine)
    ensures var s2 := InsertState(InsertState(Initial(map[]), EntityA(), {}).0, EntityB(), {}).0;
            var s3 := DeleteState(s2, EntityA(), engine, {}).0;
            s3.files == map["T" := Records([Serialize(EntityB())])] &&
            UpdateState(s3, EntityB2(), engine, {}).0.files == map["T" := Records([Serialize(EntityB2())])]
  {
    InsertTwo();
    var s2 := InsertState(InsertState(Initial(map[]), EntityA(), {}).0, EntityB(), {}).0;
    DeleteFirstOfTwo(s2, engine);
    var s3 := DeleteState(s2, EntityA(), engine, {}).0;
    OperationsStayReachable(s2, EntityA(), engine, {});
    UpdateOnly(s3, engine);
  }
}
