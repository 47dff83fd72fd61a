# simdb driver model

simdb persists Go structs as JSON arrays, one file per entity type, and offers
a chainable API over them: `Open(entity)` loads a type's file, `Where` collects
filter clauses, `Get`/`First` narrow the working snapshot, `Raw`/`RawArray`/
`AsEntity` read it, and `Insert`/`Update`/`Delete`/`Upsert` read, change and
rewrite the file. This project models the `Driver` of `simd.go` and proves
what each of those calls does to the driver's state and to the backing file.

## Structure

- `documents.dfy` (module `Documents`): the document value `Doc` (null,
  bool, number, string, array, object, and `Ent`, an entity value stored as
  is), `Entity` (type identity, identifier, fields), the identifier key,
  serialization of an entity, and `Format`, the stand-in for Go's `%v`.
- `errors.dfy` (module `Errors`): the error values, `Option` (with `None`
  for Go's nil error) and `Result`.
- `queries.dfy` (module `Queries`): `Clause`, the clause groups, and how
  `Where` adds a clause at the cursor.
- `records.dfy` (module `Records`): the per-record tests of `Update` and
  `Delete` and the arrays their scans produce, with their properties.
- `store.dfy` (module `Store`): the backing files as a map from type identity
  to `Records(seq<Doc>)` or `Malformed`. It covers load, one-record append and
  whole-array replace (`openDB`, `readAppend`, `writeAll`).
- `driver_spec.dfy` (module `DriverSpec`): the driver's fields as a `State`
  value and one function per operation from old state to new state. The
  lemmas state the properties of these transitions.
- `driver.dfy` (module `Simdb`): class `Driver` with the `simd.go:25-36`
  fields. Its methods update those fields in place. Each method is proved to
  leave `Abs()` equal to the matching `DriverSpec` function of the old state,
  and to keep `Valid()`. The scan loops of `Update` and `Delete` are the
  methods `UpdateScan` and `DeleteScan`. Their loop invariants prove them
  equal to `Records.UpdateRecords` and `Records.Kept`.

## Behaviour as modelled

- The cursor `queryIndex` is only ever set to 0. So every reachable state
  holds at most one clause group, and `Where` always appends to group 0. The
  driver's `Valid()` states this.
- `Update` and `Delete` scan the slice that `RawArray` returns. That slice
  is shared with both snapshots, so the in-place writes `records[indx] =
  entity` show through `Raw()` afterwards. `Update` writes the entity at every
  matching position. `Delete` writes the entity at every position it KEEPS,
  while the file gets only the kept records. The model reproduces both of
  these updates to the snapshots.
- The entity placed in the slice is a Go struct, not a map. It stays a
  distinct value (`Ent`) until it is written. Serialization turns it into an
  object with the identifier under the identifier key.
- `Update` compares identifiers by their `%v` text. `Delete` compares them by
  value equality. `Records.UpdateMatchDeleteKeeps` gives a record that
  `Update` replaces and `Delete` keeps. `Delete` also drops every object that
  lacks the key, and that counts as a deletion. It drops every non-object
  item too, and that does not count.
- The model follows the code as written:
  - `First` on an empty result appends the error "no records to perform
    First operation" (simd.go:153, `NoRecordsForFirst`), not the
    `ErrRecordNotFound` sentinel.
  - `AsEntity` on a nil snapshot returns no error from its guards: a nil
    interface matches no case of the type switch (simd.go:193-202), so the
    snapshot goes on to the JSON conversion as `null`. It returns
    `ErrRecordNotFound` only for an empty array (simd.go:195-196).
  - `Update` does not return a failed load. `Open` records it in the error
    list (simd.go:65-67, 228), `Update` then finds no records and returns
    `ErrUpdateFailed` (simd.go:243), and so `Upsert` falls back to `Insert`
    (simd.go:264-265).
- The clause-evaluation engine (`processQuery`, `queryMap`) is a parameter of
  the driver, `engine`: a function from the clause groups and the pristine
  snapshot to the new working snapshot. Which backing files cannot be
  written is also a parameter, `unwritable`.

## Model

| member | source | states |
|---|---|---|
| Simdb.Driver.constructor | simd.go:42-50 | a new driver has no clauses, cursor 0, nil snapshots, no errors, is not opened, and satisfies the reachability invariant |
| Simdb.Driver.OpenDB | simd.go:61 | loading a type's file: a missing file gives nil without error, a readable one its array, a malformed one a parse error |
| Simdb.Driver.ReadAppend | simd.go:95 | appends the serialized entity to its type's file (creating it if missing), or fails without writing |
| Simdb.Driver.WriteAll | simd.go:241 | replaces the current type's file by the serialized records, or fails without writing |
| Simdb.Driver.Open | simd.go:58-69 | clears the clauses, binds the type, sets both snapshots to the loaded document, marks opened, appends the load error if any |
| Simdb.Driver.Errors | simd.go:72-74 | returns the accumulated error list itself |
| Simdb.Driver.Where | simd.go:102-117 | adds the clause at the cursor as `AddClause` says and keeps at most one group |
| Simdb.Driver.Get | simd.go:128-140 | unopened: no change; with clauses: working := engine(clauses, pristine); without: working := pristine; cursor := 0 |
| Simdb.Driver.First | simd.go:145-157 | after `Get`, a non-empty array result is narrowed to element 0, otherwise exactly one error is appended |
| Simdb.Driver.Raw | simd.go:160-162 | returns the working snapshot unchanged |
| Simdb.Driver.RawArray | simd.go:165-170 | returns the array's records when the working snapshot is an array, the empty sequence otherwise |
| Simdb.Driver.AsEntity | simd.go:189-209 | fails exactly when not opened (NotOpened) or the snapshot is an empty array (RecordNotFound); a nil snapshot succeeds with null; otherwise yields the marshalled snapshot |
| Simdb.Driver.Insert | simd.go:90-97 | binds the type and appends the entity to its file; no uniqueness check |
| Simdb.Driver.Update | simd.go:219-247 | leaves the state `DriverSpec.UpdateState` gives: reload, replace every match in both snapshots, write iff some record matched, else UpdateFailed |
| Simdb.Driver.Upsert | simd.go:262-268 | leaves the state `DriverSpec.UpsertState` gives: Update, then Insert exactly when Update returned UpdateFailed |
| Simdb.Driver.Delete | simd.go:276-306 | leaves the state `DriverSpec.DeleteState` gives: reload, write the kept records iff something was dropped, else a not-found error naming the identifier |
| Simdb.UpdateScan | simd.go:230-239 | the loop's array is the loaded array with every matching position replaced by the entity, and the flag is set iff some position matched |
| Simdb.DeleteScan | simd.go:288-299 | the loop collects exactly the kept records in order, overwrites every kept position by the entity, and sets the flag iff some object was dropped |
| Queries.AddClause | simd.go:108-114 | with no groups at cursor 0: exactly one group holding the clause; otherwise the same number of groups, the cursor's group grown by that clause, all others unchanged |
| Documents.FormatConflates | simd.go:233 | `%v` formatting prints a string and a different number alike |
| Documents.FormatNumInjective | simd.go:233 | two integers whose `%v` texts are equal are equal |
| Documents.FormatNumEqual | simd.go:233 | two integers print alike under `%v` exactly when they are equal |
| Records.UpdateMatchIntegers | simd.go:233 | for a record with an integer identifier, Update matches an integer identifier exactly when the two are equal |
| Records.ReplaceWhereAt | simd.go:231-238 | the in-place rewrite replaces exactly the positions its test selects |
| Records.UpdateRecordsAt | simd.go:231-238 | Update's array has the loaded length, the entity at every matching position (all of them) and the loaded record elsewhere |
| Records.UpdateNoMatch | simd.go:230-239 | with no match the scan changes nothing |
| Records.DeleteOverwriteAt | simd.go:289-293 | Delete's scan overwrites every kept position by the entity and no other |
| Records.Kept | simd.go:289-298 | Delete's output is no longer than its input and holds only keyed objects whose identifier differs from the target |
| Records.KeptAppend | simd.go:289-298 | Delete's output distributes over concatenation, so the original order is kept |
| Records.KeptMembers | simd.go:289-298 | a record is in Delete's output exactly when it is in the input and is a keyed object with a different identifier |
| Records.KeptAll | simd.go:289-298 | Delete's output equals its input exactly when every record is kept |
| Records.KeptShorter | simd.go:288-301 | for an array of objects, Delete finds something to drop exactly when its output is shorter |
| Records.DeleteDropsImpliesUpdateMatch | simd.go:233 | every keyed record that Delete's equality removes, Update's formatted comparison would replace |
| Records.UpdateMatchDeleteKeeps | simd.go:291 | a record with stored number 1 matches Update for the string identifier "1" but Delete keeps it; likewise a stored string "1" against the number 1 |
| Store.Load | simd.go:61 | the load fails exactly on a malformed file; otherwise it yields the file's array, or nil for a missing file |
| Store.Appended | simd.go:95 | the append fails exactly on a malformed or unwritable file; otherwise the file becomes its records plus the serialized entity |
| Store.Written | simd.go:241 | the write fails exactly on an unwritable file; otherwise that file alone becomes the serialized records |
| Store.StoreKeepsDecoded | simd.go:241 | neither append nor replace ever leaves an unserialized entity in a file |
| DriverSpec.WhereAppendsToSingleGroup | simd.go:102-117 | in a reachable state Where never indexes out of range and the clauses become the one group grown by the new clause |
| DriverSpec.OpenLoads | simd.go:58-69 | Open clears the clauses, marks opened, makes both snapshots equal, and appends exactly one error iff the load failed |
| DriverSpec.GetResets | simd.go:128-140 | Get leaves an unopened driver unchanged; opened, it resets the cursor to 0, and without clauses it resets working to pristine; errors and clauses untouched |
| DriverSpec.GetIdempotent | simd.go:128-140 | two consecutive Get calls leave the state one Get leaves |
| DriverSpec.FirstNarrows | simd.go:145-157 | First yields element 0 of Get's non-empty array, otherwise Get's state plus exactly one error |
| DriverSpec.ErrorsNeverCleared | simd.go:65-74 | no operation removes an accumulated error; Open adds at most one |
| DriverSpec.OperationsStayReachable | simd.go:137 | Open, Get, First, Insert, Update, Delete and Upsert keep the cursor at 0, at most one clause group, and serialized files (Where is covered by WhereAppendsToSingleGroup) |
| DriverSpec.UpdateRewritesMatches | simd.go:219-247 | when some loaded record matches, exactly that type's file is replaced by an array of the same length with the serialized entity at every match and the old record elsewhere |
| DriverSpec.UpdateNoMatchFails | simd.go:240-244 | when nothing matches, Update returns UpdateFailed, writes nothing and leaves the loaded snapshots |
| DriverSpec.DeleteWritesKept | simd.go:276-306 | when something is dropped, the file becomes exactly the kept records in order and both snapshots show the entity at every kept position |
| DriverSpec.DeleteNothingFails | simd.go:300-304 | when nothing is dropped, Delete returns the not-found error and writes nothing |
| DriverSpec.DeleteWritesIff | simd.go:288-304 | on a writable file Delete succeeds exactly when some object lacks the key or holds the target identifier |
| DriverSpec.UpsertFallsBack | simd.go:262-268 | Upsert is Insert after Update exactly when Update returned UpdateFailed, and Update's own result otherwise |
| DriverSpec.UpsertRecordCount | simd.go:262-268 | on a writable file, an unmatched identifier gains exactly one record at the end; a matched one keeps the record count |
| DriverSpec.InsertTwo | simd.go:90-97 | inserting A then B into an empty store gives the file [A, B] |
| DriverSpec.DeleteFirstOfTwo | simd.go:276-306 | deleting A from [A, B] leaves [B] |
| DriverSpec.UpdateOnly | simd.go:219-247 | updating B in [B] leaves B's new fields |
| DriverSpec.InsertDeleteUpdateScenario | simd.go:90-306 | insert A and B, delete A, update B: the file holds B, then B's new version |

## Left out

- The directory, `New`'s directory creation and file naming are I/O setup.
  The driver is built from the files' contents instead.
- JSON encoding and decoding are not modelled. A file is its decoded record
  array, or `Malformed`. `AsEntity` stops at the value it would marshal; the
  unmarshalling into the caller's struct and its errors are out.
  For a nil snapshot that value is `null`. `json.Unmarshal` of `null` then
  sets a slice, map or pointer output to nil and leaves a struct unchanged.
  The model stops before that step.
- Simdb.Driver.AsEntity: does not model a `json.Marshal` failure.
- `processQuery` and the operator map are not part of this model. `Get` with
  clauses calls the abstract `engine`, with no promise about which records it
  keeps, and any error it would record is out.
- `isDBOpened` is not part of this model's source. `Get`, `First` and
  `AsEntity` (simd.go:129, 146, 190) treat it as a plain read of `isOpened`
  with no side effect, and `DriverSpec.GetResets`, `DriverSpec.FirstNarrows`
  and `DriverSpec.ErrorsNeverCleared` rest on that for an unopened driver.
- The mutex exists only for concurrent callers. The model is sequential.
- `elemental.Identifiable` is an entity's identity string plus an identifier
  value. `getEntityName` and the text of Delete's error message are out;
  the error carries the identifier only.
- Documents.Format: renders numbers as integers and gives composite values a
  fixed marker per kind. Go's float64 formatting and its text for maps and
  slices are out.
- Go's `!=` in Delete is `Doc` equality. Two things are out. JSON numbers
  decode as float64, so an integer identifier never equals a stored one in
  Go. Comparing two slices or maps panics at run time in Go.
- Store.Appended, Store.Written: I/O failures are a fixed set of unwritable
  identities. A write that fails part way is out.
- An entity value nested inside another document is serialized only at the
  top level of a record array. That is the only place the driver puts one.
