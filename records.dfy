/** The per-record decisions of Update and Delete, and what their scans produce. */
module Records {
  import opened Documents

  /** A record is a JSON object that holds the identifier key. */
  predicate HasKey(item: Doc) {
    item.Obj? && IdentifierKey in item.fields
  }

  /** Update's test: the record's identifier prints like the entity's. */
  predicate UpdateMatch(item: Doc, id: Doc) {
    HasKey(item) && Format(item.fields[IdentifierKey]) == Format(id)
  }

  /** Delete's test for keeping an object: it has the key and its value differs. */
  predicate DeleteKeeps(item: Doc, id: Doc) {
    HasKey(item) && item.fields[IdentifierKey] != id
  }

  /** Delete's test for removing an object: it lacks the key or its value equals the target. */
  predicate DeleteDrops(item: Doc, id: Doc) {
    item.Obj? && !DeleteKeeps(item, id)
  }

  /** The array `rs` after every position that satisfies `hit` is overwritten by the entity. */
  function ReplaceWhere(rs: seq<Doc>, e: Entity, hit: Doc -> bool): (r: seq<Doc>)
    ensures |r| == |rs|
  {
    if rs == [] then [] else [if hit(rs[0]) then Ent(e) else rs[0]] + ReplaceWhere(rs[1..], e, hit)
  }

  lemma {:induction false} ReplaceWhereAt(rs: seq<Doc>, e: Entity, hit: Doc -> bool, i: int)
    requires 0 <= i < |rs|
    ensures hit(rs[i]) ==> ReplaceWhere(rs, e, hit)[i] == Ent(e)
    ensures !hit(rs[i]) ==> ReplaceWhere(rs, e, hit)[i] == rs[i]
  {
    if i > 0 {
      ReplaceWhereAt(rs[1..], e, hit, i - 1);
    }
  }

  /** The loaded array after Update's scan. */
  function UpdateRecords(rs: seq<Doc>, e: Entity): seq<Doc> {
    ReplaceWhere(rs, e, d => UpdateMatch(d, e.identifier))
  }

  /** Update's scan replaces every matching position, and only those. */
  lemma UpdateRecordsAt(rs: seq<Doc>, e: Entity, i: int)
    requires 0 <= i < |rs|
    ensures |UpdateRecords(rs, e)| == |rs|
    ensures UpdateMatch(rs[i], e.identifier) ==> UpdateRecords(rs, e)[i] == Ent(e)
    ensures !UpdateMatch(rs[i], e.identifier) ==> UpdateRecords(rs, e)[i] == rs[i]
  {
    ReplaceWhereAt(rs, e, d => UpdateMatch(d, e.identifier), i);
  }

  predicate AnyUpdateMatch(rs: seq<Doc>, id: Doc) {
    exists i :: 0 <= i < |rs| && UpdateMatch(rs[i], id)
  }

  /** Without a match Update's scan leaves the array as it was. */
  lemma UpdateNoMatch(rs: seq<Doc>, e: Entity)
    requires !AnyUpdateMatch(rs, e.identifier)
    ensures UpdateRecords(rs, e) == rs
  {
    forall i | 0 <= i < |rs| ensures UpdateRecords(rs, e)[i] == rs[i] {
      UpdateRecordsAt(rs, e, i);
    }
  }

  /** The loaded array after Delete's scan, which overwrites every KEPT position. */
  function DeleteOverwrite(rs: seq<Doc>, e: Entity): seq<Doc> {
    ReplaceWhere(rs, e, d => DeleteKeeps(d, e.identifier))
  }

  lemma DeleteOverwriteAt(rs: seq<Doc>, e: Entity, i: int)
    requires 0 <= i < |rs|
    ensures |DeleteOverwrite(rs, e)| == |rs|
    ensures DeleteKeeps(rs[i], e.identifier) ==> DeleteOverwrite(rs, e)[i] == Ent(e)
    ensures !DeleteKeeps(rs[i], e.identifier) ==> DeleteOverwrite(rs, e)[i] == rs[i]
  {
    ReplaceWhereAt(rs, e, d => DeleteKeeps(d, e.identifier), i);
  }

  /** The array Delete writes: the kept records, in their original order. */
  function Kept(rs: seq<Doc>, id: Doc): (r: seq<Doc>)
    ensures |r| <= |rs|
    ensures forall x :: x in r ==> DeleteKeeps(x, id)
  {
    if rs == [] then []
    else Kept(rs[..|rs| - 1], id) + (if DeleteKeeps(rs[|rs| - 1], id) then [rs[|rs| - 1]] else [])
  }

  predicate CouldDelete(rs: seq<Doc>, id: Doc) {
    exists i :: 0 <= i < |rs| && DeleteDrops(rs[i], id)
  }

  /** Kept distributes over concatenation, so it keeps the original order. */
  lemma {:induction false} KeptAppend(a: seq<Doc>, b: seq<Doc>, id: Doc)
    ensures Kept(a + b, id) == Kept(a, id) + Kept(b, id)
  {
    if b == [] {
      assert a + b == a;
    } else {
      assert (a + b)[..|a + b| - 1] == a + b[..|b| - 1];
      KeptAppend(a, b[..|b| - 1], id);
    }
  }

  /** A record is in Delete's output exactly when it is in the input and is kept. */
  lemma {:induction false} KeptMembers(rs: seq<Doc>, id: Doc, x: Doc)
    ensures x in Kept(rs, id) <==> x in rs && DeleteKeeps(x, id)
  {
    if rs != [] {
      var init := rs[..|rs| - 1];
      KeptMembers(init, id, x);
      assert rs == init + [rs[|rs| - 1]];
    }
  }

  /** Delete keeps every record exactly when every record is kept. */
  lemma {:induction false} KeptAll(rs: seq<Doc>, id: Doc)
    ensures Kept(rs, id) == rs <==> forall i :: 0 <= i < |rs| ==> DeleteKeeps(rs[i], id)
  {
    if rs != [] {
      var init := rs[..|rs| - 1];
      KeptAll(init, id);
      assert rs == init + [rs[|rs| - 1]];
      if !DeleteKeeps(rs[|rs| - 1], id) {
        assert |Kept(rs, id)| < |rs|;
      } else if Kept(rs, id) == rs {
        assert Kept(init, id) == init;
      }
    }
  }

  /** For an array of objects, Delete finds something to remove exactly when
      its output is shorter than its input. */
  lemma KeptShorter(rs: seq<Doc>, id: Doc)
    requires forall i :: 0 <= i < |rs| ==> rs[i].Obj?
    ensures CouldDelete(rs, id) <==> |Kept(rs, id)| < |rs|
  {
  }

  /** Delete's equality test is stricter than Update's formatted test: every
      keyed record Delete removes, Update would replace. */
  lemma DeleteDropsImpliesUpdateMatch(item: Doc, id: Doc)
    requires HasKey(item) && DeleteDrops(item, id)
    ensures UpdateMatch(item, id)
  {
  }

  /** For a record whose stored identifier is an integer, Update matches an
      integer identifier exactly when the two are equal. */
  lemma UpdateMatchIntegers(item: Doc, m: int, n: int)
    requires HasKey(item) && item.fields[IdentifierKey] == Num(m)
    ensures UpdateMatch(item, Num(n)) <==> m == n
  {
    FormatNumEqual(m, n);
  }

  /** The converse fails: a record Update replaces may be one Delete keeps,
      such as a stored number 1 against the string identifier "1", or a
      stored string "1" against the number 1. */
  lemma UpdateMatchDeleteKeeps()
    ensures var item := Obj(map[IdentifierKey := Num(1)]);
            UpdateMatch(item, Str("1")) && DeleteKeeps(item, Str("1"))
    ensures var item := Obj(map[IdentifierKey := Str("1")]);
            UpdateMatch(item, Num(1)) && DeleteKeeps(item, Num(1))
  {
  }
}
