/** Where clauses and the nested clause groups a driver collects. */
module Queries {
  import opened Documents

  /** One filter predicate: a key, an operator name and the value compared to. */
  datatype Clause = Clause(key: string, operator: string, value: Doc)

  /** The clause-evaluation engine: from the clause groups and the pristine
      snapshot to the filtered working snapshot. Its matching rules are not
      part of this model. */
  type QueryEngine = (seq<seq<Clause>>, Doc) -> Doc

  /** Where either starts the first group or indexes an existing one; any
      other cursor would make the slice index panic. */
  predicate CursorInRange(groups: seq<seq<Clause>>, cursor: int) {
    (cursor == 0 && |groups| == 0) || 0 <= cursor < |groups|
  }

  /** The clause groups after Where adds clause `c` at the cursor. */
  function AddClause(groups: seq<seq<Clause>>, cursor: int, c: Clause): (r: seq<seq<Clause>>)
    requires CursorInRange(groups, cursor)
    ensures groups == [] ==> r == [[c]]
    ensures groups != [] ==> |r| == |groups| && r[cursor] == groups[cursor] + [c]
    ensures forall j :: 0 <= j < |groups| && j != cursor ==> r[j] == groups[j]
  {
    if cursor == 0 && |groups| == 0 then [[c]]
    else groups[cursor := groups[cursor] + [c]]
  }
}
