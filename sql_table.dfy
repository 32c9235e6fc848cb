/**
 * What the program relies on from its SQLite tables: rows in insertion
 * order, each with an `INTEGER PRIMARY KEY AUTOINCREMENT` id.
 */
module SqlTable {
  /** A row: its id and its other columns. */
  datatype Row<T> = Row(id: nat, data: T)

  /** AUTOINCREMENT ids: positive, increasing in insertion order, and
      below the next id to be handed out. */
  predicate AutoIds<T>(rows: seq<Row<T>>, nextId: nat) {
    1 <= nextId
    && (forall i :: 0 <= i < |rows| ==> 1 <= rows[i].id < nextId)
    && (forall i, j :: 0 <= i < j < |rows| ==> rows[i].id < rows[j].id)
  }

  /** `INSERT` keeps the ids in order: the new row gets the next id. */
  lemma InsertKeepsAutoIds<T>(rows: seq<Row<T>>, nextId: nat, data: T)
    requires AutoIds(rows, nextId)
    ensures AutoIds(rows + [Row(nextId, data)], nextId + 1)
  {
  }

  /** No two rows share an id. */
  lemma AutoIdsUnique<T>(rows: seq<Row<T>>, nextId: nat, i: nat, j: nat)
    requires AutoIds(rows, nextId)
    requires i < |rows| && j < |rows| && rows[i].id == rows[j].id
    ensures i == j
  {
  }
}
