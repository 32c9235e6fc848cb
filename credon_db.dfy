/**
 * The `credon` table: one row per holder connection, with a label, the
 * connection id and a free-form state.
 */
module CredonDb {
  import opened SqlTable

  datatype Credon = Credon(holderLabel: string, connectionId: string, state: string)

  /** A row as `getCredentials` returns it. */
  datatype CredonRecord = CredonRecord(id: nat, holderLabel: string, connectionId: string, state: string)

  /** `UPDATE credon SET state = ? WHERE id = ?`. */
  function WithState(rows: seq<Row<Credon>>, id: int, newState: string): seq<Row<Credon>> {
    seq(|rows|, i requires 0 <= i < |rows| =>
      if rows[i].id == id then Row(rows[i].id, rows[i].data.(state := newState)) else rows[i])
  }

  /** The update touches the state of the row with that id and nothing
      else: ids, order, labels and connection ids stay, and an unknown id
      changes nothing. */
  lemma WithStateChangesOnlyThatRow(rows: seq<Row<Credon>>, nextId: nat, id: int, newState: string)
    requires AutoIds(rows, nextId)
    ensures var r := WithState(rows, id, newState);
      |r| == |rows| && AutoIds(r, nextId)
      && (forall i :: 0 <= i < |rows| ==>
            r[i].id == rows[i].id
            && r[i].data.holderLabel == rows[i].data.holderLabel
            && r[i].data.connectionId == rows[i].data.connectionId)
      && (forall i :: 0 <= i < |rows| && rows[i].id != id ==> r[i] == rows[i])
      && (forall i :: 0 <= i < |rows| && rows[i].id == id ==> r[i].data.state == newState)
    ensures (forall i :: 0 <= i < |rows| ==> rows[i].id != id) ==> WithState(rows, id, newState) == rows
  {
  }

  /** At most one row is changed, since ids are unique. */
  lemma WithStateChangesAtMostOneRow(rows: seq<Row<Credon>>, nextId: nat, id: int, newState: string, i: nat, j: nat)
    requires AutoIds(rows, nextId)
    requires i < |rows| && j < |rows|
    requires WithState(rows, id, newState)[i] != rows[i] && WithState(rows, id, newState)[j] != rows[j]
    ensures i == j
  {
    AutoIdsUnique(rows, nextId, i, j);
  }

  function Project(row: Row<Credon>): CredonRecord {
    CredonRecord(row.id, row.data.holderLabel, row.data.connectionId, row.data.state)
  }

  class CredonTable {
    var rows: seq<Row<Credon>>
    var nextId: nat

    ghost predicate Valid()
      reads this
    {
      AutoIds(rows, nextId)
    }

    /** `initializeDatabase` on a fresh file. */
    constructor ()
      ensures rows == [] && Valid()
    {
      rows, nextId := [], 1;
    }

    /** `insertCredential`: one new row, at the end. */
    method InsertCredential(holderLabel: string, connectionId: string, state: string)
      requires Valid()
      modifies this
      ensures Valid()
      ensures rows == old(rows) + [Row(old(nextId), Credon(holderLabel, connectionId, state))]
      ensures GetCredentials() == old(GetCredentials()) + [CredonRecord(old(nextId), holderLabel, connectionId, state)]
    {
      InsertKeepsAutoIds(rows, nextId, Credon(holderLabel, connectionId, state));
      rows := rows + [Row(nextId, Credon(holderLabel, connectionId, state))];
      nextId := nextId + 1;
    }

    /** `updateCredentialState`. */
    method UpdateCredentialState(id: int, newState: string)
      requires Valid()
      modifies this
      ensures Valid() && nextId == old(nextId)
      ensures rows == WithState(old(rows), id, newState)
    {
      WithStateChangesOnlyThatRow(rows, nextId, id, newState);
      rows := WithState(rows, id, newState);
    }

    /** `getCredentials`: every row, in order, as id, label, connection id
        and state. */
    function GetCredentials(): (r: seq<CredonRecord>)
      reads this
      ensures |r| == |rows|
      ensures forall i :: 0 <= i < |rows| ==>
        r[i].id == rows[i].id && r[i].holderLabel == rows[i].data.holderLabel
        && r[i].connectionId == rows[i].data.connectionId && r[i].state == rows[i].data.state
    {
      var rows := this.rows;
      seq(|rows|, i requires 0 <= i < |rows| => Project(rows[i]))
    }
  }
}
