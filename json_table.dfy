/**
 * A table whose last column holds `JSON.stringify` text, read back through
 * `JSON.parse`: the shape shared by the proof-configuration table and the
 * issued-credential table.
 */
module JsonTable {
  import opened Wrappers
  import opened SqlTable
  import opened Json

  /** The stored columns: the plain ones and the JSON text. */
  datatype Stored<T> = Stored(columns: T, json: string)

  /** A row as read: its id, the plain columns and the parsed value. */
  datatype Parsed<T> = Parsed(id: nat, columns: T, value: Value)

  /** `SELECT *` mapped through `JSON.parse`: every row, in order; `None`
      when one row's text does not parse and the read throws. */
  function ReadRows<T>(rows: seq<Row<Stored<T>>>): (r: Option<seq<Parsed<T>>>)
    ensures r.Some? <==> forall i :: 0 <= i < |rows| ==> Parse(rows[i].data.json).Some?
    ensures r.Some? ==> |r.value| == |rows|
    ensures r.Some? ==> forall i :: 0 <= i < |rows| ==>
      r.value[i].id == rows[i].id && r.value[i].columns == rows[i].data.columns
      && Parse(rows[i].data.json) == Some(r.value[i].value)
  {
    if rows == [] then Some([])
    else
      var last := rows[|rows| - 1];
      match ReadRows(rows[..|rows| - 1])
      case None => None
      case Some(ps) =>
        match Parse(last.data.json)
        case None => None
        case Some(v) => Some(ps + [Parsed(last.id, last.data.columns, v)])
  }

  /** Read equals written: a row inserted with `JSON.stringify(v)` is read
      back with `v`, after the rows read before it. */
  lemma ReadAfterInsert<T>(rows: seq<Row<Stored<T>>>, id: nat, columns: T, v: Value)
    requires WellFormed(v)
    ensures ReadRows(rows + [Row(id, Stored(columns, Stringify(v)))]) ==
      match ReadRows(rows) case None => None case Some(ps) => Some(ps + [Parsed(id, columns, v)])
  {
    var all := rows + [Row(id, Stored(columns, Stringify(v)))];
    assert all[..|all| - 1] == rows;
    ParseStringify(v);
  }
}
