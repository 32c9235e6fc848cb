/**
 * The proof-configuration log: every saved configuration is a new row with
 * the owner's label, the cred-def id and the attributes as JSON text; the
 * latest configuration for a label is its last row.
 */
module ProofConfigDb {
  import opened Wrappers
  import opened SqlTable
  import opened Json
  import opened JsonTable

  datatype ConfigColumns = ConfigColumns(owner: string, credDefId: string)

  /** A configuration as `getProofConfig` returns it. */
  type ProofConfig = Parsed<ConfigColumns>

  class ProofConfigTable {
    var rows: seq<Row<Stored<ConfigColumns>>>
    var nextId: nat

    ghost predicate Valid()
      reads this
    {
      AutoIds(rows, nextId)
    }

    constructor ()
      ensures rows == [] && Valid()
    {
      rows, nextId := [], 1;
    }

    /** `insertProofConfig`: one row appended, earlier rows untouched; a
        well-formed value is read back as written. */
    method InsertProofConfig(owner: string, credDefId: string, attributes: Value)
      requires Valid()
      modifies this
      ensures Valid()
      ensures rows == old(rows) + [Row(old(nextId), Stored(ConfigColumns(owner, credDefId), Stringify(attributes)))]
      ensures WellFormed(attributes) && old(GetProofConfig()).Some? ==>
        GetProofConfig() == Some(old(GetProofConfig()).value + [Parsed(old(nextId), ConfigColumns(owner, credDefId), attributes)])
    {
      var row := Row(nextId, Stored(ConfigColumns(owner, credDefId), Stringify(attributes)));
      InsertKeepsAutoIds(rows, nextId, row.data);
      if WellFormed(attributes) {
        ReadAfterInsert(rows, nextId, ConfigColumns(owner, credDefId), attributes);
      }
      rows := rows + [row];
      nextId := nextId + 1;
    }

    /** `getProofConfig`: every row with id, label, cred-def id and parsed
        attributes; `None` where a parse throws. */
    function GetProofConfig(): Option<seq<ProofConfig>>
      reads this
    {
      ReadRows(rows)
    }
  }
}
