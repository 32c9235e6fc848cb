/**
 * The issued-credential log: every credential stored is a new row with the
 * holder's e-mail and the attributes as JSON text.
 */
module CredentialDb {
  import opened Wrappers
  import opened SqlTable
  import opened Json
  import opened JsonTable

  /** A credential as `getCredentials` returns it: id, e-mail, attributes. */
  type CredentialRecord = Parsed<string>

  class CredentialTable {
    var rows: seq<Row<Stored<string>>>
    var nextId: nat

    ghost predicate Valid()
      reads this
    {
      AutoIds(rows, nextId)
    }

    constructor ()
      ensures rows == [] && Valid()
    {
      rows, nextId := [], 1;
    }

    /** `insertCredential`: one row appended with the e-mail and the
        attributes' JSON text, earlier rows untouched; well-formed
        attributes are read back as written. */
    method InsertCredential(email: string, attributes: Value)
      requires Valid()
      modifies this
      ensures Valid()
      ensures rows == old(rows) + [Row(old(nextId), Stored(email, Stringify(attributes)))]
      ensures WellFormed(attributes) && old(GetCredentials()).Some? ==>
        GetCredentials() == Some(old(GetCredentials()).value + [Parsed(old(nextId), email, attributes)])
    {
      var row := Row(nextId, Stored(email, Stringify(attributes)));
      InsertKeepsAutoIds(rows, nextId, row.data);
      if WellFormed(attributes) {
        ReadAfterInsert(rows, nextId, email, attributes);
      }
      rows := rows + [row];
      nextId := nextId + 1;
    }

    /** `getCredentials`: every row with id, e-mail and parsed attributes;
        `None` where a parse throws. */
    function GetCredentials(): Option<seq<CredentialRecord>>
      reads this
    {
      ReadRows(rows)
    }
  }
}
