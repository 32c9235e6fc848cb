/**
 * `/api/databasesApi/dbProofConfig`: saving a proof configuration (label,
 * cred-def id, attributes) and listing the saved ones, all of them or
 * those of one label.
 */
module ProofConfigRoute {
  import opened Wrappers
  import opened Json
  import opened SqlTable
  import opened JsonTable
  import opened ProofConfigDb
  import Lists

  /** The POST body. A missing or empty string is `""`; a missing JSON
      field is `None`. */
  datatype SaveRequest = SaveRequest(owner: string, credDefId: string, attributes: Option<Value>, predicates: Option<Value>)

  predicate Given(v: Option<Value>) {
    v.Some? && Truthy(v.value)
  }

  /** `!label || !credDefId || (!attributes && !predicates)`. */
  predicate MissingFields(req: SaveRequest) {
    req.owner == "" || req.credDefId == "" || (!Given(req.attributes) && !Given(req.predicates))
  }

  /** `POST`: 400 and nothing stored when a field is missing; otherwise the
      row (label, cred-def id, `attributes ?? null`) is appended and the
      answer is 200. `insertProofConfig` takes three parameters, so the
      `predicates` passed as a fourth argument are dropped. */
  method PostProofConfig(table: ProofConfigTable, req: SaveRequest) returns (status: int)
    requires table.Valid()
    modifies table
    ensures table.Valid()
    ensures MissingFields(req) ==> status == 400 && table.rows == old(table.rows)
    ensures !MissingFields(req) ==> status == 200
    ensures !MissingFields(req) ==>
      table.rows == old(table.rows) + [Row(old(table.nextId),
        Stored(ConfigColumns(req.owner, req.credDefId), Stringify(req.attributes.GetOr(Null))))]
  {
    if MissingFields(req) {
      return 400;
    }
    table.InsertProofConfig(req.owner, req.credDefId, req.attributes.GetOr(Null));
    return 200;
  }

  /** The rows of one label, in stored order. */
  function ByOwner(configs: seq<ProofConfig>, owner: string): (r: seq<ProofConfig>)
    ensures forall i :: 0 <= i < |r| ==> r[i] in configs && r[i].columns.owner == owner
    ensures forall i :: 0 <= i < |configs| && configs[i].columns.owner == owner ==> configs[i] in r
  {
    Lists.Filter(configs, (c: ProofConfig) => c.columns.owner == owner)
  }

  /** `GET`: `None` (500) when reading the table throws; with a label,
      exactly that label's rows; without one, every row. */
  function GetProofConfigs(table: Option<seq<ProofConfig>>, owner: string): (r: Option<seq<ProofConfig>>)
    ensures r.None? <==> table.None?
    ensures owner == "" ==> r == table
    ensures owner != "" && r.Some? ==> r.value == ByOwner(table.value, owner)
  {
    match table
    case None => None
    case Some(configs) => if owner == "" then Some(configs) else Some(ByOwner(configs, owner))
  }

  /** The configuration just saved under a label is that label's latest:
      the last row the label's listing returns, read back as written. */
  lemma SavedConfigIsLatest(rows: seq<Row<Stored<ConfigColumns>>>, id: nat, owner: string, credDefId: string, v: Value)
    requires WellFormed(v) && ReadRows(rows).Some? && owner != ""
    ensures var after := ReadRows(rows + [Row(id, Stored(ConfigColumns(owner, credDefId), Stringify(v)))]);
      after.Some?
      && Lists.Last(GetProofConfigs(after, owner).value) == Some(Parsed(id, ConfigColumns(owner, credDefId), v))
  {
    var saved: ProofConfig := Parsed(id, ConfigColumns(owner, credDefId), v);
    ReadAfterInsert(rows, id, ConfigColumns(owner, credDefId), v);
    Lists.FilterAppend(ReadRows(rows).value, [saved], (c: ProofConfig) => c.columns.owner == owner);
  }
}
