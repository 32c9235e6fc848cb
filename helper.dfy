/**
 * The records an Aries agent's admin API lists, and the helpers that fetch
 * them and pick out what the pages need. An agent call is not made here: its
 * outcome is an input, `Failed` for a non-ok status or a thrown error and
 * `Ok` with the parsed body otherwise. A field the agent may leave out is an
 * `Option`, or the empty string where the code only tests it for truth.
 */
module Helper {
  import opened Wrappers
  import opened JsObject
  import Lists

  datatype Response<T> = Failed | Ok(body: T)

  datatype Connection = Connection(connectionId: string, state: string, theirLabel: string)

  /** A restriction of a requested attribute; only its cred-def id is read. */
  datatype Restriction = Restriction(credDefId: Option<string>)

  datatype RequestedAttribute = RequestedAttribute(name: string, restrictions: seq<Restriction>)

  /** A present-proof 2.0 record. `requestedAttributes` is
      `by_format.pres_request.indy.requested_attributes`, `None` when a step
      of that path is missing; an absent `verified` is the empty string. */
  datatype PresentProof = PresentProof(
    presExId: string, state: string, connectionId: string, verified: string,
    requestedAttributes: Option<Obj<RequestedAttribute>>)

  /** A name/value pair of a credential preview or proposal. */
  datatype Attribute = Attribute(name: string, value: string)

  datatype CredentialExchange = CredentialExchange(
    credentialExchangeId: string, state: string, proposalAttributes: Option<seq<Attribute>>)

  /** A credential in the holder's wallet, with the attribute values it
      carries besides its ids. */
  datatype WalletRecord = WalletRecord(referent: string, credDefId: string, attrs: Obj<string>)

  datatype WalletCredential = WalletCredential(referent: string, credDefId: string)

  /** `schema.name` and `schema.attrNames` of a schema's details. */
  datatype SchemaBody = SchemaBody(name: string, attrNames: Option<seq<string>>)

  datatype SchemaDetail = SchemaDetail(schemaId: string, schemaName: string, attributes: seq<string>)

  datatype SchemaAndCredDefs = SchemaAndCredDefs(
    schemaIds: seq<string>, schemaDetails: seq<SchemaDetail>, credDefIds: seq<string>)

  const UnknownSchema := "Unknown Schema"

  /** `getConnections` and `getPresentProof`: the listed results, or none
      when the call failed. */
  function ResultsOrEmpty<T>(response: Response<seq<T>>): (r: seq<T>)
    ensures response.Failed? ==> r == []
    ensures response.Ok? ==> r == response.body
  {
    match response
    case Failed => []
    case Ok(results) => results
  }

  predicate ProposalReceived(x: CredentialExchange) {
    x.state == "proposal_received"
  }

  /** `getCredentialExchangeId`: the id and proposed attributes of the first
      exchange in state "proposal_received". */
  function PendingExchange(response: Response<seq<CredentialExchange>>): (r: Option<(string, seq<Attribute>)>)
    ensures response.Failed? ==> r.None?
    ensures response.Ok? && r.None? ==> forall k :: 0 <= k < |response.body| ==> !ProposalReceived(response.body[k])
    ensures r.Some? ==> response.Ok?
    ensures r.Some? ==>
      exists i :: 0 <= i < |response.body|
        && ProposalReceived(response.body[i])
        && (forall k :: 0 <= k < i ==> !ProposalReceived(response.body[k]))
        && r.value == (response.body[i].credentialExchangeId, response.body[i].proposalAttributes.GetOr([]))
  {
    match response
    case Failed => None
    case Ok(records) =>
      match Lists.FirstIndex(records, ProposalReceived)
      case None => None
      case Some(i) => Some((records[i].credentialExchangeId, records[i].proposalAttributes.GetOr([])))
  }

  /** The details of one schema, with its name and attribute names
      defaulted. */
  function Detail(schemaId: string, body: SchemaBody): (d: SchemaDetail)
    ensures d.schemaId == schemaId
    ensures d.schemaName == if body.name == [] then UnknownSchema else body.name
    ensures d.attributes == body.attrNames.GetOr([])
  {
    SchemaDetail(schemaId, if body.name == [] then UnknownSchema else body.name, body.attrNames.GetOr([]))
  }

  predicate AllFetched(schemaIds: seq<string>, details: string -> Response<SchemaBody>) {
    forall i :: 0 <= i < |schemaIds| ==> details(schemaIds[i]).Ok?
  }

  /** `fetchSchemaAndCredDefIds`: `None` where it throws, when a listing
      call fails, when there is no schema id or no cred-def id, or when the
      details of any schema cannot be fetched. `schemaList` and
      `credDefList` are the id lists, `None` when the body lacks them. */
  function FetchSchemaAndCredDefIds(
    schemaList: Response<Option<seq<string>>>,
    details: string -> Response<SchemaBody>,
    credDefList: Response<Option<seq<string>>>): (r: Option<SchemaAndCredDefs>)
    ensures r.Some? <==>
      schemaList.Ok? && schemaList.body.Some? && schemaList.body.value != []
      && AllFetched(schemaList.body.value, details)
      && credDefList.Ok? && credDefList.body.Some? && credDefList.body.value != []
    ensures r.Some? ==>
      var ids := schemaList.body.value;
      r.value.schemaIds == ids && r.value.credDefIds == credDefList.body.value
      && |r.value.schemaDetails| == |ids|
      && forall i :: 0 <= i < |ids| ==> r.value.schemaDetails[i] == Detail(ids[i], details(ids[i]).body)
  {
    if schemaList.Failed? || schemaList.body.None? || schemaList.body.value == [] then None
    else
      var ids := schemaList.body.value;
      if !AllFetched(ids, details) then None
      else
        var schemaDetails := seq(|ids|, i requires 0 <= i < |ids| => Detail(ids[i], details(ids[i]).body));
        if credDefList.Failed? || credDefList.body.None? || credDefList.body.value == [] then None
        else Some(SchemaAndCredDefs(ids, schemaDetails, credDefList.body.value))
  }

  /** `getWalletCredentialId`: each wallet credential reduced to its referent
      and cred-def id, in order; none when the call fails or lists nothing. */
  function WalletCredentialIds(response: Response<seq<WalletRecord>>): (r: seq<WalletCredential>)
    ensures response.Failed? ==> r == []
    ensures response.Ok? ==> |r| == |response.body|
    ensures response.Ok? ==> forall i :: 0 <= i < |r| ==>
      r[i] == WalletCredential(response.body[i].referent, response.body[i].credDefId)
  {
    match response
    case Failed => []
    case Ok(results) =>
      seq(|results|, i requires 0 <= i < |results| => WalletCredential(results[i].referent, results[i].credDefId))
  }

  /** The module variable behind `setConnectionIdOCR` and
      `getConnectionIdOCR`, which hands the holder's connection from the
      page that resolved it to the page that issues the credential. */
  class OcrConnection {
    var current: string

    constructor ()
      ensures current == ""
    {
      current := "";
    }

    method SetConnectionId(connectionId: string)
      modifies this
      ensures current == connectionId
    {
      current := connectionId;
    }

    function ConnectionId(): string
      reads this
    {
      current
    }
  }
}
