/**
 * The holder's credential proposal (issue-credential 2.0 `send-proposal`):
 * the same preview as an offer, without a trace flag, posted by the
 * holder's agent.
 */
module CredentialProposal {
  import opened Wrappers
  import opened JsObject
  import opened CredentialOffer

  datatype Proposal = Proposal(
    connectionId: string, comment: string, autoRemove: bool,
    previewType: string, attributes: seq<PreviewAttribute>, schemaId: string, credDefId: string)

  /** The payload of `sendCredentialProposal`, defaults as for an offer. */
  function ProposalPayload(
    connectionId: string, credAttrs: Obj<string>, comment: Option<string>, autoRemove: Option<bool>,
    schemaId: string, credDefId: string): (p: Proposal)
    ensures p.connectionId == connectionId && p.schemaId == schemaId && p.credDefId == credDefId
    ensures p.comment == comment.GetOr("") && p.autoRemove == autoRemove.GetOr(true)
    ensures p.previewType == PreviewType
    ensures NameValues(p.attributes) == credAttrs
    ensures forall i :: 0 <= i < |p.attributes| ==> p.attributes[i].mimeType == PlainText
  {
    Proposal(connectionId, comment.GetOr(""), autoRemove.GetOr(true), PreviewType, Preview(credAttrs), schemaId, credDefId)
  }

  /** `sendCredentialProposal`: true exactly when the agent accepted the
      proposal that was posted. */
  function SendCredentialProposal(
    connectionId: string, credAttrs: Obj<string>, comment: Option<string>, autoRemove: Option<bool>,
    schemaId: string, credDefId: string, agentAccepts: Proposal -> bool): (sent: bool)
    ensures sent <==> agentAccepts(ProposalPayload(connectionId, credAttrs, comment, autoRemove, schemaId, credDefId))
  {
    var proposal := ProposalPayload(connectionId, credAttrs, comment, autoRemove, schemaId, credDefId);
    agentAccepts(proposal)
  }

  /** The wallet server turns the holder's attribute list into an object
      and this proposal turns it back into a list: when the names are
      distinct, the preview carries exactly the pairs the holder entered, in
      the order entered. */
  lemma ProposalCarriesEnteredAttributes(
    connectionId: string, entered: seq<(string, string)>, schemaId: string, credDefId: string)
    requires DistinctKeys(entered)
    ensures NameValues(ProposalPayload(connectionId, FromEntries(entered), None, None, schemaId, credDefId).attributes) == entered
  {
    FromDistinctEntries(entered);
  }

  /** With a repeated name, the preview carries that name once, with the
      value entered last. */
  lemma ProposalKeepsLastValue(
    connectionId: string, entered: seq<(string, string)>, schemaId: string, credDefId: string, name: string)
    ensures var pairs := NameValues(ProposalPayload(connectionId, FromEntries(entered), None, None, schemaId, credDefId).attributes);
      DistinctKeys(pairs) && Get(pairs, name) == LastValue(entered, name)
  {
    GetFromEntries(entered, name);
  }
}
