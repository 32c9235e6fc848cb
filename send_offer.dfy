/**
 * The issuer's credential offer (issue-credential 2.0 `send`): a credential
 * preview built from an attribute object, plus the schema and cred-def the
 * credential is to follow. The agent call is a predicate on the payload
 * posted: whether the agent answered with an ok status.
 */
module CredentialOffer {
  import opened Wrappers
  import opened JsObject

  const PreviewType := "issue-credential/2.0/credential-preview"
  const PlainText := "plain/text"

  datatype PreviewAttribute = PreviewAttribute(name: string, mimeType: string, value: string)

  /** The name/value pairs a preview carries. */
  function NameValues(p: seq<PreviewAttribute>): (pairs: seq<(string, string)>)
    ensures |pairs| == |p|
  {
    seq(|p|, i requires 0 <= i < |p| => (p[i].name, p[i].value))
  }

  /** `Object.entries(credAttrs).map(...)`: one plain-text preview attribute
      per property, in property order; it loses nothing, since its names
      and values are the object's entries. */
  function Preview(credAttrs: Obj<string>): (p: seq<PreviewAttribute>)
    ensures NameValues(p) == credAttrs
    ensures forall i :: 0 <= i < |p| ==> p[i].mimeType == PlainText
  {
    seq(|credAttrs|, i requires 0 <= i < |credAttrs| => PreviewAttribute(credAttrs[i].0, PlainText, credAttrs[i].1))
  }

  datatype Offer = Offer(
    connectionId: string, comment: string, autoRemove: bool, trace: bool,
    previewType: string, attributes: seq<PreviewAttribute>, schemaId: string, credDefId: string)

  /** The payload of `sendCredentialOffer`; an argument left out (`None`)
      takes its default: no comment, auto-remove on, trace off. */
  function OfferPayload(
    connectionId: string, credAttrs: Obj<string>, comment: Option<string>, autoRemove: Option<bool>,
    schemaId: string, credDefId: string, trace: Option<bool>): (o: Offer)
    ensures o.connectionId == connectionId && o.schemaId == schemaId && o.credDefId == credDefId
    ensures o.comment == comment.GetOr("") && o.autoRemove == autoRemove.GetOr(true)
    ensures o.trace == trace.GetOr(false)
    ensures o.previewType == PreviewType
    ensures NameValues(o.attributes) == credAttrs
  {
    Offer(connectionId, comment.GetOr(""), autoRemove.GetOr(true), trace.GetOr(false),
      PreviewType, Preview(credAttrs), schemaId, credDefId)
  }

  /** `sendCredentialOffer`: true exactly when the agent accepted the
      offer that was posted. */
  function SendCredentialOffer(
    connectionId: string, credAttrs: Obj<string>, comment: Option<string>, autoRemove: Option<bool>,
    schemaId: string, credDefId: string, trace: Option<bool>, agentAccepts: Offer -> bool): (sent: bool)
    ensures sent <==> agentAccepts(OfferPayload(connectionId, credAttrs, comment, autoRemove, schemaId, credDefId, trace))
  {
    var offer := OfferPayload(connectionId, credAttrs, comment, autoRemove, schemaId, credDefId, trace);
    agentAccepts(offer)
  }
}
