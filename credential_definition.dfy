/**
 * Creating a credential definition on the issuer's agent: the request body
 * and how the agent's reply becomes the new cred-def id.
 */
module CredentialDefinition {
  import opened Wrappers
  import Helper

  /** The POST body; `revocationRegistrySize` is `None` when the field is
      left out. */
  datatype CredDefBody = CredDefBody(schemaId: string, supportRevocation: bool, tag: string, revocationRegistrySize: Option<int>)

  /** The body for the arguments: schema id, revocation flag and tag always,
      the registry size only when revocation is supported and the size is
      given and non-zero. */
  function Body(schemaId: string, tag: string, supportRevocation: bool, revocationRegistrySize: Option<int>): (b: CredDefBody)
    ensures b.schemaId == schemaId && b.supportRevocation == supportRevocation && b.tag == tag
    ensures b.revocationRegistrySize.Some? <==>
      supportRevocation && revocationRegistrySize.Some? && revocationRegistrySize.value != 0
    ensures b.revocationRegistrySize.Some? ==> b.revocationRegistrySize == revocationRegistrySize
  {
    var body := CredDefBody(schemaId, supportRevocation, tag, None);
    if supportRevocation && revocationRegistrySize.Some? && revocationRegistrySize.value != 0 then
      body.(revocationRegistrySize := revocationRegistrySize)
    else body
  }

  /** `createCredentialDefinition`. `reply` is the agent's answer to a
      posted body: a failure, or the `credential_definition_id` of its
      JSON (`""` when absent). The result is the id, or `None` (`null`)
      when the call failed or the id is missing. */
  function CreateCredentialDefinition(
    schemaId: string, tag: string, supportRevocation: bool, revocationRegistrySize: Option<int>,
    reply: CredDefBody -> Helper.Response<string>): (id: Option<string>)
    ensures id.Some? <==>
      reply(Body(schemaId, tag, supportRevocation, revocationRegistrySize)).Ok?
      && reply(Body(schemaId, tag, supportRevocation, revocationRegistrySize)).body != ""
    ensures id.Some? ==> id.value == reply(Body(schemaId, tag, supportRevocation, revocationRegistrySize)).body
  {
    match reply(Body(schemaId, tag, supportRevocation, revocationRegistrySize))
    case Failed => None
    case Ok(credDefId) => if credDefId == "" then None else Some(credDefId)
  }
}
