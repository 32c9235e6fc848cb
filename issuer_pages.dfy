/**
 * The issuers' internal pages: the plain issuer's page registers a schema
 * and cred-def from attributes typed in one at a time; the providing
 * issuer's page and the OCR issuer's page also fill in a credential form
 * and send it to the holder whose label is the part of the e-mail address
 * before "@". The OCR issuer's page keeps the whole address, splits it
 * only when sending, and can store the form in the credentials table.
 */
module IssuerInternal {
  import opened Wrappers
  import opened Text
  import opened JsObject
  import opened Helper
  import Json
  import AttributeList
  import SchemaRegistration
  import CredentialDefinition
  import CredentialDb
  import Lists

  /** `email.split("@")[0]`: the address up to its first "@", or all of
      it when it has none. */
  function HolderLabelOf(email: string): (holderLabel: string)
    ensures holderLabel <= email && '@' !in holderLabel
    ensures '@' !in email ==> holderLabel == email
    ensures '@' in email ==> email[|holderLabel|] == '@'
  {
    SplitFirstPiece(email, "@");
    match IndexOf(email, "@")
    case None =>
      assert '@' !in email by {
        forall k | 0 <= k < |email| ensures email[k] != '@' {
          assert email[k..k + 1] == [email[k]];
          assert !OccursAt("@", email, k);
        }
      }
      Split(email, "@")
      [0]
    case Some(i) =>
      assert email[i] == '@' by {
        assert email[i..i + 1] == "@";
      }
      assert '@' !in email[..i] by {
        forall k | 0 <= k < i ensures email[k] != '@' {
          assert !OccursAt("@", email, k);
        }
      }
      Split(email, "@")[0]
  }

  datatype PageKind = PlainIssuer | ProvidingIssuer | OcrIssuer

  /** The `sendCredential` call a page makes: the holder's connection, the
      form, the first schema's id and the first cred-def id. */
  datatype CredentialSend = CredentialSend(connectionId: string, attributes: Obj<string>, schemaId: string, credDefId: string)

  /** A first cred-def id and a first schema to send under. */
  predicate SendReady(data: Option<SchemaAndCredDefs>) {
    data.Some? && data.value.credDefIds != [] && data.value.credDefIds[0] != "" && data.value.schemaDetails != []
  }

  /** `handleSendCredential` given the label looked up, the connections
      `getConnections` listed and the result of `fetchSchemaAndCredDefIds`
      (`None` where it throws): the credential goes to the first connection
      carrying the label; nothing is sent without one or without a first
      cred-def id. */
  function PlannedSend(holderLabel: string, form: Obj<string>, connections: seq<Connection>,
    data: Option<SchemaAndCredDefs>): (r: Option<CredentialSend>)
    ensures r.Some? ==>
      SendReady(data) && r.value == CredentialSend(r.value.connectionId, form, data.value.schemaDetails[0].schemaId, data.value.credDefIds[0])
    ensures r.Some? ==> exists i :: (0 <= i < |connections| && connections[i].theirLabel == holderLabel
      && connections[i].connectionId == r.value.connectionId
      && forall k :: 0 <= k < i ==> connections[k].theirLabel != holderLabel)
    ensures r.None? && SendReady(data) ==> forall c :: c in connections ==> c.theirLabel != holderLabel
  {
    if data.None? then None
    else
      var credDefId := if data.value.credDefIds == [] then "" else data.value.credDefIds[0];
      match Lists.Find(connections, (c: Connection) => c.theirLabel == holderLabel)
      case None =>
        assert forall c :: c in connections ==> c.theirLabel != holderLabel by {
          forall c | c in connections ensures c.theirLabel != holderLabel {
            var k :| 0 <= k < |connections| && connections[k] == c;
          }
        }
        None
      case Some(connection) =>
        if credDefId == "" || data.value.schemaDetails == [] then None
        else Some(CredentialSend(connection.connectionId, form, data.value.schemaDetails[0].schemaId, credDefId))
  }

  class IssuerPage {
    const kind: PageKind
    var schemaName: string
    var attributes: seq<string>
    var newAttribute: string
    var credDefId: Option<string>
    var formData: Obj<string>
    var holderLabel: string
    var schemaAttributes: seq<string>
    var sent: seq<CredentialSend>

    /** Attributes and form fields are each listed once. */
    ghost predicate Valid()
      reads this
    {
      Lists.NoDuplicates(attributes) && DistinctKeys(formData)
    }

    constructor (kind: PageKind)
      ensures this.kind == kind && Valid()
      ensures schemaName == "" && attributes == [] && newAttribute == "" && credDefId == None
      ensures formData == [] && holderLabel == "" && schemaAttributes == [] && sent == []
    {
      this.kind := kind;
      schemaName, attributes, newAttribute, credDefId := "", [], "", None;
      formData, holderLabel, schemaAttributes, sent := [], "", [], [];
    }

    /** The effect loading the attributes of the agent's first schema. */
    method LoadSchemaAttributes(data: Option<SchemaAndCredDefs>)
      requires !kind.PlainIssuer?
      modifies this
      ensures data.Some? && data.value.schemaDetails != [] ==>
        schemaAttributes == data.value.schemaDetails[0].attributes
      ensures data.None? || data.value.schemaDetails == [] ==> schemaAttributes == old(schemaAttributes)
      ensures attributes == old(attributes) && formData == old(formData) && holderLabel == old(holderLabel)
      ensures credDefId == old(credDefId) && sent == old(sent) && newAttribute == old(newAttribute)
    {
      if data.Some? && data.value.schemaDetails != [] {
        schemaAttributes := data.value.schemaDetails[0].attributes;
      }
    }

    /** `handleAddAttribute`. */
    method AddAttribute()
      requires Valid()
      modifies this
      ensures Valid()
      ensures (attributes, newAttribute) == AttributeList.AddAttribute(old(attributes), old(newAttribute))
      ensures formData == old(formData) && holderLabel == old(holderLabel) && credDefId == old(credDefId)
      ensures sent == old(sent)
    {
      var added := AttributeList.AddAttribute(attributes, newAttribute);
      attributes, newAttribute := added.0, added.1;
    }

    /** `handleRemoveAttribute`. */
    method RemoveAttribute(attribute: string)
      requires Valid()
      modifies this
      ensures Valid()
      ensures attributes == AttributeList.RemoveAttribute(old(attributes), attribute)
      ensures newAttribute == old(newAttribute) && formData == old(formData) && holderLabel == old(holderLabel)
      ensures credDefId == old(credDefId) && sent == old(sent)
    {
      attributes := AttributeList.RemoveAttribute(attributes, attribute);
    }

    /** `handleRegisterSchemaAndCredDef`: the typed schema and attributes
        are registered with revocation; the page keeps the new cred-def id
        only when both steps succeeded. The draws and agent answers are
        those `registerSchemaAndCredDef` takes. */
    method RegisterSchemaAndCredDef(major: nat, minor: nat, patch: nat,
      schemaIdFor: SchemaRegistration.SchemaRequest -> Option<string>,
      credDefReply: CredentialDefinition.CredDefBody -> Response<string>)
      requires major < 100 && minor < 100 && patch < 100
      modifies this
      ensures var r := SchemaRegistration.RegisterSchemaAndCredDef(
          schemaName, attributes, true, major, minor, patch, schemaIdFor, credDefReply).1;
        credDefId == if r.Some? then Some(r.value.credDefId) else old(credDefId)
      ensures schemaName == old(schemaName) && attributes == old(attributes) && formData == old(formData)
      ensures holderLabel == old(holderLabel) && sent == old(sent) && newAttribute == old(newAttribute)
    {
      var result := SchemaRegistration.RegisterSchemaAndCredDef(
        schemaName, attributes, true, major, minor, patch, schemaIdFor, credDefReply).1;
      if result.Some? {
        credDefId := Some(result.value.credDefId);
      }
    }

    /** `handleChange`: one form field set, the others kept. */
    method ChangeField(attribute: string, value: string)
      requires !kind.PlainIssuer? && Valid()
      modifies this
      ensures Valid()
      ensures formData == Set(old(formData), attribute, value)
      ensures attributes == old(attributes) && holderLabel == old(holderLabel) && sent == old(sent)
    {
      formData := Set(formData, attribute, value);
    }

    /** `handleHolderLabelChange`: the providing issuer's page keeps the
        label, the OCR issuer's page the whole address. */
    method ChangeHolderLabel(email: string)
      requires !kind.PlainIssuer?
      modifies this
      ensures holderLabel == if kind.ProvidingIssuer? then HolderLabelOf(email) else email
      ensures attributes == old(attributes) && formData == old(formData) && sent == old(sent)
    {
      if kind.ProvidingIssuer? {
        holderLabel := HolderLabelOf(email);
      } else {
        holderLabel := email;
      }
    }

    /** The label a send looks the connection up by. */
    function LookupLabel(): string
      reads this
    {
      if kind.OcrIssuer? then HolderLabelOf(holderLabel) else holderLabel
    }

    /** `handleSendCredential`. */
    method SendCredential(connections: seq<Connection>, data: Option<SchemaAndCredDefs>)
      requires !kind.PlainIssuer?
      modifies this
      ensures var planned := PlannedSend(LookupLabel(), formData, connections, data);
        sent == old(sent) + (if planned.Some? then [planned.value] else [])
      ensures holderLabel == old(holderLabel) && formData == old(formData) && attributes == old(attributes)
    {
      var planned := PlannedSend(LookupLabel(), formData, connections, data);
      if planned.Some? {
        sent := sent + [planned.value];
      }
    }

    /** `handleSubmit` on the OCR issuer's page: the address and the form
        are stored as a credential row, and read back as stored. */
    method Submit(table: CredentialDb.CredentialTable)
      requires kind.OcrIssuer? && Valid() && table.Valid()
      modifies table
      ensures table.Valid()
      ensures old(table.GetCredentials()).Some? ==>
        table.GetCredentials() == Some(old(table.GetCredentials()).value
          + [CredentialDb.JsonTable.Parsed(old(table.nextId), holderLabel, Json.StrObject(formData))])
    {
      table.InsertCredential(holderLabel, Json.StrObject(formData));
    }
  }

  /** Both ways of deriving the label find the same connection for an
      address: split when typed, or kept whole and split when sending. */
  lemma LabelsAgree(email: string, form: Obj<string>, connections: seq<Connection>, data: Option<SchemaAndCredDefs>)
    ensures PlannedSend(HolderLabelOf(email), form, connections, data)
      == PlannedSend(HolderLabelOf(HolderLabelOf(email)), form, connections, data)
  {
  }
}
