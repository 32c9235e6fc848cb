/**
 * The holder's page: it lists the holder agent's connections, pairs the
 * issuer's schemas with its cred-defs, accepts an invitation pasted as a
 * URL whose `oob=` parameter carries the invitation in URL-safe base64,
 * and proposes a credential from a form.
 */
module HolderPage {
  import opened Wrappers
  import opened Text
  import opened JsObject
  import opened Helper
  import InvitationAcceptance

  const OobMarker := "oob="
  const NoCredentialDefinition := "No Credential Definition"

  // ------------------------------------------------------------ invitation

  /** `invitationUrl.split("oob=")[1]`, `None` where it is `undefined` or
      empty: the text between the first `oob=` and the next. */
  function EncodedInvitation(url: string): (r: Option<string>)
    ensures r.Some? ==> r.value != "" && !Contains(r.value, OobMarker)
  {
    var parts := Split(url, OobMarker);
    SplitPiecesLackSeparator(url, OobMarker);
    if |parts| < 2 || parts[1] == "" then None else Some(parts[1])
  }

  /** `oob=` cannot start inside text that lacks it and is followed by
      `oob=`: the marker does not overlap itself. */
  lemma MarkerStartsAfter(base: string, payload: string)
    requires !Contains(base, OobMarker)
    ensures forall k: nat :: k < |base| ==> !OccursAt(OobMarker, base + OobMarker + payload, k)
  {
    var s := base + OobMarker + payload;
    forall k: nat | k < |base| ensures !OccursAt(OobMarker, s, k) {
      if k + 4 <= |base| {
        assert s[k..k + 4] == base[k..k + 4];
        assert !OccursAt(OobMarker, base, k);
      } else {
        assert s[|base|] == 'o' && s[|base| + 1] == 'o';
        if k + 3 == |base| {
          assert s[k + 3] != OobMarker[3];
        } else {
          assert s[k + 2] != OobMarker[2];
        }
      }
    }
  }

  /** The invitation is read off a URL of the form `<base>oob=<payload>`,
      whatever the base, as long as `oob=` appears only once. */
  lemma InvitationExtracted(base: string, payload: string)
    requires !Contains(base, OobMarker) && !Contains(payload, OobMarker) && payload != ""
    ensures EncodedInvitation(base + OobMarker + payload) == Some(payload)
  {
    MarkerStartsAfter(base, payload);
    SplitPiece(base, OobMarker, payload);
  }

  /** A URL without `oob=` carries no invitation. */
  lemma NoMarkerNoInvitation(url: string)
    requires !Contains(url, OobMarker)
    ensures EncodedInvitation(url) == None
  {
  }

  /** `.replace(/-/g, '+').replace(/_/g, '/')`. */
  function StandardChar(c: char): char {
    if c == '-' then '+' else if c == '_' then '/' else c
  }

  /** URL-safe base64 turned into standard base64, character by
      character. */
  function ToStandardBase64(s: string): (r: string)
    ensures |r| == |s|
    ensures forall i :: 0 <= i < |s| ==> r[i] == StandardChar(s[i])
    ensures '-' !in r && '_' !in r
  {
    seq(|s|, i requires 0 <= i < |s| => StandardChar(s[i]))
  }

  /** The reverse translation, which a URL-safe encoder applies. */
  function ToUrlSafeBase64(s: string): (r: string)
    ensures |r| == |s|
  {
    seq(|s|, i requires 0 <= i < |s| => if s[i] == '+' then '-' else if s[i] == '/' then '_' else s[i])
  }

  /** The translation loses nothing: URL-safe text (no `+` or `/`) is
      recovered from its standard form, so two different URL-safe
      payloads never decode alike. */
  lemma StandardBase64RoundTrip(s: string)
    requires '+' !in s && '/' !in s
    ensures ToUrlSafeBase64(ToStandardBase64(s)) == s
  {
    var r := ToUrlSafeBase64(ToStandardBase64(s));
    forall i | 0 <= i < |s| ensures r[i] == s[i] {
      assert s[i] != '+' && s[i] != '/';
    }
  }

  // ---------------------------------------------------------------- schemas

  /** A schema with the cred-def id paired with it. */
  datatype CombinedSchema = CombinedSchema(schemaId: string, schemaName: string, attributes: seq<string>, credDefId: string)

  /** The `map` of `fetchData`: the i-th schema gets the i-th cred-def id,
      or "No Credential Definition" when there is none (or it is empty). */
  function CombineSchemas(data: SchemaAndCredDefs): (r: seq<CombinedSchema>)
    ensures |r| == |data.schemaDetails|
    ensures forall i :: 0 <= i < |r| ==>
      r[i].schemaId == data.schemaDetails[i].schemaId && r[i].schemaName == data.schemaDetails[i].schemaName
      && r[i].attributes == data.schemaDetails[i].attributes
    ensures forall i :: 0 <= i < |r| ==>
      r[i].credDefId == if i < |data.credDefIds| && data.credDefIds[i] != "" then data.credDefIds[i] else NoCredentialDefinition
  {
    seq(|data.schemaDetails|, i requires 0 <= i < |data.schemaDetails| =>
      var schema := data.schemaDetails[i];
      CombinedSchema(schema.schemaId, schema.schemaName, schema.attributes,
        if i < |data.credDefIds| && data.credDefIds[i] != "" then data.credDefIds[i] else NoCredentialDefinition))
  }

  /** `${c.their_label}: ${c.state}`. */
  function ConnectionLine(c: Connection): string {
    c.theirLabel + ": " + c.state
  }

  /** The `sendCredential` call the proposal makes. */
  datatype Proposal = Proposal(connectionId: string, attributes: Obj<string>, schemaId: string, credDefId: string)

  /** The page's state; a `null` id is `""`. */
  class Holder {
    var connections: seq<string>
    var connectionId: string
    var invitationUrl: string
    var schemas: seq<CombinedSchema>
    var schemaId: string
    var credDefId: string
    var formData: Obj<string>
    var proposals: seq<Proposal>

    constructor ()
      ensures connections == [] && connectionId == "" && invitationUrl == "" && schemas == []
      ensures schemaId == "" && credDefId == "" && formData == [] && proposals == []
    {
      connections, connectionId, invitationUrl, schemas := [], "", "", [];
      schemaId, credDefId, formData, proposals := "", "", [], [];
    }

    /** `fetchConnections` over the holder agent's listing (empty when the
        call failed): one line per connection, and the first connection
        becomes the one proposals go to. With none, reading the first
        throws after the lines are set, and the id stays. */
    method FetchConnections(listing: seq<Connection>)
      modifies this
      ensures |connections| == |listing|
      ensures forall i :: 0 <= i < |listing| ==> connections[i] == ConnectionLine(listing[i])
      ensures connectionId == if listing != [] then listing[0].connectionId else old(connectionId)
      ensures invitationUrl == old(invitationUrl) && schemas == old(schemas) && formData == old(formData)
      ensures schemaId == old(schemaId) && credDefId == old(credDefId) && proposals == old(proposals)
    {
      connections := seq(|listing|, i requires 0 <= i < |listing| => ConnectionLine(listing[i]));
      if listing != [] {
        connectionId := listing[0].connectionId;
      }
    }

    /** `fetchData`, given `fetchSchemaAndCredDefIds` (`None` where it
        throws). */
    method FetchSchemas(data: Option<SchemaAndCredDefs>)
      modifies this
      ensures schemas == if data.Some? then CombineSchemas(data.value) else old(schemas)
      ensures connections == old(connections) && connectionId == old(connectionId)
      ensures invitationUrl == old(invitationUrl) && formData == old(formData) && proposals == old(proposals)
      ensures schemaId == old(schemaId) && credDefId == old(credDefId)
    {
      if data.Some? {
        schemas := CombineSchemas(data.value);
      }
    }

    /** Typing into the invitation box. */
    method EnterInvitationUrl(url: string)
      modifies this
      ensures invitationUrl == url
      ensures connections == old(connections) && connectionId == old(connectionId) && schemas == old(schemas)
      ensures schemaId == old(schemaId) && credDefId == old(credDefId)
      ensures formData == old(formData) && proposals == old(proposals)
    {
      invitationUrl := url;
    }

    /** `handleAcceptInvitation`. `uriDecode` is `decodeURIComponent`
        and `decodeInvitation` is `JSON.parse(atob(...))`, each `None`
        where it throws (or, for the invitation, yields nothing truthy);
        `received` and `listings` are what `acceptInvitation` meets at the
        agent, and `refreshed` what the reload of the connections lists.
        The result is the standard base64 text decoded, if any, and
        whether the invitation was accepted; an accepted invitation clears
        the box. */
    method AcceptInvitation(uriDecode: string -> Option<string>, decodeInvitation: string -> Option<string>,
      received: bool, listings: nat -> seq<Connection>, refreshed: seq<Connection>)
      returns (decoded: Option<string>, accepted: bool)
      modifies this
      ensures decoded.Some? <==> (EncodedInvitation(old(invitationUrl)).Some?
        && uriDecode(EncodedInvitation(old(invitationUrl)).value).Some?)
      ensures decoded.Some? ==> decoded.value == ToStandardBase64(uriDecode(EncodedInvitation(old(invitationUrl)).value).value)
      ensures accepted ==> decoded.Some? && decodeInvitation(decoded.value).Some?
      ensures accepted ==> invitationUrl == "" && |connections| == |refreshed|
      ensures accepted ==> (forall i :: 0 <= i < |refreshed| ==> connections[i] == ConnectionLine(refreshed[i]))
      ensures accepted ==> connectionId == (if refreshed != [] then refreshed[0].connectionId else old(connectionId))
      ensures !accepted ==> (invitationUrl == old(invitationUrl) && connections == old(connections)
        && connectionId == old(connectionId))
      ensures decoded.Some? && decodeInvitation(decoded.value).Some? ==>
        (accepted <==> received && exists n :: (1 <= n <= InvitationAcceptance.MaxRetries
          && InvitationAcceptance.PingTarget(listings(n)).Some?))
      ensures schemas == old(schemas) && formData == old(formData) && proposals == old(proposals)
      ensures schemaId == old(schemaId) && credDefId == old(credDefId)
    {
      decoded, accepted := None, false;
      var encoded := EncodedInvitation(invitationUrl);
      if encoded.None? {
        return;
      }
      var url := uriDecode(encoded.value);
      if url.None? {
        return;
      }
      decoded := Some(ToStandardBase64(url.value));
      var invitation := decodeInvitation(decoded.value);
      if invitation.None? {
        return;
      }
      var fetches, pings;
      accepted, fetches, pings := InvitationAcceptance.AcceptInvitation(received, listings);
      if accepted {
        FetchConnections(refreshed);
        invitationUrl := "";
      }
    }

    /** `handleAttributeChange`. */
    method ChangeAttribute(attribute: string, value: string)
      modifies this
      ensures formData == Set(old(formData), attribute, value)
      ensures forall k :: Get(formData, k) == if k == attribute then Some(value) else Get(old(formData), k)
      ensures connectionId == old(connectionId) && schemaId == old(schemaId) && credDefId == old(credDefId)
      ensures proposals == old(proposals) && invitationUrl == old(invitationUrl)
    {
      formData := Set(formData, attribute, value);
      forall k {
        GetSet(old(formData), attribute, value, k);
      }
    }

    /** Typing into the schema-id and cred-def-id boxes. */
    method EnterIds(schema: string, credDef: string)
      modifies this
      ensures schemaId == schema && credDefId == credDef
      ensures connectionId == old(connectionId) && formData == old(formData) && proposals == old(proposals)
      ensures invitationUrl == old(invitationUrl) && connections == old(connections) && schemas == old(schemas)
    {
      schemaId, credDefId := schema, credDef;
    }

    /** `handleSendCredentialProposal`: nothing goes out without a
        connection, a schema id and a cred-def id; otherwise a copy of the
        form is proposed under them. */
    method SendCredentialProposal()
      modifies this
      ensures connectionId == "" || schemaId == "" || credDefId == "" ==> proposals == old(proposals)
      ensures connectionId != "" && schemaId != "" && credDefId != "" ==>
        proposals == old(proposals) + [Proposal(connectionId, formData, schemaId, credDefId)]
      ensures connectionId == old(connectionId) && schemaId == old(schemaId) && credDefId == old(credDefId)
      ensures formData == old(formData) && invitationUrl == old(invitationUrl)
    {
      if connectionId == "" || schemaId == "" || credDefId == "" {
        return;
      }
      proposals := proposals + [Proposal(connectionId, formData, schemaId, credDefId)];
    }
  }
}
