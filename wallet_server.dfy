/**
 * The local server behind the wallet extension, which speaks to the
 * holder's agent: it reports active connections, forwards credential
 * proposals, shows the pending proof request and answers it in two steps,
 * first for the user's review and then, once confirmed, for real. Each
 * route is a function from what the agent listed to the reply; replies are
 * named by their meaning, and `ProofRequestStatus` and `PresentationStatus`
 * give their HTTP statuses.
 */
module WalletServer {
  import opened Wrappers
  import opened JsObject
  import opened Helper
  import opened HolderPresentation
  import opened CredentialProposal
  import Lists

  // ------------------------------------------------- /check-connection

  datatype ConnectionDetail = ConnectionDetail(connectionId: string, theirLabel: string)

  datatype ConnectionCheck = Connected(details: seq<ConnectionDetail>) | NotConnected

  predicate Active(c: Connection) {
    c.state == "active"
  }

  function DetailOf(c: Connection): ConnectionDetail {
    ConnectionDetail(c.connectionId, c.theirLabel)
  }

  /** `/check-connection`: the active connections, in order, reduced to
      their id and label; not connected when there is none. */
  function CheckConnection(listed: Response<seq<Connection>>): (r: ConnectionCheck)
    ensures var connections := ResultsOrEmpty(listed);
      (r.NotConnected? <==> forall k :: 0 <= k < |connections| ==> !Active(connections[k]))
      && (r.Connected? ==> r.details == Lists.Map(Lists.Filter(connections, Active), DetailOf))
  {
    var active := Lists.Filter(ResultsOrEmpty(listed), Active);
    if |active| > 0 then
      assert Active(active[0]) && active[0] in ResultsOrEmpty(listed);
      Connected(Lists.Map(active, DetailOf))
    else NotConnected
  }

  /** Every active connection is reported, and only active ones. */
  lemma CheckConnectionReportsActive(listed: Response<seq<Connection>>, c: Connection)
    requires c in ResultsOrEmpty(listed)
    ensures Active(c) ==> CheckConnection(listed).Connected? && DetailOf(c) in CheckConnection(listed).details
    ensures CheckConnection(listed).Connected? ==>
      forall d :: d in CheckConnection(listed).details ==>
        exists a :: a in ResultsOrEmpty(listed) && Active(a) && d == DetailOf(a)
  {
    var active := Lists.Filter(ResultsOrEmpty(listed), Active);
    if Active(c) {
      var i :| 0 <= i < |active| && active[i] == c;
      assert Lists.Map(active, DetailOf)[i] == DetailOf(c);
    }
    if CheckConnection(listed).Connected? {
      forall d | d in CheckConnection(listed).details
        ensures exists a :: a in ResultsOrEmpty(listed) && Active(a) && d == DetailOf(a)
      {
        var i :| 0 <= i < |active| && Lists.Map(active, DetailOf)[i] == d;
        assert active[i] in ResultsOrEmpty(listed);
      }
    }
  }

  // ---------------------------------------- /send-credential-proposal

  /** The request body; an empty string stands for a missing field. */
  datatype ProposalRequest = ProposalRequest(
    connectionId: string, credAttrs: Option<seq<Attribute>>, comment: Option<string>,
    autoRemove: Option<bool>, schemaId: string, credDefId: string)

  function Pairs(credAttrs: seq<Attribute>): (pairs: seq<(string, string)>)
    ensures |pairs| == |credAttrs|
    ensures forall i :: 0 <= i < |pairs| ==> pairs[i] == (credAttrs[i].name, credAttrs[i].value)
  {
    seq(|credAttrs|, i requires 0 <= i < |credAttrs| => (credAttrs[i].name, credAttrs[i].value))
  }

  /** The `forEach` that copies the attribute list into an object. */
  method CredAttrsObject(credAttrs: seq<Attribute>) returns (obj: Obj<string>)
    ensures obj == FromEntries(Pairs(credAttrs))
    ensures forall name :: Get(obj, name) == LastValue(Pairs(credAttrs), name)
  {
    obj := [];
    var i := 0;
    while i < |credAttrs|
      invariant 0 <= i <= |credAttrs|
      invariant obj == FromEntries(Pairs(credAttrs)[..i])
    {
      assert Pairs(credAttrs)[..i + 1][..i] == Pairs(credAttrs)[..i];
      obj := Set(obj, credAttrs[i].name, credAttrs[i].value);
      i := i + 1;
    }
    assert Pairs(credAttrs)[..i] == Pairs(credAttrs);
    forall name {
      GetFromEntries(Pairs(credAttrs), name);
    }
  }

  predicate MissingProposalField(req: ProposalRequest) {
    req.connectionId == "" || req.credAttrs.None? || req.schemaId == "" || req.credDefId == ""
  }

  /** `/send-credential-proposal`: 400 without posting when a required
      field is missing; otherwise the proposal built from the attribute
      object is posted and the reply is 200 or 500 as the agent accepts
      it or not. */
  method ProposeCredential(req: ProposalRequest, agentAccepts: Proposal -> bool)
    returns (status: int, posted: Option<Proposal>)
    ensures MissingProposalField(req) ==> status == 400 && posted.None?
    ensures !MissingProposalField(req) ==>
      posted == Some(ProposalPayload(req.connectionId, FromEntries(Pairs(req.credAttrs.value)),
        req.comment, req.autoRemove, req.schemaId, req.credDefId))
      && status == (if agentAccepts(posted.value) then 200 else 500)
  {
    if MissingProposalField(req) {
      return 400, None;
    }
    var credAttrsObj := CredAttrsObject(req.credAttrs.value);
    var proposal := ProposalPayload(req.connectionId, credAttrsObj, req.comment, req.autoRemove, req.schemaId, req.credDefId);
    var success := SendCredentialProposal(req.connectionId, credAttrsObj, req.comment, req.autoRemove,
      req.schemaId, req.credDefId, agentAccepts);
    posted := Some(proposal);
    status := if success then 200 else 500;
  }

  // ---------------------------------------------- /get-proof-request

  datatype ProofRequestReply = NoProofRequests | NoValidProofRequest | ProofRequestFound(request: PresentProof)

  function ProofRequestStatus(r: ProofRequestReply): int {
    match r
    case NoProofRequests => 404
    case NoValidProofRequest => 400
    case ProofRequestFound(_) => 200
  }

  /** `p.state[0]`: the state's first character, as a one-character
      string, or `undefined` for an empty state. */
  function FirstCharacter(s: string): (r: Option<string>)
    ensures r.Some? ==> |r.value| == 1
  {
    if s == [] then None else Some([s[0]])
  }

  predicate StateTestAsWritten(p: PresentProof) {
    FirstCharacter(p.state) == Some("request_received")
  }

  /** `/get-proof-request` as written: it compares one character with a
      whole state name. */
  function GetProofRequestAsWritten(listed: Response<seq<PresentProof>>): ProofRequestReply {
    var proofs := ResultsOrEmpty(listed);
    if proofs == [] then NoProofRequests
    else match Lists.Find(proofs, StateTestAsWritten)
      case None => NoValidProofRequest
      case Some(p) => ProofRequestFound(p)
  }

  /** As written the route never shows a request: any non-empty listing is
      answered 400. */
  lemma AsWrittenNeverFindsRequest(listed: Response<seq<PresentProof>>)
    ensures !GetProofRequestAsWritten(listed).ProofRequestFound?
    ensures ResultsOrEmpty(listed) != [] ==> GetProofRequestAsWritten(listed) == NoValidProofRequest
  {
    var proofs := ResultsOrEmpty(listed);
    forall k | 0 <= k < |proofs| ensures !StateTestAsWritten(proofs[k]) {
      assert |"request_received"| != 1;
    }
  }

  /** A holder with one received request is told there is none. */
  lemma AsWrittenMissesReceivedRequest()
    ensures var request := PresentProof("pres-1", "request-received", "conn-1", "", None);
      GetProofRequestAsWritten(Ok([request])) == NoValidProofRequest
      && GetProofRequest(Ok([request])) == ProofRequestFound(request)
  {
    var request := PresentProof("pres-1", "request-received", "conn-1", "", None);
    AsWrittenNeverFindsRequest(Ok([request]));
    assert RequestReceived([request][0]);
  }

  /** `/get-proof-request` as intended: the request `/send-presentation`
      would answer, the first in state "request-received". */
  function GetProofRequest(listed: Response<seq<PresentProof>>): (r: ProofRequestReply)
    ensures ResultsOrEmpty(listed) == [] <==> r == NoProofRequests
    ensures r.ProofRequestFound? <==> PendingRequest(ResultsOrEmpty(listed)).Some?
    ensures r.ProofRequestFound? ==> r.request == PendingRequest(ResultsOrEmpty(listed)).value
  {
    var proofs := ResultsOrEmpty(listed);
    if proofs == [] then NoProofRequests
    else match PendingRequest(proofs)
      case None => NoValidProofRequest
      case Some(p) => ProofRequestFound(p)
  }

  // --------------------------------------------- /send-presentation

  datatype PresentationReply<T> =
    | NoProofRequestsFound
    | NoValidRequest
    | NoWalletCredentials
    | NoMatchingCredential
    | ConfirmationRequired(requestedAttributes: Obj<RequestedAttribute>, credentialId: string)
    | PresentationFailed
    | PresentationSent(response: T)

  function PresentationStatus<T>(r: PresentationReply<T>): int {
    match r
    case NoProofRequestsFound => 404
    case NoValidRequest => 400
    case NoWalletCredentials => 404
    case NoMatchingCredential => 400
    case ConfirmationRequired(_, _) => 200
    case PresentationFailed => 500
    case PresentationSent(_) => 200
  }

  /** `/get-wallet-credentials` as `/send-presentation` reads it: the
      credentials, or nothing when that route answers without a
      `WalletCredentials` list (none found, or the agent failed). */
  function WalletCredentialsListed(wallet: Response<seq<WalletRecord>>): (r: Option<seq<WalletCredential>>)
    ensures r.Some? <==> WalletCredentialIds(wallet) != []
    ensures r.Some? ==> r.value == WalletCredentialIds(wallet)
  {
    var credentials := WalletCredentialIds(wallet);
    if credentials == [] then None else Some(credentials)
  }

  /** `restrictions?.[0]?.cred_def_id`, with `undefined` as the empty
      string. */
  function FirstRestrictionCredDef(a: RequestedAttribute): string {
    if a.restrictions == [] then "" else a.restrictions[0].credDefId.GetOr("")
  }

  predicate NonEmpty(s: string) {
    s != ""
  }

  /** The cred-def ids a proof request restricts its attributes to, falsy
      ones dropped. */
  function RequestedCredDefIds(requested: Obj<RequestedAttribute>): (ids: seq<string>)
    ensures forall id :: id in ids <==>
      id != "" && exists i :: 0 <= i < |requested| && FirstRestrictionCredDef(requested[i].1) == id
  {
    var all := Lists.Map(Values(requested), FirstRestrictionCredDef);
    var ids := Lists.Filter(all, NonEmpty);
    assert forall i :: 0 <= i < |requested| ==> all[i] == FirstRestrictionCredDef(requested[i].1);
    ids
  }

  /** The first wallet credential issued under one of the requested
      cred-defs. */
  function MatchCredential(wallet: seq<WalletCredential>, ids: seq<string>): (r: Option<WalletCredential>)
    ensures r.Some? ==> r.value.credDefId in ids
    ensures r.Some? ==>
      exists i :: 0 <= i < |wallet| && wallet[i] == r.value
        && forall k :: 0 <= k < i ==> wallet[k].credDefId !in ids
    ensures r.None? <==> forall k :: 0 <= k < |wallet| ==> wallet[k].credDefId !in ids
  {
    match Lists.FirstIndex(wallet, (c: WalletCredential) => c.credDefId in ids)
    case None => None
    case Some(i) => Some(wallet[i])
  }

  /** `/send-presentation`. The agent's records are read once: the listing
      `sendPresentation` fetches again is taken to be the same. */
  function SendPresentationRoute<T>(
    userConfirmed: bool, listed: Response<seq<PresentProof>>, wallet: Response<seq<WalletRecord>>,
    reply: PresentationPost -> Response<T>): (r: PresentationReply<T>)
    ensures ResultsOrEmpty(listed) == [] ==> r == NoProofRequestsFound
    ensures ResultsOrEmpty(listed) != [] && PendingRequest(ResultsOrEmpty(listed)).None? ==> r == NoValidRequest
    ensures (r.ConfirmationRequired? || r.PresentationSent? || r.PresentationFailed?) ==>
      var request := PendingRequest(ResultsOrEmpty(listed));
      request.Some? && request.value.requestedAttributes.Some?
      && WalletCredentialsListed(wallet).Some?
      && MatchCredential(WalletCredentialsListed(wallet).value,
           RequestedCredDefIds(request.value.requestedAttributes.value)).Some?
    ensures r.ConfirmationRequired? ==> !userConfirmed
    ensures (r.PresentationSent? || r.PresentationFailed?) ==> userConfirmed
    ensures var request := PendingRequest(ResultsOrEmpty(listed));
      ResultsOrEmpty(listed) != [] && request.Some? ==>
      (r == NoWalletCredentials <==> WalletCredentialsListed(wallet).None?)
    ensures var request := PendingRequest(ResultsOrEmpty(listed));
      ResultsOrEmpty(listed) != [] && request.Some? && WalletCredentialsListed(wallet).Some? ==>
      (r == NoMatchingCredential <==> (request.value.requestedAttributes.None?
        || MatchCredential(WalletCredentialsListed(wallet).value,
             RequestedCredDefIds(request.value.requestedAttributes.value)).None?))
    ensures var request := PendingRequest(ResultsOrEmpty(listed));
      ResultsOrEmpty(listed) != [] && request.Some? && request.value.requestedAttributes.Some?
      && WalletCredentialsListed(wallet).Some?
      && MatchCredential(WalletCredentialsListed(wallet).value,
           RequestedCredDefIds(request.value.requestedAttributes.value)).Some? ==>
      var matched := MatchCredential(WalletCredentialsListed(wallet).value,
        RequestedCredDefIds(request.value.requestedAttributes.value)).value;
      var sent := SendPresentation(matched.referent, ResultsOrEmpty(listed), reply);
      (!userConfirmed ==> r == ConfirmationRequired(request.value.requestedAttributes.value, matched.referent))
      && (userConfirmed && sent.Some? ==> r == PresentationSent(sent.value))
      && (userConfirmed && sent.None? ==> r == PresentationFailed)
  {
    var proofs := ResultsOrEmpty(listed);
    if proofs == [] then NoProofRequestsFound
    else match PendingRequest(proofs)
      case None => NoValidRequest
      case Some(request) =>
        match WalletCredentialsListed(wallet)
        case None => NoWalletCredentials
        case Some(credentials) =>
          match request.requestedAttributes
          case None => NoMatchingCredential
          case Some(requested) =>
            match MatchCredential(credentials, RequestedCredDefIds(requested))
            case None => NoMatchingCredential
            case Some(matched) =>
              if !userConfirmed then ConfirmationRequired(requested, matched.referent)
              else match SendPresentation(matched.referent, proofs, reply)
                case None => PresentationFailed
                case Some(response) => PresentationSent(response)
  }

  /** The two steps agree: the credential the user is asked to confirm is
      the one the confirmed call presents, it was issued under a cred-def
      the request names, and the presentation answers the very request
      shown, revealing each requested attribute from that credential. */
  lemma ConfirmedPresentationIsTheReviewedOne<T>(
    listed: Response<seq<PresentProof>>, wallet: Response<seq<WalletRecord>>,
    reply: PresentationPost -> Response<T>)
    requires SendPresentationRoute(true, listed, wallet, reply).PresentationSent?
    ensures var review := SendPresentationRoute(false, listed, wallet, reply);
      var request := PendingRequest(ResultsOrEmpty(listed)).value;
      review.ConfirmationRequired?
      && review.requestedAttributes == request.requestedAttributes.value
      && review.credentialId in Lists.Map(WalletCredentialIds(wallet), (c: WalletCredential) => c.referent)
      && PresentationPostFor(review.credentialId, ResultsOrEmpty(listed))
         == Some(PresentationPost(request.presExId,
              Presentation(RevealAll(Keys(review.requestedAttributes), review.credentialId), [], [], true, true)))
  {
    var proofs := ResultsOrEmpty(listed);
    var request := PendingRequest(proofs).value;
    var credentials := WalletCredentialsListed(wallet).value;
    var matched := MatchCredential(credentials, RequestedCredDefIds(request.requestedAttributes.value)).value;
    var i :| 0 <= i < |credentials| && credentials[i] == matched;
    assert Lists.Map(credentials, (c: WalletCredential) => c.referent)[i] == matched.referent;
  }
}
