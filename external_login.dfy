/**
 * The two "sign in with the wallet" pages: the verifier's external page and
 * the OCR issuer's external page. Both create an invitation for the wallet,
 * resolve the holder's connection by its label when the wallet reports
 * success, send a proof request, and then poll the agent every three
 * seconds until the proof exchange is done; a verified proof is deleted
 * from the agent and the browser is sent on. The OCR issuer's page also
 * hands the connection to the OCR page and only asks for a proof once a
 * proof configuration saved under "Issuer2" exists.
 *
 * Every agent or route call is an input: the listing it returned (a failed
 * listing is empty), or `None` where the call threw. One poll of the timer
 * is one step over a listing.
 */
module ExternalLogin {
  import opened Wrappers
  import opened Helper
  import Lists
  import VerifierProofRequest
  import Json
  import ProofConfigDb

  const VerifierUrl := VerifierProofRequest.VerifierUrl
  const IssuerUrl := "http://localhost:11004"
  const ConfigOwner := "Issuer2"
  const ProofName := "Proof"

  datatype PageKind = VerifierPage | OcrIssuerPage

  function AgentUrl(kind: PageKind): string {
    if kind.VerifierPage? then VerifierUrl else IssuerUrl
  }

  /** Where a verified proof sends the browser. */
  function SuccessPath(kind: PageKind): string {
    if kind.VerifierPage? then "/verifier/verifiedWebsite" else "/issuerOCRCredential/OCR"
  }

  /** The messages the page posts to the wallet extension. */
  datatype Message = LoginRequest | AriesInvitation(url: string) | AriesProofRequest

  /** `event.data.data` of a message from the wallet. */
  datatype WalletMessage = WalletMessage(messageType: string, success: bool, holderLabel: string)

  // ----------------------------------------------------------- proof request

  /** A `sendProofRequest` call: the agent the request is posted to, and
      the two arguments the function takes. */
  datatype RequestCall = RequestCall(agentUrl: string, connectionId: string, name: string)

  /** The call `sendProofRequest(agentUrl, connectionId, "Proof", ...)` as
      written: every argument lands one place to the left of the parameter
      it was meant for, and the request goes to the verifier's agent,
      which `sendProofRequest` always posts to. */
  function ProofRequestCallAsWritten(kind: PageKind, connectionId: string): RequestCall {
    RequestCall(VerifierProofRequest.VerifierUrl, AgentUrl(kind), connectionId)
  }

  /** The call meant: the holder's connection and the name "Proof", posted
      to the agent that holds the connection. */
  function ProofRequestCall(kind: PageKind, connectionId: string): RequestCall {
    RequestCall(AgentUrl(kind), connectionId, ProofName)
  }

  /** What a call posts: the request `sendProofRequest` plans, sent to the
      call's agent. */
  function RequestOf(call: RequestCall, storage: VerifierProofRequest.Storage, nowMs: nat): (r: Option<VerifierProofRequest.ProofRequest>)
    ensures r.Some? ==> r.value.agentUrl == call.agentUrl
    ensures r.Some? <==> VerifierProofRequest.PlannedRequest(storage, call.connectionId, call.name, nowMs).Some?
  {
    match VerifierProofRequest.PlannedRequest(storage, call.connectionId, call.name, nowMs)
    case None => None
    case Some(request) => Some(request.(agentUrl := call.agentUrl))
  }

  /** The storage a request can be planned from: a non-empty attribute
      list and a truthy cred-def id. */
  predicate RequestReady(storage: VerifierProofRequest.Storage) {
    var attributes := VerifierProofRequest.ReadJson(storage, VerifierProofRequest.AttributesKey);
    var credDefId := VerifierProofRequest.ReadJson(storage, VerifierProofRequest.CredDefIdKey);
    attributes.Some? && attributes.value.StrArray? && attributes.value.items != []
    && credDefId.Some? && Json.Truthy(credDefId.value)
  }

  /** As written, the request that goes out names the agent's URL as its
      connection and carries the holder's connection id as its name, so
      it never reaches the holder's connection; on the OCR issuer's page
      it also goes to an agent other than the page's own. */
  lemma AsWrittenRequestMissesConnection(storage: VerifierProofRequest.Storage, kind: PageKind, connectionId: string, nowMs: nat)
    requires RequestReady(storage) && connectionId != AgentUrl(kind)
    ensures var call := ProofRequestCallAsWritten(kind, connectionId);
      var r := VerifierProofRequest.PlannedRequest(storage, call.connectionId, call.name, nowMs);
      r.Some? && r.value.connectionId == AgentUrl(kind) && r.value.connectionId != connectionId
      && r.value.name == connectionId
      && (kind.OcrIssuerPage? ==> r.value.agentUrl != AgentUrl(kind))
  {
  }

  /** Putting the arguments in their places is not enough on the OCR
      issuer's page: the request still goes to the verifier's agent,
      while the connection was made with the issuer's. */
  lemma OcrRequestMissesAgent(storage: VerifierProofRequest.Storage, connectionId: string, nowMs: nat)
    requires RequestReady(storage)
    ensures var r := VerifierProofRequest.PlannedRequest(storage, connectionId, ProofName, nowMs);
      r.Some? && r.value.agentUrl == VerifierUrl && r.value.agentUrl != AgentUrl(OcrIssuerPage)
  {
  }

  /** With the intended call the request goes to the holder's connection,
      on the agent that holds it, under the name "Proof"; on the
      verifier's page that is exactly what `sendProofRequest` posts once
      the arguments are in their places. */
  lemma RequestReachesConnection(storage: VerifierProofRequest.Storage, kind: PageKind, connectionId: string, nowMs: nat)
    requires RequestReady(storage)
    ensures var r := RequestOf(ProofRequestCall(kind, connectionId), storage, nowMs);
      r.Some? && r.value.agentUrl == AgentUrl(kind)
      && r.value.connectionId == connectionId && r.value.name == ProofName
    ensures kind.VerifierPage? ==>
      RequestOf(ProofRequestCall(kind, connectionId), storage, nowMs)
      == VerifierProofRequest.PlannedRequest(storage, connectionId, ProofName, nowMs)
  {
  }

  // -------------------------------------------------------------- the poll

  /** What the poll reads and writes: the proof exchange being watched
      (`""` for none), its last seen state, the verdict, the exchanges
      deleted from the agent, and where the browser was sent. */
  datatype PollState = PollState(
    presExId: string, proofState: Option<string>, isVerified: Option<bool>,
    deleted: seq<string>, redirect: Option<string>)

  /** The interval runs while an exchange is watched and its state is not
      "done". */
  predicate PollingActive(p: PollState) {
    p.presExId != "" && p.proofState != Some("done")
  }

  /** The two fields the pages search the present-proof records by. */
  datatype ProofField = ExchangeId | ConnectionOf

  function FieldOf(x: PresentProof, field: ProofField): string {
    if field.ExchangeId? then x.presExId else x.connectionId
  }

  /** `records.find((p) => p.<field> === value)`: the first record whose
      field holds the value. */
  function FindRecord(records: seq<PresentProof>, field: ProofField, value: string): (r: Option<PresentProof>)
    ensures r.Some? ==> exists i :: (0 <= i < |records| && records[i] == r.value && FieldOf(records[i], field) == value
      && forall k :: 0 <= k < i ==> FieldOf(records[k], field) != value)
    ensures r.None? <==> forall k :: 0 <= k < |records| ==> FieldOf(records[k], field) != value
  {
    Lists.Find(records, (x: PresentProof) => FieldOf(x, field) == value)
  }

  /** The watched exchange is not shown "done" in a listing. */
  predicate NotDoneIn(records: seq<PresentProof>, presExId: string) {
    var x := FindRecord(records, ExchangeId, presExId);
    x.None? || x.value.state != "done"
  }

  /** `checkProofStatus` over one listing. */
  function Step(p: PollState, records: seq<PresentProof>, successPath: string): (q: PollState)
    ensures q.presExId == p.presExId
    ensures q.deleted != p.deleted ==>
      q.deleted == p.deleted + [p.presExId] && q.redirect == Some(successPath) && q.isVerified == Some(true)
    ensures q.redirect != p.redirect ==> q.deleted == p.deleted + [p.presExId]
  {
    if p.presExId == "" then p
    else match FindRecord(records, ExchangeId, p.presExId)
      case None => p
      case Some(proof) =>
        var seen := p.(proofState := Some(proof.state));
        if proof.state != "done" then seen
        else if proof.verified != "true" then seen.(isVerified := Some(false))
        else seen.(isVerified := Some(true), deleted := p.deleted + [p.presExId], redirect := Some(successPath))
  }

  /** The record of the first listing in which the watched exchange shows
      up as "done"; none when it is "done" in no listing. */
  function DoneRecord(listings: seq<seq<PresentProof>>, presExId: string): (r: Option<PresentProof>)
    ensures r.Some? ==> r.value.presExId == presExId && r.value.state == "done"
  {
    if listings == [] then None
    else match FindRecord(listings[0], ExchangeId, presExId)
      case Some(proof) => if proof.state == "done" then Some(proof) else DoneRecord(listings[1..], presExId)
      case None => DoneRecord(listings[1..], presExId)
  }

  /** `DoneRecord` comes from the first listing that shows the exchange
      "done", and there is none exactly when no listing does. */
  lemma {:induction false} DoneRecordIsFirst(listings: seq<seq<PresentProof>>, presExId: string)
    ensures var r := DoneRecord(listings, presExId);
      r.Some? ==> exists j :: (0 <= j < |listings| && FindRecord(listings[j], ExchangeId, presExId) == r
        && forall k :: 0 <= k < j ==> NotDoneIn(listings[k], presExId))
    ensures DoneRecord(listings, presExId).None? <==> forall k :: 0 <= k < |listings| ==> NotDoneIn(listings[k], presExId)
  {
    if listings != [] {
      var r := DoneRecord(listings, presExId);
      var tail := listings[1..];
      DoneRecordIsFirst(tail, presExId);
      if NotDoneIn(listings[0], presExId) {
        assert r == DoneRecord(tail, presExId);
        if r.Some? {
          var j :| 0 <= j < |tail| && FindRecord(tail[j], ExchangeId, presExId) == r
            && forall k :: 0 <= k < j ==> NotDoneIn(tail[k], presExId);
          assert listings[j + 1] == tail[j];
          forall k | 0 <= k < j + 1 ensures NotDoneIn(listings[k], presExId) {
            if k > 0 {
              assert listings[k] == tail[k - 1];
            }
          }
        } else {
          forall k | 0 <= k < |listings| ensures NotDoneIn(listings[k], presExId) {
            if k > 0 {
              assert listings[k] == tail[k - 1];
            }
          }
        }
      } else {
        assert r == FindRecord(listings[0], ExchangeId, presExId);
      }
    }
  }

  /** The timer: one step per listing while polling is active. */
  function Run(p: PollState, listings: seq<seq<PresentProof>>, successPath: string): PollState
    decreases |listings|
  {
    if listings == [] || !PollingActive(p) then p
    else Run(Step(p, listings[0], successPath), listings[1..], successPath)
  }

  /** The outcome of polling: it stops exactly at the first listing in which
      the exchange is "done"; the verdict is that record's `verified`, and
      only a verified proof is deleted and sends the browser on. Before
      that the verdict, deletions and redirect are untouched and polling
      goes on. */
  lemma {:induction false} RunVerdict(p: PollState, listings: seq<seq<PresentProof>>, successPath: string)
    requires PollingActive(p)
    ensures var q := Run(p, listings, successPath);
      var done := DoneRecord(listings, p.presExId);
      q.presExId == p.presExId
      && (done.None? ==>
        PollingActive(q) && q.isVerified == p.isVerified && q.deleted == p.deleted && q.redirect == p.redirect)
      && (done.Some? ==>
        !PollingActive(q) && q.isVerified == Some(done.value.verified == "true")
        && (done.value.verified == "true" ==> q.deleted == p.deleted + [p.presExId] && q.redirect == Some(successPath))
        && (done.value.verified != "true" ==> q.deleted == p.deleted && q.redirect == p.redirect))
    decreases |listings|
  {
    if listings != [] {
      var next := Step(p, listings[0], successPath);
      match FindRecord(listings[0], ExchangeId, p.presExId)
      case Some(proof) =>
        if proof.state != "done" {
          RunVerdict(next, listings[1..], successPath);
        }
      case None =>
        RunVerdict(next, listings[1..], successPath);
    }
  }

  // -------------------------------------------------------------- the page

  /** What the message handler leaves behind besides the poll. */
  datatype PageState = PageState(
    connectionId: string, ocrConnectionId: string, poll: PollState,
    messages: seq<Message>, requests: seq<RequestCall>)

  predicate HasLabel(c: Connection, holderLabel: string) {
    c.theirLabel == holderLabel
  }

  /** `connections.find((c) => c.their_label === label)`. */
  function ConnectionByLabel(connections: seq<Connection>, holderLabel: string): (r: Option<Connection>)
    ensures r.Some? ==> r.value in connections && r.value.theirLabel == holderLabel
    ensures r.Some? ==> exists i :: (0 <= i < |connections| && connections[i] == r.value
      && forall k :: 0 <= k < i ==> connections[k].theirLabel != holderLabel)
    ensures r.None? ==> forall k :: 0 <= k < |connections| ==> connections[k].theirLabel != holderLabel
  {
    match Lists.FirstIndex(connections, (c: Connection) => HasLabel(c, holderLabel))
    case None => None
    case Some(i) => Some(connections[i])
  }

  /** Whether the page asks for a proof: the verifier's always, the OCR
      issuer's when the "Issuer2" configurations came back non-empty. The
      latest configuration is passed on as two extra arguments, which
      `sendProofRequest` does not take. */
  predicate AsksForProof(kind: PageKind, configs: Option<seq<ProofConfigDb.ProofConfig>>) {
    kind.VerifierPage? || (configs.Some? && configs.value != [])
  }

  /** The message handler over state `s`: `connections` is what
      `getConnections` returned, `configs` the "Issuer2" configurations
      (`None` when that fetch failed and threw), `requestThrows` whether
      `sendProofRequest` threw, and `records` what `getPresentProof`
      returned. A throw ends the handler where it happens. The proof
      request is recorded as the call meant (`ProofRequestCall`); the call
      the pages make is `ProofRequestCallAsWritten`. */
  function Handled(s: PageState, kind: PageKind, message: WalletMessage, connections: seq<Connection>,
    configs: Option<seq<ProofConfigDb.ProofConfig>>, requestThrows: bool, records: seq<PresentProof>): PageState
  {
    if message.messageType != "ARIES_CONNECTION_RESULT" || !message.success then s
    else match ConnectionByLabel(connections, message.holderLabel)
      case None => s
      case Some(c) =>
        var resolved := s.(connectionId := c.connectionId,
          ocrConnectionId := if kind.OcrIssuerPage? then c.connectionId else s.ocrConnectionId);
        if kind.OcrIssuerPage? && configs.None? then resolved
        else
          var asked := if AsksForProof(kind, configs) then resolved.(requests := s.requests + [ProofRequestCall(kind, c.connectionId)]) else resolved;
          if AsksForProof(kind, configs) && requestThrows then asked
          else
            var announced := asked.(messages := s.messages + [AriesProofRequest]);
            match FindRecord(records, ConnectionOf, c.connectionId)
            case None => announced
            case Some(proof) =>
              announced.(poll := s.poll.(presExId := proof.presExId, proofState := Some(proof.state)))
  }

  /** What a wallet message can change: nothing unless it reports a
      successful connection whose label an agent connection carries; then
      the page holds the first such connection (and, on the OCR issuer's
      page, hands it on), and the exchange it watches, if any, belongs to
      that connection. Verdicts, deletions and redirects are never touched.
      */
  lemma HandledResolvesConnection(s: PageState, kind: PageKind, message: WalletMessage, connections: seq<Connection>,
    configs: Option<seq<ProofConfigDb.ProofConfig>>, requestThrows: bool, records: seq<PresentProof>)
    ensures var t := Handled(s, kind, message, connections, configs, requestThrows, records);
      var c := ConnectionByLabel(connections, message.holderLabel);
      t.poll.isVerified == s.poll.isVerified && t.poll.deleted == s.poll.deleted && t.poll.redirect == s.poll.redirect
      && ((message.messageType != "ARIES_CONNECTION_RESULT" || !message.success || c.None?) ==> t == s)
      && (t != s ==> c.Some? && t.connectionId == c.value.connectionId)
      && (t != s && kind.OcrIssuerPage? ==> t.ocrConnectionId == c.value.connectionId)
      && (kind.VerifierPage? ==> t.ocrConnectionId == s.ocrConnectionId)
      && (t.poll.presExId != s.poll.presExId ==>
        exists k :: 0 <= k < |records| && records[k].presExId == t.poll.presExId
          && records[k].connectionId == c.value.connectionId)
      && (|t.requests| > |s.requests| ==> t.requests == s.requests + [ProofRequestCall(kind, c.value.connectionId)])
  {
    var t := Handled(s, kind, message, connections, configs, requestThrows, records);
    if message.messageType == "ARIES_CONNECTION_RESULT" && message.success {
      match ConnectionByLabel(connections, message.holderLabel)
      case None =>
      case Some(c) =>
        match FindRecord(records, ConnectionOf, c.connectionId)
        case None =>
        case Some(proof) =>
          if t.poll.presExId != s.poll.presExId {
            var k :| 0 <= k < |records| && records[k] == proof;
          }
    }
  }

  /** The OCR issuer's page asks for a proof only when a configuration was
      saved under "Issuer2"; when that fetch fails it stops right after
      handing the connection on. */
  lemma OcrIssuerNeedsConfig(s: PageState, message: WalletMessage, connections: seq<Connection>,
    configs: Option<seq<ProofConfigDb.ProofConfig>>, requestThrows: bool, records: seq<PresentProof>)
    ensures var t := Handled(s, OcrIssuerPage, message, connections, configs, requestThrows, records);
      (configs.None? || configs.value == []) ==> t.requests == s.requests
    ensures var t := Handled(s, OcrIssuerPage, message, connections, configs, requestThrows, records);
      configs.None? ==> t.messages == s.messages && t.poll == s.poll
  {
  }

  /** A page instance: its React state, the messages it posted, the
      proof-request calls it made, and the shared OCR connection slot. */
  class LoginPage {
    const kind: PageKind
    const ocr: OcrConnection
    var connectionId: string
    var presExId: string
    var proofState: Option<string>
    var isVerified: Option<bool>
    var deleted: seq<string>
    var redirect: Option<string>
    var messages: seq<Message>
    var requests: seq<RequestCall>

    constructor (kind: PageKind, ocr: OcrConnection)
      ensures this.kind == kind && this.ocr == ocr
      ensures connectionId == "" && messages == [] && requests == []
      ensures Poll() == PollState("", None, None, [], None)
    {
      this.kind := kind;
      this.ocr := ocr;
      connectionId, presExId, proofState, isVerified := "", "", None, None;
      deleted, redirect, messages, requests := [], None, [], [];
    }

    function Poll(): PollState
      reads this
    {
      PollState(presExId, proofState, isVerified, deleted, redirect)
    }

    function State(): PageState
      reads this, ocr
    {
      PageState(connectionId, ocr.current, Poll(), messages, requests)
    }

    /** `handleLoginWithWallet`, given the invitation URL the agent made
        (`""` for `null`; `createInvitation` never throws). The OCR
        issuer's page announces the login first, whatever the outcome. */
    method HandleLogin(invitationUrl: string)
      modifies this
      ensures messages == old(messages)
        + (if kind.OcrIssuerPage? then [LoginRequest] else [])
        + (if invitationUrl != "" then [AriesInvitation(invitationUrl)] else [])
      ensures Poll() == old(Poll()) && connectionId == old(connectionId) && requests == old(requests)
    {
      if kind.OcrIssuerPage? {
        messages := messages + [LoginRequest];
      }
      if invitationUrl != "" {
        messages := messages + [AriesInvitation(invitationUrl)];
      }
    }

    /** The `message` listener. */
    method HandleMessage(message: WalletMessage, connections: seq<Connection>,
      configs: Option<seq<ProofConfigDb.ProofConfig>>, requestThrows: bool, records: seq<PresentProof>)
      modifies this, ocr
      ensures State() == Handled(old(State()), kind, message, connections, configs, requestThrows, records)
    {
      if message.messageType != "ARIES_CONNECTION_RESULT" || !message.success {
        return;
      }
      var connection := ConnectionByLabel(connections, message.holderLabel);
      if connection.None? {
        return;
      }
      var id := connection.value.connectionId;
      connectionId := id;
      if kind.OcrIssuerPage? {
        ocr.SetConnectionId(id);
        if configs.None? {
          return;
        }
      }
      if AsksForProof(kind, configs) {
        requests := requests + [ProofRequestCall(kind, id)];
        if requestThrows {
          return;
        }
      }
      messages := messages + [AriesProofRequest];
      var proof := FindRecord(records, ConnectionOf, id);
      if proof.Some? {
        presExId := proof.value.presExId;
        proofState := Some(proof.value.state);
      }
    }

    /** One tick of the interval: `checkProofStatus` over the listing
        `getPresentProof` returned. */
    method CheckProofStatus(records: seq<PresentProof>)
      modifies this
      ensures Poll() == Step(old(Poll()), records, SuccessPath(kind))
      ensures connectionId == old(connectionId) && messages == old(messages) && requests == old(requests)
    {
      if presExId == "" {
        return;
      }
      var proof := FindRecord(records, ExchangeId, presExId);
      if proof.None? {
        return;
      }
      proofState := Some(proof.value.state);
      if proof.value.state == "done" {
        isVerified := Some(proof.value.verified == "true");
        if proof.value.verified == "true" {
          deleted := deleted + [presExId];
          redirect := Some(SuccessPath(kind));
        }
      }
    }
  }
}
