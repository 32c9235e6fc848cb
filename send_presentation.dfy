/**
 * The holder's answer to a proof request (present-proof 2.0
 * `send-presentation`): the first request the holder has received is
 * answered by revealing every requested attribute from one credential.
 */
module HolderPresentation {
  import opened Wrappers
  import opened JsObject
  import opened Helper
  import Lists

  /** One requested attribute's answer: which credential reveals it. */
  datatype RevealedAttribute = RevealedAttribute(credId: string, revealed: bool)

  /** The `indy` presentation and the `auto_remove` flag. Requested
      predicates and self-attested attributes are always empty objects. */
  datatype Presentation = Presentation(
    requestedAttributes: Obj<RevealedAttribute>, requestedPredicates: Obj<string>,
    selfAttestedAttributes: Obj<string>, trace: bool, autoRemove: bool)

  /** The POST the holder's agent receives: the exchange it answers and the
      presentation. */
  datatype PresentationPost = PresentationPost(presExId: string, body: Presentation)

  predicate RequestReceived(p: PresentProof) {
    p.state == "request-received"
  }

  /** The proof request a holder answers: the first record in state
      "request-received". */
  function PendingRequest(proofs: seq<PresentProof>): (r: Option<PresentProof>)
    ensures r.Some? ==> RequestReceived(r.value)
    ensures r.Some? ==>
      exists i :: 0 <= i < |proofs| && proofs[i] == r.value
        && forall k :: 0 <= k < i ==> !RequestReceived(proofs[k])
    ensures r.None? <==> forall k :: 0 <= k < |proofs| ==> !RequestReceived(proofs[k])
  {
    match Lists.FirstIndex(proofs, RequestReceived)
    case None => None
    case Some(i) => Some(proofs[i])
  }

  /** The `reduce` over the requested attribute names: each name answered
      by the credential `credentialId`, revealed. */
  function RevealAll(names: seq<string>, credentialId: string): (r: Obj<RevealedAttribute>)
    ensures DistinctKeys(r)
  {
    FromEntries(seq(|names|, i requires 0 <= i < |names| => (names[i], RevealedAttribute(credentialId, true))))
  }

  /** For a request with distinct attribute names, the answer covers
      exactly those names, in order, and reveals each one from the given
      credential. */
  lemma RevealAllCoversRequest(requested: Obj<RequestedAttribute>, credentialId: string)
    ensures var r := RevealAll(Keys(requested), credentialId);
      DistinctKeys(requested) ==>
        Keys(r) == Keys(requested) && forall i :: 0 <= i < |r| ==> r[i].1 == RevealedAttribute(credentialId, true)
  {
    var names := Keys(requested);
    var entries := seq(|names|, i requires 0 <= i < |names| => (names[i], RevealedAttribute(credentialId, true)));
    if DistinctKeys(requested) {
      FromDistinctEntries(entries);
    }
  }

  /** The presentation for a request; a request without the
      `by_format.pres_request.indy.requested_attributes` path is answered
      with no attributes. */
  function PresentationFor(request: PresentProof, credentialId: string): (p: Presentation)
    ensures p.requestedPredicates == [] && p.selfAttestedAttributes == []
    ensures p.trace && p.autoRemove
    ensures request.requestedAttributes.None? ==> p.requestedAttributes == []
    ensures request.requestedAttributes.Some? ==>
      p.requestedAttributes == RevealAll(Keys(request.requestedAttributes.value), credentialId)
    ensures request.requestedAttributes.Some? && DistinctKeys(request.requestedAttributes.value) ==>
      Keys(p.requestedAttributes) == Keys(request.requestedAttributes.value)
      && forall i :: 0 <= i < |p.requestedAttributes| ==>
        p.requestedAttributes[i].1 == RevealedAttribute(credentialId, true)
  {
    var requested := request.requestedAttributes.GetOr([]);
    RevealAllCoversRequest(requested, credentialId);
    Presentation(RevealAll(Keys(requested), credentialId), [], [], true, true)
  }

  /** What `sendPresentation` posts, given the present-proof records the
      holder's agent lists: nothing when there is no record, no received
      request, or no exchange id on it. */
  function PresentationPostFor(credentialId: string, proofs: seq<PresentProof>): (r: Option<PresentationPost>)
    ensures r.Some? <==> PendingRequest(proofs).Some? && PendingRequest(proofs).value.presExId != ""
    ensures r.Some? ==> var request := PendingRequest(proofs).value;
      r.value == PresentationPost(request.presExId, PresentationFor(request, credentialId))
  {
    if proofs == [] then None
    else
      match PendingRequest(proofs)
      case None => None
      case Some(request) =>
        if request.presExId == "" then None
        else Some(PresentationPost(request.presExId, PresentationFor(request, credentialId)))
  }

  /** `sendPresentation`: the agent's parsed reply, or `None` (`null`)
      when nothing could be posted or the agent refused the post. */
  function SendPresentation<T>(credentialId: string, proofs: seq<PresentProof>, reply: PresentationPost -> Response<T>): (r: Option<T>)
    ensures r.Some? <==> PresentationPostFor(credentialId, proofs).Some? && reply(PresentationPostFor(credentialId, proofs).value).Ok?
    ensures r.Some? ==> r.value == reply(PresentationPostFor(credentialId, proofs).value).body
  {
    match PresentationPostFor(credentialId, proofs)
    case None => None
    case Some(post) =>
      match reply(post)
      case Failed => None
      case Ok(body) => Some(body)
  }
}
