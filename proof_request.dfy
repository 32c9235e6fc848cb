/**
 * The verifier's proof request (present-proof 2.0 `send-request`). The
 * attributes to ask for and the cred-def they must come from are kept in
 * two module variables and, as JSON text, in the browser's local storage;
 * sending a request reloads both from storage and asks for each attribute
 * under that cred-def, not revoked as of the current second.
 */
module VerifierProofRequest {
  import opened Wrappers
  import opened JsObject
  import opened Json
  import Helper
  import Lists

  /** The agent every request is posted to. */
  const VerifierUrl := "http://localhost:11002"
  const AttributesKey := "storeAttributes"
  const CredDefIdKey := "storedCredDefId"

  /** `localStorage`: string values by key. */
  type Storage = map<string, string>

  /** `JSON.parse(localStorage.getItem(key) || "[]")`, `None` where the
      parse throws. */
  function ReadJson(storage: Storage, key: string): Option<Value> {
    var text := if key in storage && storage[key] != "" then storage[key] else "[]";
    Parse(text)
  }

  /** What a setter leaves in storage. */
  function WriteJson(storage: Storage, key: string, v: Value): (s: Storage)
    ensures key in s && s[key] == Stringify(v)
    ensures forall k :: k in storage && k != key ==> k in s && s[k] == storage[k]
  {
    storage[key := Stringify(v)]
  }

  /** A value written is read back unchanged: storage is a JSON round
      trip. */
  lemma ReadWritten(storage: Storage, key: string, v: Value)
    requires WellFormed(v)
    ensures ReadJson(WriteJson(storage, key, v), key) == Some(v)
  {
    ParseStringify(v);
    match v
    case Null =>
    case Str(_) =>
    case StrArray(items) =>
    case StrObject(_) =>
  }

  /** With nothing stored, both getters yield an empty array. */
  lemma ReadUnset(storage: Storage, key: string)
    requires key !in storage
    ensures ReadJson(storage, key) == Some(StrArray([]))
  {
    ParseStringify(StrArray([]));
    assert Stringify(StrArray([])) == "[]";
  }

  /** One requested attribute: its name, the restriction to the stored
      cred-def (whatever JSON value was stored), and the revocation time. */
  datatype ProofAttribute = ProofAttribute(name: string, restrictionCredDefId: Value, nonRevokedTo: int)

  /** A request and the agent it is posted to. */
  datatype ProofRequest = ProofRequest(
    agentUrl: string, comment: string, connectionId: string, name: string, version: string,
    requestedAttributes: Obj<ProofAttribute>, requestedPredicates: Obj<string>, nonRevokedTo: int)

  /** `Math.floor(Date.now() / 1000)`. */
  function Seconds(nowMs: nat): (s: nat)
    ensures s * 1000 <= nowMs < s * 1000 + 1000
  {
    nowMs / 1000
  }

  /** The `reduce` over the stored attributes. */
  function RequestedAttributes(attributes: seq<string>, credDefId: Value, to: int): (r: Obj<ProofAttribute>)
    ensures DistinctKeys(r)
  {
    FromEntries(seq(|attributes|, i requires 0 <= i < |attributes| =>
      (attributes[i], ProofAttribute(attributes[i], credDefId, to))))
  }

  /** One entry per attribute, keyed by and named after it, every one
      restricted to the same cred-def and revocation time. */
  lemma RequestedAttributesCoverStored(attributes: seq<string>, credDefId: Value, to: int)
    requires Lists.NoDuplicates(attributes)
    ensures var r := RequestedAttributes(attributes, credDefId, to);
      Keys(r) == attributes
      && forall i :: 0 <= i < |r| ==> r[i].1 == ProofAttribute(attributes[i], credDefId, to)
  {
    var entries := seq(|attributes|, i requires 0 <= i < |attributes| =>
      (attributes[i], ProofAttribute(attributes[i], credDefId, to)));
    assert forall i :: 0 <= i < |attributes| ==> entries[i].0 == attributes[i];
    FromDistinctEntries(entries);
  }

  /** The request `sendProofRequest` would post given what storage holds:
      none when the attribute list is empty or the cred-def id is falsy.
      A stored attribute value that is not a JSON string array makes the
      function throw, and no request is posted either. */
  function PlannedRequest(storage: Storage, connectionId: string, proofRequestName: string, nowMs: nat): (r: Option<ProofRequest>)
    ensures r.Some? ==>
      ReadJson(storage, AttributesKey).Some? && ReadJson(storage, AttributesKey).value.StrArray?
      && ReadJson(storage, AttributesKey).value.items != []
      && ReadJson(storage, CredDefIdKey).Some? && Truthy(ReadJson(storage, CredDefIdKey).value)
    ensures r.Some? ==>
      r.value.agentUrl == VerifierUrl
      && r.value.connectionId == connectionId && r.value.name == proofRequestName
      && r.value.version == "1.0" && r.value.requestedPredicates == []
      && r.value.nonRevokedTo == Seconds(nowMs)
      && r.value.requestedAttributes == RequestedAttributes(ReadJson(storage, AttributesKey).value.items,
           ReadJson(storage, CredDefIdKey).value, Seconds(nowMs))
  {
    var attributes := ReadJson(storage, AttributesKey);
    var credDefId := ReadJson(storage, CredDefIdKey);
    if attributes.None? || !attributes.value.StrArray? || attributes.value.items == [] then None
    else if credDefId.None? || !Truthy(credDefId.value) then None
    else
      var to := Seconds(nowMs);
      Some(ProofRequest(VerifierUrl, "Requesting proof dynamically", connectionId, proofRequestName, "1.0",
        RequestedAttributes(attributes.value.items, credDefId.value, to), [], to))
  }

  /** Whether `sendProofRequest` throws before reaching its `try`: a
      stored value that does not parse, a `null` attribute list (whose
      `length` is read), or a non-empty attribute value that is not an
      array and gets past both guards to `reduce`. */
  predicate SendThrows(storage: Storage) {
    var attributes := ReadJson(storage, AttributesKey);
    var credDefId := ReadJson(storage, CredDefIdKey);
    attributes.None? || credDefId.None? || attributes.value.Null?
    || (!attributes.value.StrArray? && attributes.value != Str("") && Truthy(credDefId.value))
  }

  /** With no cred-def id ever stored the getter's default `[]` is truthy,
      so the request still goes out, restricted to the cred-def `[]`. */
  lemma UnsetCredDefIdStillRequests(storage: Storage, attributes: seq<string>, connectionId: string, name: string, nowMs: nat)
    requires CredDefIdKey !in storage && AttributesKey != CredDefIdKey && attributes != []
    ensures var s := WriteJson(storage, AttributesKey, StrArray(attributes));
      var r := PlannedRequest(s, connectionId, name, nowMs);
      r.Some? && r.value.requestedAttributes == RequestedAttributes(attributes, StrArray([]), Seconds(nowMs))
  {
    var s := WriteJson(storage, AttributesKey, StrArray(attributes));
    ReadWritten(storage, AttributesKey, StrArray(attributes));
    ReadUnset(s, CredDefIdKey);
  }

  /** The module state of `sendProofRequest.ts`: the two variables and
      the browser storage they are mirrored to. */
  class VerifierStore {
    var storeAttributes: Value
    var storedCredDefId: Value
    var storage: Storage

    constructor (storage: Storage)
      ensures storeAttributes == StrArray([]) && storedCredDefId == Null && this.storage == storage
    {
      storeAttributes := StrArray([]);
      storedCredDefId := Null;
      this.storage := storage;
    }

    /** `setVerificationAttributes`. */
    method SetVerificationAttributes(attributes: seq<string>)
      modifies this
      ensures storeAttributes == StrArray(attributes) && storedCredDefId == old(storedCredDefId)
      ensures storage == WriteJson(old(storage), AttributesKey, StrArray(attributes))
      ensures GetVerificationAttributes() == Some(StrArray(attributes))
    {
      storeAttributes := StrArray(attributes);
      storage := WriteJson(storage, AttributesKey, StrArray(attributes));
      ReadWritten(old(storage), AttributesKey, StrArray(attributes));
    }

    /** `getVerificationAttributes`. */
    function GetVerificationAttributes(): Option<Value>
      reads this
    {
      ReadJson(storage, AttributesKey)
    }

    /** `setCredentialDefinitionId`. */
    method SetCredentialDefinitionId(credDefId: string)
      modifies this
      ensures storedCredDefId == Str(credDefId) && storeAttributes == old(storeAttributes)
      ensures storage == WriteJson(old(storage), CredDefIdKey, Str(credDefId))
      ensures GetCredDefinitionId() == Some(Str(credDefId))
    {
      storedCredDefId := Str(credDefId);
      storage := WriteJson(storage, CredDefIdKey, Str(credDefId));
      ReadWritten(old(storage), CredDefIdKey, Str(credDefId));
    }

    /** `getCredDefinitionId`. */
    function GetCredDefinitionId(): Option<Value>
      reads this
    {
      ReadJson(storage, CredDefIdKey)
    }

    /** `sendProofRequest`: the variables are reloaded from storage, the
        planned request is posted, and the agent's parsed reply (or
        `None`, for `null`) is returned; `threw` says whether the call
        threw instead. A parse that throws leaves the variables as they
        were. */
    method SendProofRequest<T>(connectionId: string, proofRequestName: string, nowMs: nat,
      reply: ProofRequest -> Helper.Response<T>) returns (posted: Option<ProofRequest>, result: Option<T>, threw: bool)
      modifies this
      ensures storage == old(storage)
      ensures threw == SendThrows(storage)
      ensures posted == PlannedRequest(storage, connectionId, proofRequestName, nowMs)
      ensures result.Some? <==> posted.Some? && reply(posted.value).Ok?
      ensures result.Some? ==> result.value == reply(posted.value).body
      ensures ReadJson(storage, AttributesKey).Some? ==> storeAttributes == ReadJson(storage, AttributesKey).value
    {
      posted, result, threw := None, None, false;
      var attributes := GetVerificationAttributes();
      if attributes.None? {
        threw := true;
        return;
      }
      storeAttributes := attributes.value;
      var credDefId := GetCredDefinitionId();
      if credDefId.None? {
        threw := true;
        return;
      }
      storedCredDefId := credDefId.value;
      if SendThrows(storage) {
        threw := true;
        return;
      }
      posted := PlannedRequest(storage, connectionId, proofRequestName, nowMs);
      if posted.Some? {
        match reply(posted.value)
        case Failed =>
        case Ok(body) => result := Some(body);
      }
    }
  }
}
