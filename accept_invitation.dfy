/**
 * The holder accepting an out-of-band invitation: the invitation is handed
 * to the holder's agent, and the holder then waits for the new connection
 * to reach state "response" and trust-pings it, looking at most three more
 * times. The agent's connection listings are an input, indexed by fetch:
 * fetch 0 is the one right after the invitation is received, fetches 1 to
 * 3 are the retries.
 */
module InvitationAcceptance {
  import opened Wrappers
  import opened Helper
  import Lists

  const MaxRetries := 3

  predicate Responding(c: Connection) {
    c.state == "response"
  }

  /** The connection a trust ping goes to: the first one in state
      "response". */
  function PingTarget(connections: seq<Connection>): (r: Option<string>)
    ensures r.None? <==> forall k :: 0 <= k < |connections| ==> !Responding(connections[k])
    ensures r.Some? ==>
      exists i :: 0 <= i < |connections| && Responding(connections[i]) && r.value == connections[i].connectionId
        && forall k :: 0 <= k < i ==> !Responding(connections[k])
  {
    match Lists.FirstIndex(connections, Responding)
    case None => None
    case Some(i) => Some(connections[i].connectionId)
  }

  /** The ping sent after the first fetch, if any. */
  function InitialPings(connections: seq<Connection>): (pings: seq<string>)
    ensures |pings| <= 1
  {
    match PingTarget(connections)
    case None => []
    case Some(id) => [id]
  }

  /** `acceptInvitation`. `received` says whether the agent accepted the
      invitation. The results are the verdict, how many listings were
      fetched, and the connection ids pinged, in order. A ping's own
      failure is swallowed by `sendTrustPing` and changes nothing. */
  method AcceptInvitation(received: bool, listings: nat -> seq<Connection>)
    returns (accepted: bool, fetches: nat, pings: seq<string>)
    ensures !received ==> !accepted && fetches == 0 && pings == []
    ensures received ==> 2 <= fetches <= 1 + MaxRetries
    ensures accepted <==> received && exists n :: 1 <= n <= MaxRetries && PingTarget(listings(n)).Some?
    ensures accepted ==>
      PingTarget(listings(fetches - 1)).Some?
      && forall m :: 1 <= m < fetches - 1 ==> PingTarget(listings(m)).None?
    ensures received ==>
      pings == InitialPings(listings(0)) + (if accepted then [PingTarget(listings(fetches - 1)).value] else [])
    ensures received && !accepted ==> fetches == 1 + MaxRetries
  {
    accepted, fetches, pings := false, 0, [];
    if !received {
      return;
    }
    var connections := listings(0);
    fetches := 1;
    var connection := PingTarget(connections);
    if connection.Some? {
      pings := pings + [connection.value];
    }
    var retries := MaxRetries;
    while retries > 0
      invariant 0 <= retries <= MaxRetries
      invariant fetches == 1 + MaxRetries - retries
      invariant pings == InitialPings(listings(0))
      invariant forall m :: 1 <= m < fetches ==> PingTarget(listings(m)).None?
      invariant !accepted
      decreases retries
    {
      connections := listings(fetches);
      fetches := fetches + 1;
      connection := PingTarget(connections);
      if connection.Some? {
        pings := pings + [connection.value];
        accepted := true;
        return;
      }
      retries := retries - 1;
    }
  }
}
