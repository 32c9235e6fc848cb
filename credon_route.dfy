/**
 * `/api/databasesApi/dbCredon`: listing holder records by e-mail and
 * label, and updating them. The GET reads the `credon` table, whose
 * records carry an id, a label, a connection id and a state but no
 * e-mail. The PUT is written against a holder store with label, e-mail,
 * connection id, credential-exchange id and status, and with one update
 * operation per field; each update reports whether it changed a row.
 * Those operations are inputs here: the model states which updates the
 * route asks for, in which order, and what it answers.
 */
module CredonRoute {
  import Lists
  import opened Wrappers
  import opened CredonDb

  /** `config[name]` on a record `getCredentials` returns: the string
      fields it has, and `undefined` (`None`) for any other name. */
  function Field(r: CredonRecord, name: string): (v: Option<string>)
    ensures name == "email" ==> v.None?
    ensures name == "label" ==> v == Some(r.holderLabel)
  {
    if name == "label" then Some(r.holderLabel)
    else if name == "connectionId" then Some(r.connectionId)
    else if name == "state" then Some(r.state)
    else None
  }

  /** `GET` over `getCredentials()`: the records, narrowed to the e-mail
      when one is given and then to the label when one is given. A missing
      query parameter is `""`. */
  function GetHolders(records: seq<CredonRecord>, email: string, holderLabel: string): seq<CredonRecord> {
    var byEmail := if email != "" then Lists.Filter(records, (r: CredonRecord) => Field(r, "email") == Some(email)) else records;
    if holderLabel != "" then Lists.Filter(byEmail, (r: CredonRecord) => Field(r, "label") == Some(holderLabel)) else byEmail
  }

  /** The two filters are one conjunction: a record is listed, in stored
      order, exactly when it matches every parameter given. Records have
      no e-mail, so any e-mail given matches none of them. */
  lemma GetHoldersIsConjunction(records: seq<CredonRecord>, email: string, holderLabel: string)
    ensures GetHolders(records, email, holderLabel) ==
      Lists.Filter(records, (r: CredonRecord) => email == "" && (holderLabel == "" || r.holderLabel == holderLabel))
  {
    var byEmail := (r: CredonRecord) => Field(r, "email") == Some(email);
    var byLabel := (r: CredonRecord) => Field(r, "label") == Some(holderLabel);
    var both := (r: CredonRecord) => email == "" && (holderLabel == "" || r.holderLabel == holderLabel);
    if email != "" && holderLabel != "" {
      Lists.FilterFilter(records, byEmail, byLabel, both);
    } else if email != "" {
      Lists.FilterAgree(records, byEmail, both);
    } else if holderLabel != "" {
      Lists.FilterAgree(records, byLabel, both);
    } else {
      Lists.FilterKeepsAll(records, both);
    }
  }

  /** An e-mail query lists nothing, whatever the table holds; without one
      the label alone decides, and with neither every record is listed. */
  lemma {:induction false} EmailQueryListsNothing(records: seq<CredonRecord>, email: string, holderLabel: string)
    ensures email != "" ==> GetHolders(records, email, holderLabel) == []
    ensures email == "" && holderLabel == "" ==> GetHolders(records, email, holderLabel) == records
  {
    GetHoldersIsConjunction(records, email, holderLabel);
    var both := (r: CredonRecord) => email == "" && (holderLabel == "" || r.holderLabel == holderLabel);
    if email == "" && holderLabel == "" {
      Lists.FilterKeepsAll(records, both);
    }
  }

  /** The `PUT` body; a missing field is `""`. */
  datatype PutRequest = PutRequest(
    email: string, connectionId: string, credExchangeId: string, status: string,
    holderLabel: string, newEmail: string)

  /** One call into the store's update operations. */
  datatype UpdateCall =
    | UpdateEmail(holderLabel: string, newEmail: string)
    | UpdateConnectionId(holderLabel: string, connectionId: string)
    | UpdateCredExchangeId(holderLabel: string, credExchangeId: string)
    | UpdateStatusLabel(holderLabel: string, status: string)
    | UpdateStatus(email: string, status: string)

  datatype PutReply = LabelRequired | NoChanges | UpdateSuccessful

  function PutStatus(reply: PutReply): int {
    if reply == LabelRequired then 400 else 200
  }

  /** The updates a request with a label or an e-mail asks for, in the
      order the route makes them. */
  function PlannedUpdates(req: PutRequest): seq<UpdateCall> {
    When(req.newEmail != "", UpdateEmail(req.holderLabel, req.newEmail))
    + When(req.connectionId != "", UpdateConnectionId(req.holderLabel, req.connectionId))
    + When(req.credExchangeId != "", UpdateCredExchangeId(req.holderLabel, req.credExchangeId))
    + When(req.status != "" && req.holderLabel != "", UpdateStatusLabel(req.holderLabel, req.status))
    + When(req.status != "" && req.email != "", UpdateStatus(req.email, req.status))
  }

  function When(condition: bool, call: UpdateCall): seq<UpdateCall> {
    if condition then [call] else []
  }

  /** The update a field asks for: the new e-mail, connection id and
      exchange id are keyed by the label, even when only the e-mail was
      given; the status is set by label and by e-mail, each when given. */
  predicate Requested(req: PutRequest, call: UpdateCall) {
    match call
    case UpdateEmail(l, e) => req.newEmail != "" && l == req.holderLabel && e == req.newEmail
    case UpdateConnectionId(l, id) => req.connectionId != "" && l == req.holderLabel && id == req.connectionId
    case UpdateCredExchangeId(l, id) => req.credExchangeId != "" && l == req.holderLabel && id == req.credExchangeId
    case UpdateStatusLabel(l, st) => req.status != "" && req.holderLabel != "" && l == req.holderLabel && st == req.status
    case UpdateStatus(e, st) => req.status != "" && req.email != "" && e == req.email && st == req.status
  }

  /** An update is asked for exactly when a field that asks for it is
      present; there are at most five. */
  lemma PlannedUpdatesFollowFields(req: PutRequest)
    ensures forall c :: c in PlannedUpdates(req) <==> Requested(req, c)
    ensures |PlannedUpdates(req)| <= 5
  {
    forall c
      ensures c in PlannedUpdates(req) <==> Requested(req, c)
    {
      var a := When(req.newEmail != "", UpdateEmail(req.holderLabel, req.newEmail));
      var b := When(req.connectionId != "", UpdateConnectionId(req.holderLabel, req.connectionId));
      var d := When(req.credExchangeId != "", UpdateCredExchangeId(req.holderLabel, req.credExchangeId));
      var e := When(req.status != "" && req.holderLabel != "", UpdateStatusLabel(req.holderLabel, req.status));
      var f := When(req.status != "" && req.email != "", UpdateStatus(req.email, req.status));
      assert c in PlannedUpdates(req) <==> c in a || c in b || c in d || c in e || c in f;
    }
  }

  /** Some call of `calls` was reported as a change. */
  predicate AnyChanged(calls: seq<UpdateCall>, changes: UpdateCall -> bool) {
    exists k :: 0 <= k < |calls| && changes(calls[k])
  }

  lemma AnyChangedAppend(calls: seq<UpdateCall>, call: UpdateCall, changes: UpdateCall -> bool)
    ensures AnyChanged(calls + [call], changes) <==> AnyChanged(calls, changes) || changes(call)
  {
    if AnyChanged(calls, changes) {
      var k :| 0 <= k < |calls| && changes(calls[k]);
      assert (calls + [call])[k] == calls[k];
    }
    if changes(call) {
      assert (calls + [call])[|calls|] == call;
    }
  }

  /** One `if`: when its field is present the call is made, and a
      reported change sets the flag. */
  method Attempt(condition: bool, call: UpdateCall, changes: UpdateCall -> bool, calls: seq<UpdateCall>, updated: bool)
    returns (calls': seq<UpdateCall>, updated': bool)
    requires updated <==> AnyChanged(calls, changes)
    ensures calls' == calls + When(condition, call)
    ensures updated' <==> AnyChanged(calls', changes)
  {
    calls', updated' := calls, updated;
    if condition {
      updated' := changes(call) || updated;
      calls' := calls + [call];
      AnyChangedAppend(calls, call, changes);
    }
  }

  /** `PUT`. `changes` says whether the store reports a change for a call.
      Every planned update is made, whatever the earlier ones reported;
      `calls` is the calls made, in order. */
  method Put(req: PutRequest, changes: UpdateCall -> bool) returns (reply: PutReply, calls: seq<UpdateCall>)
    ensures req.holderLabel == "" && req.email == "" ==> reply == LabelRequired && calls == []
    ensures req.holderLabel != "" || req.email != "" ==> calls == PlannedUpdates(req)
    ensures req.holderLabel != "" || req.email != "" ==>
      (reply == UpdateSuccessful <==> AnyChanged(calls, changes))
    ensures reply != LabelRequired || calls == []
  {
    if req.holderLabel == "" && req.email == "" {
      return LabelRequired, [];
    }
    var updated := false;
    calls := [];
    calls, updated := Attempt(req.newEmail != "", UpdateEmail(req.holderLabel, req.newEmail), changes, calls, updated);
    assert calls == When(req.newEmail != "", UpdateEmail(req.holderLabel, req.newEmail));
    calls, updated := Attempt(req.connectionId != "", UpdateConnectionId(req.holderLabel, req.connectionId), changes, calls, updated);
    calls, updated := Attempt(req.credExchangeId != "", UpdateCredExchangeId(req.holderLabel, req.credExchangeId), changes, calls, updated);
    calls, updated := Attempt(req.status != "" && req.holderLabel != "", UpdateStatusLabel(req.holderLabel, req.status), changes, calls, updated);
    calls, updated := Attempt(req.status != "" && req.email != "", UpdateStatus(req.email, req.status), changes, calls, updated);
    reply := if updated then UpdateSuccessful else NoChanges;
  }
}
