/**
 * The proof-configuration editor of the verifier's internal page (saved
 * under "Verifier1") and of the OCR issuer's internal page (saved under
 * "Issuer3"): it loads the latest configuration saved under its label,
 * fetches the attribute names of a cred-def from the agent, lets the user
 * tick attributes, and saves the ticked list as a new configuration. The
 * configuration store is the proof-config table behind its route.
 */
module ProofConfigEditor {
  import opened Wrappers
  import opened Json
  import opened SqlTable
  import opened JsonTable
  import opened ProofConfigDb
  import ProofConfigRoute
  import AttributeList
  import Lists
  import Text

  const VerifierOwner := "Verifier1"
  const OcrIssuerOwner := "Issuer3"

  datatype Alert = MissingCredDefId | FetchFailed | SaveFailed

  /** The cred-def id and attribute list of the latest configuration in a
      label's listing; none when the fetch failed or the listing is empty. */
  function Latest(configs: Option<seq<ProofConfig>>): (r: Option<(string, Value)>)
    ensures r.Some? <==> configs.Some? && configs.value != []
    ensures r.Some? ==> exists c :: Lists.Last(configs.value) == Some(c) && r.value == (c.columns.credDefId, c.value)
  {
    match configs
    case None => None
    case Some(listing) =>
      match Lists.Last(listing)
      case None => None
      case Some(c) => Some((c.columns.credDefId, c.value))
  }

  /** A configuration saved under a label is the one the editor loads for
      that label next: its cred-def id and its attribute list come back
      as saved. */
  lemma SaveThenReload(rows: seq<Row<Stored<ConfigColumns>>>, id: nat, owner: string, credDefId: string, v: Value)
    requires WellFormed(v) && ReadRows(rows).Some? && owner != ""
    ensures var after := ReadRows(rows + [Row(id, Stored(ConfigColumns(owner, credDefId), Stringify(v)))]);
      Latest(ProofConfigRoute.GetProofConfigs(after, owner)) == Some((credDefId, v))
  {
    ProofConfigRoute.SavedConfigIsLatest(rows, id, owner, credDefId, v);
  }

  /** The request a save posts. */
  function SaveRequestOf(owner: string, credDefId: string, ticked: Value): ProofConfigRoute.SaveRequest {
    ProofConfigRoute.SaveRequest(owner, credDefId, Some(ticked), None)
  }

  /** `[...s]`: a string spread into its characters. */
  function Characters(s: string): (r: seq<string>)
    ensures |r| == |s| && forall i :: 0 <= i < |s| ==> r[i] == [s[i]]
  {
    seq(|s|, i requires 0 <= i < |s| => [s[i]])
  }

  /** The updater of `handleTempAttributeToggle` over whatever the loaded
      configuration left in the ticked list (`None` where it throws): an
      array has the attribute toggled; a string is searched for it as a
      substring, throws when it holds it (a string has no `filter`) and is
      otherwise spread into its characters with the attribute after them;
      `null` and an object throw at `includes`. */
  function ToggledTicks(ticked: Value, attribute: string): (r: Option<Value>)
    ensures ticked.StrArray? ==> r == Some(StrArray(AttributeList.Toggle(ticked.items, attribute)))
    ensures ticked.Null? || ticked.StrObject? ==> r.None?
    ensures ticked.Str? ==> (r.None? <==> Text.Contains(ticked.s, attribute))
    ensures ticked.Str? && r.Some? ==>
      r.value.StrArray? && r.value.items == Characters(ticked.s) + [attribute]
  {
    match ticked
    case StrArray(items) => Some(StrArray(AttributeList.Toggle(items, attribute)))
    case Str(text) =>
      if Text.Contains(text, attribute) then None else Some(StrArray(Characters(text) + [attribute]))
    case _ => None
  }

  class Editor {
    const owner: string
    const agentUrl: string
    var credDefId: string
    var attributes: seq<string>
    var tempSelected: Value
    var selected: Value
    var alerts: seq<Alert>

    constructor (owner: string, agentUrl: string)
      ensures this.owner == owner && this.agentUrl == agentUrl
      ensures credDefId == "" && attributes == [] && alerts == []
      ensures tempSelected == StrArray([]) && selected == StrArray([])
    {
      this.owner := owner;
      this.agentUrl := agentUrl;
      credDefId, attributes, alerts := "", [], [];
      tempSelected, selected := StrArray([]), StrArray([]);
    }

    /** `fetchSavedConfig`, given the label's listing (`None` when the
        fetch failed): the latest configuration fills the cred-def id and
        both lists; without one nothing changes. */
    method LoadSavedConfig(configs: Option<seq<ProofConfig>>)
      modifies this
      ensures Latest(configs).Some? ==>
        credDefId == Latest(configs).value.0
        && selected == Latest(configs).value.1 && tempSelected == Latest(configs).value.1
      ensures Latest(configs).None? ==>
        credDefId == old(credDefId) && selected == old(selected) && tempSelected == old(tempSelected)
      ensures attributes == old(attributes) && alerts == old(alerts)
    {
      var latest := Latest(configs);
      if latest.Some? {
        credDefId := latest.value.0;
        selected := latest.value.1;
        tempSelected := latest.value.1;
      }
    }

    /** Typing into the cred-def id box. */
    method EnterCredDefId(text: string)
      modifies this
      ensures credDefId == text
      ensures attributes == old(attributes) && tempSelected == old(tempSelected)
      ensures selected == old(selected) && alerts == old(alerts)
    {
      credDefId := text;
    }

    /** `fetchAttributes` / `fetchProofAttributes`. `keysAt(url)` is the
        list of keys of `credential_definition.value.primary.r` in the
        agent's answer at `url`, `None` when the call fails or the answer
        lacks that path. With no cred-def id the user is alerted and
        nothing is fetched. */
    method FetchAttributes(keysAt: string -> Option<seq<string>>) returns (url: Option<string>)
      modifies this
      ensures credDefId == "" ==> url.None? && alerts == old(alerts) + [MissingCredDefId]
      ensures credDefId != "" ==> url == Some(agentUrl + "/credential-definitions/" + credDefId)
      ensures url.Some? && keysAt(url.value).Some? ==>
        attributes == keysAt(url.value).value && alerts == old(alerts)
      ensures url.Some? && keysAt(url.value).None? ==>
        attributes == old(attributes) && alerts == old(alerts) + [FetchFailed]
      ensures url.None? ==> attributes == old(attributes)
      ensures credDefId == old(credDefId) && tempSelected == old(tempSelected) && selected == old(selected)
    {
      if credDefId == "" {
        alerts := alerts + [MissingCredDefId];
        return None;
      }
      url := Some(agentUrl + "/credential-definitions/" + credDefId);
      var keys := keysAt(url.value);
      if keys.None? {
        alerts := alerts + [FetchFailed];
        return;
      }
      attributes := keys.value;
    }

    /** `handleTempAttributeToggle`; `threw` says whether the updater
        threw, which leaves the ticked list as it was. */
    method ToggleAttribute(attribute: string) returns (threw: bool)
      modifies this
      ensures threw <==> ToggledTicks(old(tempSelected), attribute).None?
      ensures tempSelected == if threw then old(tempSelected) else ToggledTicks(old(tempSelected), attribute).value
      ensures old(tempSelected).StrArray? ==>
        !threw && tempSelected == StrArray(AttributeList.Toggle(old(tempSelected).items, attribute))
      ensures credDefId == old(credDefId) && attributes == old(attributes)
      ensures selected == old(selected) && alerts == old(alerts)
    {
      var toggled := ToggledTicks(tempSelected, attribute);
      threw := toggled.None?;
      if !threw {
        tempSelected := toggled.value;
      }
    }

    /** `confirmSelectedAttributes`: the ticked list is posted under the
        editor's label and becomes the confirmed list only once the save
        succeeded; a refused save alerts and changes nothing. */
    method ConfirmSelectedAttributes(table: ProofConfigTable) returns (status: int)
      requires table.Valid()
      modifies this, table
      ensures table.Valid()
      ensures status == 200 <==> !ProofConfigRoute.MissingFields(SaveRequestOf(owner, credDefId, tempSelected))
      ensures status == 200 ==>
        selected == tempSelected && alerts == old(alerts)
        && table.rows == old(table.rows) + [Row(old(table.nextId),
          Stored(ConfigColumns(owner, credDefId), Stringify(tempSelected)))]
      ensures status != 200 ==>
        selected == old(selected) && alerts == old(alerts) + [SaveFailed] && table.rows == old(table.rows)
      ensures credDefId == old(credDefId) && attributes == old(attributes) && tempSelected == old(tempSelected)
    {
      status := ProofConfigRoute.PostProofConfig(table, SaveRequestOf(owner, credDefId, tempSelected));
      if status != 200 {
        alerts := alerts + [SaveFailed];
        return;
      }
      selected := tempSelected;
    }
  }
}
