/**
 * Registering a schema and then a credential definition for it: the
 * schema gets a random three-part version, and the cred-def is tagged with
 * the schema name and supports revocation with a registry of 1000 when
 * asked to.
 */
module SchemaRegistration {
  import opened Wrappers
  import opened Text
  import Helper
  import Lists
  import opened CredentialDefinition

  const RegistrySize := 1000

  /** The schema the agent is asked to create. */
  datatype SchemaRequest = SchemaRequest(schemaName: string, version: string, attributes: seq<string>)

  datatype Registered = Registered(schemaId: string, credDefId: string)

  /** The version from three draws of `Math.floor(Math.random() * 100)`. */
  function Version(major: nat, minor: nat, patch: nat): string
    requires major < 100 && minor < 100 && patch < 100
  {
    NatToString(major) + "." + NatToString(minor) + "." + NatToString(patch)
  }

  /** The version is three dot-separated numerals of one or two digits,
      reading as the three draws. */
  lemma VersionFields(major: nat, minor: nat, patch: nat)
    requires major < 100 && minor < 100 && patch < 100
    ensures var parts := Split(Version(major, minor, patch), ".");
      |parts| == 3
      && (forall k :: 0 <= k < 3 ==> AllDigits(parts[k]) && 1 <= |parts[k]| <= 2)
      && DigitsValue(parts[0]) == major && DigitsValue(parts[1]) == minor && DigitsValue(parts[2]) == patch
  {
    SmallNumeral(major);
    SmallNumeral(minor);
    SmallNumeral(patch);
    ThreePieces(NatToString(major), NatToString(minor), NatToString(patch));
  }

  lemma SmallNumeral(n: nat)
    requires n < 100
    ensures var s := NatToString(n);
      AllDigits(s) && 1 <= |s| <= 2 && DigitsValue(s) == n && '.' !in s
  {
    NatToStringValue(n);
  }

  lemma ThreePieces(a: string, b: string, c: string)
    requires '.' !in a && '.' !in b && '.' !in c
    ensures Split(a + "." + b + "." + c, ".") == [a, b, c]
  {
    var tail := b + "." + c;
    assert a + "." + b + "." + c == a + "." + tail;
    SplitCharPiece(a, '.', tail);
    assert Split(a + "." + tail, ".") == [a] + Split(tail, ".");
    SplitCharPiece(b, '.', c);
    SplitCharNone(c, '.');
  }

  predicate IsBlank(c: char) {
    c == ' '
  }

  /** `schemaName.replace(" ", "_")`: only the first space is replaced. */
  function ReplaceFirstSpace(s: string): (r: string)
    ensures |r| == |s|
    ensures ' ' !in s ==> r == s
    ensures ' ' in s ==>
      exists i :: 0 <= i < |s| && s[i] == ' ' && ' ' !in s[..i] && r == s[..i] + "_" + s[i + 1..]
  {
    match Lists.FirstIndex(s, IsBlank)
    case None => s
    case Some(i) =>
      assert ' ' !in s[..i] by {
        assert forall k :: 0 <= k < i ==> s[..i][k] == s[k];
      }
      s[..i] + "_" + s[i + 1..]
  }

  /** `registerSchemaAndCredDef`. `schemaIdFor` is the schema id the agent
      gives a request, `None` where the call fails or the id is missing (an
      empty id stops registration as well);
      `credDefReply` is the agent's answer to a cred-def body. The cred-def
      body that was posted, if any, is returned beside the result. */
  function RegisterSchemaAndCredDef(
    schemaName: string, attributes: seq<string>, revocation: bool, major: nat, minor: nat, patch: nat,
    schemaIdFor: SchemaRequest -> Option<string>, credDefReply: CredDefBody -> Helper.Response<string>)
    : (r: (Option<CredDefBody>, Option<Registered>))
    requires major < 100 && minor < 100 && patch < 100
    ensures var schemaId := schemaIdFor(SchemaRequest(schemaName, Version(major, minor, patch), attributes));
      ((schemaId.None? || schemaId.value == "") <==> r.0.None?)
      && (r.0.Some? ==> r.0.value.schemaId == schemaId.value)
    ensures r.0.Some? ==>
      r.0.value.tag == ReplaceFirstSpace(schemaName) && r.0.value.supportRevocation == revocation
      && r.0.value.revocationRegistrySize == (if revocation then Some(RegistrySize) else None)
    ensures r.1.Some? <==> r.0.Some? && credDefReply(r.0.value).Ok? && credDefReply(r.0.value).body != ""
    ensures r.1.Some? ==>
      r.1.value == Registered(
        schemaIdFor(SchemaRequest(schemaName, Version(major, minor, patch), attributes)).value,
        credDefReply(r.0.value).body)
  {
    var version := Version(major, minor, patch);
    match schemaIdFor(SchemaRequest(schemaName, version, attributes))
    case None => (None, None)
    case Some(schemaId) =>
      if schemaId == "" then (None, None)
      else
        var size := if revocation then Some(RegistrySize) else None;
        var body := Body(schemaId, ReplaceFirstSpace(schemaName), revocation, size);
        match CreateCredentialDefinition(schemaId, ReplaceFirstSpace(schemaName), revocation, size, credDefReply)
        case None => (Some(body), None)
        case Some(credDefId) => (Some(body), Some(Registered(schemaId, credDefId)))
  }
}
