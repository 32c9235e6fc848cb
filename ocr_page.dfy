/**
 * The page on which the issuer reads a holder's student identity card: a
 * photo is chosen, the OCR engine's text is run through the field
 * extractors, the issuer reviews the three fields, and the credential is
 * issued to the connection the external page handed over. The image
 * preprocessing and recognition are not modelled: what the engine read, or
 * that it failed, is an input.
 */
module OcrIssuePage {
  import opened Wrappers
  import opened JsObject
  import Ocr
  import Helper

  const ErrorText := "Error processing image."

  /** The call `sendCredential` makes to the issuer agent. */
  datatype CredentialIssue = CredentialIssue(
    connectionId: string, attributes: Obj<string>, comment: string, autoRemove: bool,
    schemaId: string, credDefId: string, trace: bool)

  /** A person ID as the extractor returns it. */
  predicate WellFormedId(id: string) {
    id != [] && forall k :: 0 <= k < |id| ==> id[k] != 'O' && Ocr.IsIdChar(id[k])
  }

  /** Each field is "Not Found" or has the shape its extractor guarantees. */
  predicate ExtractedFields(name: string, personId: string, dob: string) {
    (name == Ocr.NotFound || Ocr.WellFormedName(name))
    && (personId == Ocr.NotFound || WellFormedId(personId))
    && (dob == Ocr.NotFound || Ocr.IsDate(dob))
  }

  /** `isMissingInfo`. */
  predicate MissingInfo(name: string, personId: string, dob: string) {
    name == Ocr.NotFound || personId == Ocr.NotFound || dob == Ocr.NotFound
  }

  /** The text shown for review. */
  function Summary(name: string, personId: string, dob: string): string {
    "Name: " + name + "\nPerson ID: " + personId + "\nDOB: " + dob
  }

  /** The attributes of the issued credential. */
  function AttributeMapping(name: string, personId: string, dob: string): (m: Obj<string>)
    ensures DistinctKeys(m)
    ensures Keys(m) == ["Person ID", "Name", "DOB"]
    ensures Get(m, "Person ID") == Some(personId)
    ensures Get(m, "Name") == Some(name)
    ensures Get(m, "DOB") == Some(dob)
  {
    var m := [("Person ID", personId), ("Name", name), ("DOB", dob)];
    FirstIndexIs(m, (e: (string, string)) => e.0 == "Person ID", 0);
    FirstIndexIs(m, (e: (string, string)) => e.0 == "Name", 1);
    FirstIndexIs(m, (e: (string, string)) => e.0 == "DOB", 2);
    m
  }

  /** Whatever the text, the three extractors' results have their
      shapes. */
  lemma ExtractorsGiveFields(text: string)
    ensures ExtractedFields(Ocr.NameFrom(Ocr.NameLines(Ocr.Lines(text))), Ocr.ExtractPersonId(text), Ocr.ExtractDob(text))
  {
    Ocr.ExtractedNameShape(text);
    PersonIdShape(text);
  }

  lemma PersonIdShape(text: string)
    ensures var id := Ocr.ExtractPersonId(text); id == Ocr.NotFound || WellFormedId(id)
  {
  }

  /** The three extractors run over the recognised text. */
  method ExtractFields(text: string) returns (name: string, personId: string, dob: string)
    ensures name == Ocr.NameFrom(Ocr.NameLines(Ocr.Lines(text)))
    ensures personId == Ocr.ExtractPersonId(text) && dob == Ocr.ExtractDob(text)
    ensures ExtractedFields(name, personId, dob)
  {
    name := Ocr.ExtractName(text);
    dob := Ocr.ExtractDob(text);
    personId := Ocr.ExtractPersonId(text);
    ExtractorsGiveFields(text);
  }

  /** The state of the `IDCardOCR` component. */
  class IdCardOcr {
    var image: Option<string>
    var extractedText: string
    var loading: bool
    var confirmation: bool
    var name: string
    var personId: string
    var dob: string

    /** The review button is only ever shown over extracted fields. */
    predicate Valid()
      reads this
    {
      confirmation ==> ExtractedFields(name, personId, dob)
    }

    constructor ()
      ensures Valid()
      ensures image == None && extractedText == "" && !loading && !confirmation
      ensures name == "" && personId == "" && dob == ""
    {
      image := None;
      extractedText := "";
      loading := false;
      confirmation := false;
      name := "";
      personId := "";
      dob := "";
    }

    /** `handleFileChange`: a chosen file replaces the image and withdraws
        the previous reading; no file changes nothing. */
    method SelectFile(file: Option<string>)
      requires Valid()
      modifies this
      ensures Valid()
      ensures file.None? ==> unchanged(this)
      ensures file.Some? ==> image == file && extractedText == "" && !confirmation
      ensures file.Some? ==>
        loading == old(loading) && name == old(name) && personId == old(personId) && dob == old(dob)
    {
      if file.Some? {
        image := file;
        extractedText := "";
        confirmation := false;
      }
    }

    /** `extractText` and its `onload` handler, with `recognized` the text
        the engine read or `None` when reading the image failed. */
    method ReadCard(recognized: Option<string>)
      requires Valid()
      modifies this
      ensures Valid()
      ensures old(image).None? ==> unchanged(this)
      ensures old(image).Some? && recognized.Some? ==>
        var text := recognized.value;
        name == Ocr.NameFrom(Ocr.NameLines(Ocr.Lines(text)))
        && personId == Ocr.ExtractPersonId(text) && dob == Ocr.ExtractDob(text)
        && extractedText == Summary(name, personId, dob) && confirmation
      ensures old(image).Some? && recognized.None? ==>
        extractedText == ErrorText && confirmation == old(confirmation)
        && name == old(name) && personId == old(personId) && dob == old(dob)
      ensures old(image).Some? ==> image == old(image) && !loading
    {
      if image.None? {
        return;
      }
      if recognized.Some? {
        var n, p, d := ExtractFields(recognized.value);
        Show(n, p, d);
      } else {
        extractedText := ErrorText;
        loading := false;
      }
    }

    /** The fields of a successful reading go on display for review. */
    method Show(n: string, p: string, d: string)
      requires ExtractedFields(n, p, d)
      modifies this
      ensures Valid()
      ensures name == n && personId == p && dob == d
      ensures extractedText == Summary(n, p, d) && confirmation && !loading && image == old(image)
    {
      name, personId, dob := n, p, d;
      extractedText := Summary(n, p, d);
      confirmation := true;
      loading := false;
    }

    /** The submit button is rendered and not disabled: the review is on
        display and no field is "Not Found", so the credential goes out
        over three values of their extractors' shapes. */
    function SubmitEnabled(): (r: bool)
      requires Valid()
      reads this
      ensures r <==> confirmation && name != Ocr.NotFound && personId != Ocr.NotFound && dob != Ocr.NotFound
      ensures r ==> Ocr.WellFormedName(name) && WellFormedId(personId) && Ocr.IsDate(dob)
    {
      confirmation && !MissingInfo(name, personId, dob)
    }

    /** `handleConfirmAndSend`. `fetched` is what `fetchSchemaAndCredDefIds`
        returned, `None` when it threw; `delivered` says whether
        `sendCredential` completed. The result is the credential issue that
        was attempted. */
    method ConfirmAndSend(fetched: Option<Helper.SchemaAndCredDefs>, handoff: Helper.OcrConnection, delivered: bool)
      returns (attempted: Option<CredentialIssue>)
      requires Valid()
      modifies this
      ensures Valid()
      ensures attempted.Some? <==>
        fetched.Some? && handoff.current != "" && fetched.value.credDefIds != []
        && fetched.value.credDefIds[0] != "" && fetched.value.schemaDetails != []
      ensures attempted.Some? ==> attempted.value == CredentialIssue(
        handoff.current, AttributeMapping(name, personId, dob), "", false,
        fetched.value.schemaDetails[0].schemaId, fetched.value.credDefIds[0], false)
      ensures confirmation == (old(confirmation) && !(attempted.Some? && delivered))
      ensures image == old(image) && extractedText == old(extractedText) && loading == old(loading)
      ensures name == old(name) && personId == old(personId) && dob == old(dob)
    {
      attempted := None;
      if fetched.None? {
        return;
      }
      var data := fetched.value;
      var holderConnectionId := handoff.ConnectionId();
      var credDefId := if data.credDefIds == [] then "" else data.credDefIds[0];
      if holderConnectionId == "" || credDefId == "" {
        return;
      }
      var attributes := AttributeMapping(name, personId, dob);
      if data.schemaDetails == [] {
        return;
      }
      attempted := Some(CredentialIssue(holderConnectionId, attributes, "", false,
        data.schemaDetails[0].schemaId, credDefId, false));
      if delivered {
        confirmation := false;
      }
    }
  }
}
