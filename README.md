# IDMSystem core, modelled in Dafny

IDMSystem is a self-sovereign identity demo built on Aries agents. An issuer
registers schemas and credential definitions and issues credentials. A
holder keeps them in a wallet, driven by a browser extension and a local
server. A verifier asks for proofs. A one-time password checks the holder's
e-mail address. An OCR page reads a student card and issues a credential
from it.

This project models the sequential logic that runs through those pages,
routes and agent calls:

- the OCR field extractors;
- the payloads sent to the agents (offers, proposals, proof requests,
  presentations) and the record selectors that read the agents' listings;
- the OTP store and its two routes;
- the three SQLite tables and their routes;
- the invitation retry loop and the proof-status poll;
- the state handlers of the internal and external pages, the holder page
  and the wallet popup.

How the model is shaped:

- **HTTP calls.** Every call to an agent or a route is an input: the
  listing the agent returned, or a function from the request to the reply
  (`Helper.Response`, which is `Failed` or `Ok(body)`). A JavaScript throw
  is an input that is `None`.
- **State.** Module state and React state become classes: the OTP store,
  the tables, the verifier's stored proof settings, the OCR connection
  slot and the page components. Their methods update fields, and their
  contracts state the new state.
- **Values.** JavaScript objects are insertion-ordered association lists
  (`JsObject.Obj`), which is how JavaScript orders keys that are not array
  indices. JSON is a small value type with `Stringify` and `Parse`
  (`Json`). Strings are `seq<char>`, and `split`, `trim`, `indexOf` and
  `replace` are written out with their JavaScript meaning (`Text`).

The files follow the source. Each page, route, table and API helper has its
own module. Shared building blocks live in `wrappers.dfy`, `text.dfy`,
`lists.dfy`, `js_object.dfy`, `json.dfy`, `sql_table.dfy` and
`json_table.dfy`.

## Model

| member | source | states |
|---|---|---|
| Ocr.Lines | lib/OCR.ts:81 | every line kept is trimmed and non-empty |
| Ocr.NameLinesBeforeStop | lib/OCR.ts:85-96 | the name is made of exactly the lines before the first field label that are not titles and are letters-and-spaces without "UNIVERSITY", in their order on the card |
| Ocr.NameLines | lib/OCR.ts:85-96 | the collected lines are input lines that classify as name lines, never more than the input has |
| Ocr.ScanNameLines | lib/OCR.ts:85-96 | the loop over the lines, with `break` and `continue`, collects exactly `NameLines` |
| Ocr.StopLineEndsName | lib/OCR.ts:90 | nothing after the first stopping line contributes to the name |
| Ocr.CollapseFrom | lib/OCR.ts:100 | collapsing white space leaves no two spaces in a row, and keeps a first and last character that are not white space |
| Ocr.ExtractName | lib/OCR.ts:80-103 | the name is the collected lines joined, trimmed, stripped of `&` and `/` and collapsed; it is "Not Found" or a well-formed name |
| Ocr.JoinNameLines | lib/OCR.ts:98 | joining trimmed letters-and-spaces lines with " " gives letters and spaces with letters at both ends |
| Ocr.NameFromShape | lib/OCR.ts:98-102 | no collected line gives "Not Found"; otherwise the name is words of letters separated by single spaces |
| Ocr.ExtractedNameShape | lib/OCR.ts:80-103 | for every text the name is "Not Found" or well-formed |
| Ocr.Leftmost | lib/OCR.ts:107 | `match` takes the leftmost position where the pattern matches |
| Ocr.RunEnd | lib/OCR.ts:106 | the greedy `+` run ends at the first character outside the class |
| Ocr.PersonIdAt | lib/OCR.ts:106 | a capture is a non-empty run of letters, digits and `-` |
| Ocr.ReplaceOWithZero | lib/OCR.ts:110 | every upper-case `O` becomes `0`, and every other character is kept |
| Ocr.ExtractPersonId | lib/OCR.ts:105-114 | a found ID is non-empty, made of letters, digits and `-`, and never contains `O` |
| Ocr.PersonIdOfLabelled | lib/OCR.ts:105-114 | a text that starts with "Person ID:", spaces and an ID yields that ID with `O` turned to `0` |
| Ocr.IdIsTrimmed | lib/OCR.ts:109 | the `trim` of a captured ID changes nothing |
| Ocr.DobAt | lib/OCR.ts:117 | a capture is a D-MMM-YYYY or DD-MMM-YYYY date |
| Ocr.ExtractDob | lib/OCR.ts:116-120 | the result is "Not Found" or a date of that shape |
| Ocr.DobOfLabelled | lib/OCR.ts:116-120 | a text that starts with "DOB:", spaces and a date yields that date |
| Ocr.DobNeedsLabel | lib/OCR.ts:117 | a text without "DOB:" yields "Not Found" |
| Ocr.DateIsTrimmed | lib/OCR.ts:119 | the `trim` of a captured date changes nothing |
| OcrIssuePage.AttributeMapping | app/issuerOCRCredential/OCR/page.tsx:170-174 | the credential's attributes are exactly "Person ID", "Name" and "DOB", in that order, bound to the three extracted values |
| OcrIssuePage.ExtractorsGiveFields | app/issuerOCRCredential/OCR/page.tsx:53-55 | for any text, each of the three fields is "Not Found" or has its extractor's shape |
| OcrIssuePage.ExtractFields | app/issuerOCRCredential/OCR/page.tsx:112-157 | the page's own copies of the extractors give exactly what the `lib/OCR.ts` extractors give |
| OcrIssuePage.IdCardOcr.constructor | app/issuerOCRCredential/OCR/page.tsx:13-22 | the page starts with no image, no text, no confirmation and empty fields |
| OcrIssuePage.IdCardOcr.SelectFile | app/issuerOCRCredential/OCR/page.tsx:24-32 | choosing a file replaces the image, clears the text and withdraws the confirmation; no file changes nothing |
| OcrIssuePage.IdCardOcr.ReadCard | app/issuerOCRCredential/OCR/page.tsx:34-68 | without an image nothing happens; a reading sets the three fields from the extractors, the summary text and the confirmation; a failure shows the error text and keeps the fields |
| OcrIssuePage.IdCardOcr.Show | app/issuerOCRCredential/OCR/page.tsx:57-61 | the fields, the summary and the confirmation are set together |
| OcrIssuePage.IdCardOcr.SubmitEnabled | app/issuerOCRCredential/OCR/page.tsx:148-150 | the submit button is enabled exactly when the review is on display and no field is "Not Found"; it then stands over a well-formed name, person ID and date |
| OcrIssuePage.IdCardOcr.ConfirmAndSend | app/issuerOCRCredential/OCR/page.tsx:159-182 | a credential goes out exactly when the fetch succeeded and there are a handed-over connection, a first cred-def id and a first schema; it carries the three-key mapping; the confirmation is withdrawn only after delivery |
| WalletPopup.MaskUser | app/wallet/popup.js:403-408 | a user part of at most three characters shows its first character and "***"; a longer one shows its first two, "***" and its last two |
| WalletPopup.MaskEmailOf | app/wallet/popup.js:394-411 | an address with exactly one "@" keeps its domain and masks its user part |
| WalletPopup.MaskEmailUnchanged | app/wallet/popup.js:395-398 | an address that does not split into two parts is returned unchanged |
| WalletPopup.MaskHidesMiddle | app/wallet/popup.js:407 | a long user part is shown as seven characters with "***" in the middle |
| WalletPopup.OtpToVerify | app/wallet/popup.js:115-121 | a code is sent exactly when the boxes hold six characters in total, and it is their in-order concatenation |
| WalletPopup.OneCharacterBoxes | app/wallet/popup.js:116 | boxes of one character each spell the code in box order; six of them are sent |
| WalletPopup.ByteToHex | app/wallet/popup.js:584 | every byte becomes exactly two characters |
| WalletPopup.HexEncode | app/wallet/popup.js:583-585 | n bytes become 2n characters |
| WalletPopup.HexEncodeLowerCase | app/wallet/popup.js:480 | every character of the rendering is a digit or a lower-case `a`-`f` |
| WalletPopup.HexDecodeEncode | app/wallet/popup.js:510 | the rendering decodes back to the bytes, high digit first |
| WalletPopup.HashEmail | app/wallet/popup.js:572-591 | an empty address is refused; any other address gives the hex rendering of its digest, which decodes back to the digest |
| WalletServer.CheckConnection | app/wallet/server.js:82-105 | the reply lists the active connections, in order, as id and label; with none it says not connected |
| WalletServer.CheckConnectionReportsActive | app/wallet/server.js:88-97 | every active connection is reported, and every reported one is active |
| WalletServer.Pairs | app/wallet/server.js:131-133 | each attribute gives its name and value, in order |
| WalletServer.CredAttrsObject | app/wallet/server.js:130-133 | the loop builds the object from the pairs; each name maps to the value given last for it |
| WalletServer.ProposeCredential | app/wallet/server.js:125-142 | a missing field gives 400 with nothing sent; otherwise the proposal built from the object is sent, and the status is 200 or 500 as the agent accepts it |
| WalletServer.FirstCharacter | app/wallet/server.js:187 | `state[0]` is a one-character string |
| WalletServer.AsWrittenNeverFindsRequest | app/wallet/server.js:179-197 | as written, the route never shows a request, and any non-empty listing answers 400 |
| WalletServer.AsWrittenMissesReceivedRequest | app/wallet/server.js:187 | a listing with one received request is still answered "no valid proof request" |
| WalletServer.GetProofRequest | app/wallet/server.js:179-197 | as intended: 404 for an empty listing, otherwise the first received request or 400 |
| WalletServer.WalletCredentialsListed | app/wallet/server.js:148-161 | the wallet's credentials are listed exactly when there are some |
| WalletServer.RequestedCredDefIds | app/wallet/server.js:227-229 | an id is requested exactly when it is the non-empty first-restriction cred-def id of a requested attribute |
| WalletServer.MatchCredential | app/wallet/server.js:233 | the match is the first wallet credential whose cred-def id is requested; there is none exactly when no credential's id is |
| WalletServer.SendPresentationRoute | app/wallet/server.js:199-266 | 404 for an empty listing; 400 without a received request; with one, 404 exactly when the wallet lists no credentials, else 400 exactly when the request has no attributes or no credential matches; with a match, an unconfirmed call returns the requested attributes and the matched referent, and a confirmed one sends the presentation for that referent, answering 500 when it fails |
| WalletServer.ConfirmedPresentationIsTheReviewedOne | app/wallet/server.js:245-261 | the credential sent after confirmation is the one shown for review |
| HolderPresentation.PendingRequest | app/api/presentproof/holderApi/sendPresentation.ts:22 | the request answered is the first record in state "request-received"; there is none exactly when no record has that state |
| HolderPresentation.RevealAll | app/api/presentproof/holderApi/sendPresentation.ts:39-45 | the payload's keys are distinct |
| HolderPresentation.RevealAllCoversRequest | app/api/presentproof/holderApi/sendPresentation.ts:39-45 | for distinct requested names, the payload has exactly those names, in order, each revealed from the given credential |
| HolderPresentation.PresentationFor | app/api/presentproof/holderApi/sendPresentation.ts:36-55 | every requested attribute name, in order, is revealed from the given credential; predicates and self-attested attributes are empty, trace and auto-remove are true, and a missing path gives no attributes |
| HolderPresentation.PresentationPostFor | app/api/presentproof/holderApi/sendPresentation.ts:15-66 | something is posted exactly when there is a received request with an exchange id, and it is posted to that exchange |
| HolderPresentation.SendPresentation | app/api/presentproof/holderApi/sendPresentation.ts:12-80 | the result is the agent's reply exactly when a post was made and accepted; otherwise null |
| VerifierProofRequest.WriteJson | app/api/presentproof/verifierApi/sendProofRequest.ts:8 | the setter stores the JSON text under its key and leaves the other keys alone |
| VerifierProofRequest.ReadWritten | app/api/presentproof/verifierApi/sendProofRequest.ts:6-22 | a value set is read back unchanged |
| VerifierProofRequest.ReadUnset | app/api/presentproof/verifierApi/sendProofRequest.ts:12 | with nothing stored, a getter yields `[]` |
| VerifierProofRequest.Seconds | app/api/presentproof/verifierApi/sendProofRequest.ts:45 | the time in seconds is the floor of the milliseconds over 1000 |
| VerifierProofRequest.RequestedAttributesCoverStored | app/api/presentproof/verifierApi/sendProofRequest.ts:41-48 | there is one entry per stored attribute, keyed by it and named after it, restricted to the stored cred-def id and bounded by the time |
| VerifierProofRequest.PlannedRequest | app/api/presentproof/verifierApi/sendProofRequest.ts:24-66 | a request is built only from a non-empty attribute list and a truthy cred-def id; it goes to the verifier's agent at http://localhost:11002, with version "1.0", the given name and connection, and no predicates |
| VerifierProofRequest.UnsetCredDefIdStillRequests | app/api/presentproof/verifierApi/sendProofRequest.ts:21-39 | with no cred-def id ever stored, the truthy default `[]` lets the request through |
| VerifierProofRequest.VerifierStore.constructor | app/api/presentproof/verifierApi/sendProofRequest.ts:3-4 | the variables start as `[]` and null |
| VerifierProofRequest.VerifierStore.SetVerificationAttributes | app/api/presentproof/verifierApi/sendProofRequest.ts:6-9 | the attributes are stored and read back |
| VerifierProofRequest.VerifierStore.SetCredentialDefinitionId | app/api/presentproof/verifierApi/sendProofRequest.ts:15-18 | the cred-def id is stored and read back |
| VerifierProofRequest.VerifierStore.SendProofRequest | app/api/presentproof/verifierApi/sendProofRequest.ts:24-80 | storage is reloaded into the variables; what is posted is the planned request; the result is the agent's reply exactly when it accepted; the call throws exactly in the cases `SendThrows` names |
| CredentialOffer.Preview | app/api/issueCredentials/sendOffer/sendOffer.ts:40-44 | one preview attribute per entry, with the name and value kept and mime type "plain/text" |
| CredentialOffer.OfferPayload | app/api/issueCredentials/sendOffer/sendOffer.ts:33-52 | the connection, schema and cred-def ids are copied; comment, auto-remove and trace take their defaults; the preview type is fixed; the attributes are the entries |
| CredentialOffer.SendCredentialOffer | app/api/issueCredentials/sendOffer/sendOffer.ts:54-69 | the result is true exactly when the agent accepts the payload |
| CredentialProposal.ProposalPayload | app/api/issueCredentials/sendProposal/sendProposal.ts:32-50 | the ids are copied, comment and auto-remove take their defaults, there is no trace field, and the attributes are the entries as "plain/text" |
| CredentialProposal.SendCredentialProposal | app/api/issueCredentials/sendProposal/sendProposal.ts:52-67 | the result is true exactly when the agent accepts the payload |
| CredentialProposal.ProposalCarriesEnteredAttributes | app/api/issueCredentials/sendProposal/sendProposal.ts:38-42 | a name-distinct list turned into an object by the wallet server comes back out of the proposal unchanged |
| CredentialProposal.ProposalKeepsLastValue | app/api/issueCredentials/sendProposal/sendProposal.ts:38-42 | with a repeated name, the proposal carries it once, with the value given last |
| InvitationAcceptance.PingTarget | app/api/invitation/acceptInvitation.ts:24-37 | the ping goes to the first connection in state "response"; there is none exactly when no connection has that state |
| InvitationAcceptance.InitialPings | app/api/invitation/acceptInvitation.ts:24-30 | the first fetch pings at most one connection |
| InvitationAcceptance.AcceptInvitation | app/api/invitation/acceptInvitation.ts:10-55 | a refused invitation returns false with no fetch; otherwise there are two to four fetches; the result is true exactly when one of the three retries finds a "response" connection; a failure costs all four fetches |
| Helper.ResultsOrEmpty | app/api/helper/helper.ts:51-79 | a failed listing reads as empty, and a successful one as its results |
| Helper.PendingExchange | app/api/helper/helper.ts:81-110 | the first record in state "proposal_received", with its id and its attributes (default empty); none when there is no such record or the call failed |
| Helper.Detail | app/api/helper/helper.ts:164-168 | the schema name defaults to "Unknown Schema" and the attributes to empty |
| Helper.FetchSchemaAndCredDefIds | app/api/helper/helper.ts:134-191 | a result exists exactly when every call succeeds and both id lists are non-empty; the details follow the schema ids in order |
| Helper.WalletCredentialIds | app/api/helper/helper.ts:238-261 | each wallet result becomes its referent and cred-def id, in order; a failed call gives empty |
| Helper.OcrConnection.constructor | app/api/helper/helper.ts:263 | the handed-over connection id starts empty |
| Helper.OcrConnection.SetConnectionId | app/api/helper/helper.ts:265-271 | the getter returns the id set last |
| OtpService.GenerateOtp | app/api/otpService/sendOtp/route.ts:5 | the code lies between 100000 and 999999 and is written with six digits |
| OtpService.NumeralLength | app/api/otpService/sendOtp/route.ts:5 | a number with k+1 digits is written with k+1 characters |
| OtpService.LongestPrefix | app/api/otpService/verifyOtp/route.ts:14 | `parseInt` reads the longest run of digits |
| OtpService.NumeralParses | app/api/otpService/verifyOtp/route.ts:14 | `parseInt` of a numeral, with leading spaces and a trailing non-digit, reads the number |
| OtpService.OtpStore.constructor | app/api/otpService/sendOtp/route.ts:3 | the store starts empty |
| OtpService.OtpStore.SendOtp | app/api/otpService/sendOtp/route.ts:7-40 | no address gives 400 and no change; otherwise the new code overwrites that address's entry only, even when the mail fails with 500 |
| OtpService.OtpStore.VerifyOtp | app/api/otpService/verifyOtp/route.ts:4-24 | the stored codes stay in range; a missing field gives 400; the answer is 200 exactly when the stored code equals `parseInt` of the input; success removes that address only, and failure changes nothing |
| OtpService.SentCodeAcceptedOnce | app/api/otpService/verifyOtp/route.ts:14-16 | the code just sent verifies as mailed, and only once |
| SqlTable.InsertKeepsAutoIds | lib/databases/database/credonDb.ts:8 | an insert with the next autoincrement id keeps ids increasing |
| SqlTable.AutoIdsUnique | lib/databases/database/credonDb.ts:8 | autoincrement ids are unique |
| JsonTable.ReadRows | lib/databases/database/proofConfig.ts:21-28 | reading parses every stored row, in order; it fails exactly when some row does not parse |
| JsonTable.ReadAfterInsert | lib/databases/database/proofConfig.ts:16-28 | a row inserted with a stringified value is read back with that value |
| CredonDb.WithStateChangesOnlyThatRow | lib/databases/database/credonDb.ts:23-26 | an update changes only the state of the row with that id; an unknown id changes nothing |
| CredonDb.WithStateChangesAtMostOneRow | lib/databases/database/credonDb.ts:23-26 | at most one row changes |
| CredonDb.CredonTable.constructor | lib/databases/database/credonDb.ts:5-14 | the table starts empty |
| CredonDb.CredonTable.InsertCredential | lib/databases/database/credonDb.ts:17-20 | one row is added with the next id and the given label, connection and state |
| CredonDb.CredonTable.UpdateCredentialState | lib/databases/database/credonDb.ts:23-26 | the rows become those with that id's state replaced |
| CredonDb.CredonTable.GetCredentials | lib/databases/database/credonDb.ts:29-36 | every row is listed, in order, with its fields |
| CredentialDb.CredentialTable.constructor | lib/databases/database/credentialDb.ts:5-13 | the table starts empty |
| CredentialDb.CredentialTable.InsertCredential | lib/databases/database/credentialDb.ts:15-26 | one row is added with the address and the stringified attributes, and it is read back parsed |
| ProofConfigDb.ProofConfigTable.constructor | lib/databases/database/proofConfig.ts:5-14 | the table starts empty |
| ProofConfigDb.ProofConfigTable.InsertProofConfig | lib/databases/database/proofConfig.ts:16-28 | one row is appended with the label, cred-def id and stringified attributes, and it is read back parsed |
| ProofConfigRoute.PostProofConfig | app/api/databasesApi/dbProofConfig/route.ts:4-21 | 400 with no change when the label, the cred-def id, or both lists are missing; otherwise 200 and one row appended, with a missing list stored as null |
| ProofConfigRoute.ByOwner | app/api/databasesApi/dbProofConfig/route.ts:31 | exactly the rows with that label, in stored order |
| ProofConfigRoute.GetProofConfigs | app/api/databasesApi/dbProofConfig/route.ts:23-38 | without a label every row, with one the rows of that label |
| ProofConfigRoute.SavedConfigIsLatest | app/api/databasesApi/dbProofConfig/route.ts:4-38 | a configuration just saved is the last one listed under its label |
| CredonRoute.Field | lib/databases/database/credonDb.ts:29-36 | a listed record has a label but no `email` field, which reads as `undefined` |
| CredonRoute.GetHoldersIsConjunction | app/api/databasesApi/dbCredon/route.ts:14-34 | the two filters are one conjunction over the given parameters, in stored order; a given e-mail matches no record |
| CredonRoute.EmailQueryListsNothing | app/api/databasesApi/dbCredon/route.ts:20-24 | since the `credon` records have no e-mail, any `?email=` query lists nothing; with no parameter every record is listed |
| CredonRoute.PlannedUpdatesFollowFields | app/api/databasesApi/dbCredon/route.ts:46-64 | an update is attempted exactly for the fields present; the new e-mail, connection and exchange are keyed by label; the status goes by label and by e-mail |
| CredonRoute.AnyChangedAppend | app/api/databasesApi/dbCredon/route.ts:47-63 | `updated = update(...) \|\| updated` accumulates whether any update changed something |
| CredonRoute.Attempt | app/api/databasesApi/dbCredon/route.ts:46-64 | each guarded update is appended when its field is present, and the flag follows |
| CredonRoute.Put | app/api/databasesApi/dbCredon/route.ts:36-75 | no label and no e-mail gives 400 with no update; otherwise the planned updates are made and the answer is "Update successful" exactly when one changed something |
| SchemaRegistration.VersionFields | app/api/registerschemacred/registerschemacred.ts:10 | the version is three dot-separated numerals of one or two digits, reading as the three draws |
| SchemaRegistration.ReplaceFirstSpace | app/api/registerschemacred/registerschemacred.ts:23 | only the first space becomes `_`, and the length is kept |
| SchemaRegistration.RegisterSchemaAndCredDef | app/api/registerschemacred/registerschemacred.ts:4-36 | a missing or empty schema id stops registration; otherwise the cred-def is for that schema, tagged with the name, with registry size 1000 exactly when revocation is asked for; the result pairs both ids exactly when the cred-def id came back |
| CredentialDefinition.Body | app/api/registerschemacred/credentialdefinition/credentialdefinition.ts:13-21 | the fields are copied, and the registry size is present exactly when revocation is on and the size is non-zero |
| CredentialDefinition.CreateCredentialDefinition | app/api/registerschemacred/credentialdefinition/credentialdefinition.ts:5-39 | the id is the agent's answer exactly when the call succeeded with a non-empty id; otherwise null |
| AttributeList.AddAttribute | app/issuer/internal/page.tsx:34-39 | the trimmed input is appended exactly when it is non-empty and not yet listed, and the box is then cleared; the list stays duplicate-free |
| AttributeList.RemoveAttribute | app/issuer/internal/page.tsx:41-43 | exactly that attribute goes, the rest are kept in order, and the list stays duplicate-free |
| AttributeList.RemoveUndoesAdd | app/issuer/internal/page.tsx:34-43 | removing an attribute just added gives the list back |
| AttributeList.Toggle | app/verifier/internal/page.tsx:56-62 | the attribute's membership flips, the others are kept, and the list stays duplicate-free |
| AttributeList.ToggleTwice | app/verifier/internal/page.tsx:56-62 | ticking an unticked attribute twice gives the list back |
| ProofConfigEditor.Latest | app/verifier/internal/page.tsx:18-19 | the latest configuration is the last one listed, and there is one exactly when the listing is non-empty |
| ProofConfigEditor.SaveThenReload | app/verifier/internal/page.tsx:11-84 | a configuration saved under a label is what the editor loads next for that label |
| ProofConfigEditor.Editor.constructor | app/verifier/internal/page.tsx:5-9 | the editor starts with no id, no attributes and empty lists |
| ProofConfigEditor.Editor.LoadSavedConfig | app/verifier/internal/page.tsx:11-29 | the latest configuration fills the id and both lists; without one nothing changes |
| ProofConfigEditor.Editor.EnterCredDefId | app/verifier/internal/page.tsx:102-108 | typing sets the id only |
| ProofConfigEditor.Editor.FetchAttributes | app/verifier/internal/page.tsx:31-53 | no id alerts without a fetch; otherwise the agent's key list replaces the attributes, or a failure alerts |
| ProofConfigEditor.ToggledTicks | app/issuerOCRCredential/internal/page.tsx:144-150 | an array has the attribute toggled; a string throws when it holds the attribute as a substring and is otherwise spread into its characters with the attribute after them; `null` and objects throw |
| ProofConfigEditor.Editor.ToggleAttribute | app/issuerOCRCredential/internal/page.tsx:144-150 | the ticked list becomes what the updater gives, or stays as it was when the updater throws; an array is always toggled |
| ProofConfigEditor.Editor.ConfirmSelectedAttributes | app/verifier/internal/page.tsx:65-84 | the ticked list is posted under the editor's label and confirmed only when the save succeeded; a refused save alerts and changes nothing |
| IssuerInternal.HolderLabelOf | app/issuerProvideCredential/internal/page.tsx:68-72 | the label is the address up to its first "@" (all of it without one), and contains no "@" |
| IssuerInternal.PlannedSend | app/issuerProvideCredential/internal/page.tsx:74-97 | a credential goes out only to the first connection carrying the label, with the form, the first schema and the first cred-def id; none is sent when a cred-def id exists but no connection has the label |
| IssuerInternal.LabelsAgree | app/issuerOCRCredential/internal/page.tsx:155 | splitting the address when typed, or keeping it and splitting when sending, finds the same connection |
| IssuerInternal.IssuerPage.constructor | app/issuer/internal/page.tsx:9-14 | the page starts empty |
| IssuerInternal.IssuerPage.LoadSchemaAttributes | app/issuerProvideCredential/internal/page.tsx:21-33 | the first schema's attributes are shown when there is a schema |
| IssuerInternal.IssuerPage.AddAttribute | app/issuerProvideCredential/internal/page.tsx:53-58 | the list and the box become what `AttributeList.AddAttribute` gives, and stay duplicate-free |
| IssuerInternal.IssuerPage.RemoveAttribute | app/issuerOCRCredential/internal/page.tsx:66-68 | the list becomes what `AttributeList.RemoveAttribute` gives |
| IssuerInternal.IssuerPage.RegisterSchemaAndCredDef | app/issuer/internal/page.tsx:16-32 | the schema is registered with revocation, and the page keeps the new cred-def id only when registration succeeded |
| IssuerInternal.IssuerPage.ChangeField | app/issuerProvideCredential/internal/page.tsx:64-66 | one form field is set, and the keys stay distinct |
| IssuerInternal.IssuerPage.ChangeHolderLabel | app/issuerOCRCredential/internal/page.tsx:74-77 | the providing issuer's page keeps the label, and the OCR issuer's page keeps the whole address |
| IssuerInternal.IssuerPage.SendCredential | app/issuerOCRCredential/internal/page.tsx:152-176 | what is sent is the planned send for the lookup label |
| IssuerInternal.IssuerPage.Submit | app/issuerOCRCredential/internal/page.tsx:178-190 | the address and the form are stored as a credential row and read back as stored |
| ExternalLogin.AsWrittenRequestMissesConnection | app/verifier/external/page.tsx:54 | as written, the request's connection is the agent's URL and its name is the connection id; on the OCR issuer's page it also goes to the wrong agent |
| ExternalLogin.OcrRequestMissesAgent | app/issuerOCRCredential/external/page.tsx:62 | even with the arguments in their places, the OCR issuer's request goes to the verifier's agent, not the issuer's agent that holds the connection |
| ExternalLogin.RequestOf | app/api/presentproof/verifierApi/sendProofRequest.ts:65 | a call posts the request `sendProofRequest` plans, to the call's agent, and posts one exactly when a request can be planned |
| ExternalLogin.RequestReachesConnection | app/verifier/external/page.tsx:54 | with the intended call the request goes to the holder's connection, on the page's own agent, under the name "Proof"; on the verifier's page that is what `sendProofRequest` posts once the arguments are in place |
| ExternalLogin.FindRecord | app/verifier/external/page.tsx:58-85 | the first record whose exchange id (or connection id) holds the value; none exactly when no record's does |
| ExternalLogin.Step | app/verifier/external/page.tsx:81-108 | one poll keeps the exchange; it deletes only the watched exchange and then redirects with a verified verdict |
| ExternalLogin.DoneRecord | app/verifier/external/page.tsx:85-90 | the record found is the watched exchange's, in state "done" |
| ExternalLogin.DoneRecordIsFirst | app/verifier/external/page.tsx:85-90 | the record comes from the first listing in which the exchange shows as "done"; there is none exactly when it is "done" in no listing |
| ExternalLogin.RunVerdict | app/verifier/external/page.tsx:80-116 | polling stops exactly at the first "done" record; the verdict is that record's; only a verified proof is deleted and redirects; before that nothing changes and polling goes on |
| ExternalLogin.ConnectionByLabel | app/verifier/external/page.tsx:47 | the connection is the first one carrying the label; none when no connection does |
| ExternalLogin.HandledResolvesConnection | app/verifier/external/page.tsx:40-78 | only a successful connection message with a known label changes anything; the page then holds that connection, the OCR page hands it on, any exchange watched is that connection's, and verdicts are untouched |
| ExternalLogin.OcrIssuerNeedsConfig | app/issuerOCRCredential/external/page.tsx:56-63 | the OCR issuer's page asks for a proof only with a saved "Issuer2" configuration, and a failed fetch stops after the handover |
| ExternalLogin.LoginPage.constructor | app/verifier/external/page.tsx:11-20 | the page starts with no connection, no exchange and no messages |
| ExternalLogin.LoginPage.HandleLogin | app/issuerOCRCredential/external/page.tsx:22-39 | the OCR page first posts a login request; an invitation URL is posted to the wallet |
| ExternalLogin.LoginPage.HandleMessage | app/issuerOCRCredential/external/page.tsx:41-87 | the page's state becomes what `Handled` gives, with the proof request recorded as the intended call |
| ExternalLogin.LoginPage.CheckProofStatus | app/issuerOCRCredential/external/page.tsx:89-124 | one tick is one `Step`, toward the page's own success path |
| HolderPage.EncodedInvitation | app/holder/page.tsx:83-88 | the invitation text is non-empty and holds no "oob=" |
| HolderPage.InvitationExtracted | app/holder/page.tsx:83 | a URL `<base>oob=<payload>` with one marker yields the payload |
| HolderPage.NoMarkerNoInvitation | app/holder/page.tsx:84-87 | a URL without "oob=" yields no invitation |
| HolderPage.ToStandardBase64 | app/holder/page.tsx:91 | each `-` becomes `+` and each `_` becomes `/`, and the length is kept |
| HolderPage.StandardBase64RoundTrip | app/holder/page.tsx:91 | the translation loses nothing on URL-safe text |
| HolderPage.CombineSchemas | app/holder/page.tsx:50-56 | the i-th schema gets the i-th cred-def id, or "No Credential Definition" |
| HolderPage.Holder.constructor | app/holder/page.tsx:9-23 | the page starts empty |
| HolderPage.Holder.FetchConnections | app/holder/page.tsx:34-44 | one line per connection, and the first connection is selected |
| HolderPage.Holder.FetchSchemas | app/holder/page.tsx:46-64 | the schemas become the combined list when the fetch succeeded |
| HolderPage.Holder.EnterInvitationUrl | app/holder/page.tsx:149 | typing sets the URL only |
| HolderPage.Holder.AcceptInvitation | app/holder/page.tsx:81-112 | the invitation is the text after "oob=", URL-decoded and made standard base64; it is accepted exactly when a retry finds a "response" connection, which then reloads the connections (one "label: state" line per connection, the first connection selected) and clears the box |
| HolderPage.Holder.ChangeAttribute | app/holder/page.tsx:114-119 | one form field is set, and every other is kept |
| HolderPage.Holder.EnterIds | app/holder/page.tsx:195-203 | typing sets the schema and cred-def ids |
| HolderPage.Holder.SendCredentialProposal | app/holder/page.tsx:122-136 | nothing goes out without a connection, a schema id and a cred-def id; otherwise a copy of the form is proposed |
| Json.ParseStringify | lib/databases/database/proofConfig.ts:16-27 | `JSON.parse` of `JSON.stringify` gives the value back |
| JsObject.GetSet | app/holder/page.tsx:115-118 | a field set is read back, and no other field changes |
| JsObject.GetFromEntries | app/wallet/server.js:131-133 | in an object built entry by entry, a later entry with the same key overwrites an earlier one |
| JsObject.FromDistinctEntries | app/api/issueCredentials/sendProposal/sendProposal.ts:38 | with distinct keys, `Object.entries` gives the entries back as they went in |
| Text.JoinSplit | app/wallet/popup.js:395 | joining the pieces of a split with the separator gives the string back |
| Text.SplitCharCount | app/wallet/popup.js:396 | splitting on one character gives one piece more than it has occurrences |
| Lists.FilterKeepsDistinct | app/issuer/internal/page.tsx:42 | filtering keeps a list duplicate-free |

## Left out

- Network, timers and the browser are not modelled. Every agent call, route
  call, `fetch` and `window.postMessage` is an input or an output. The
  3-second poll interval and the 2-second retry delay become one step per
  listing.
- Several JavaScript built-ins are inputs rather than models:
  - `crypto.subtle.digest` and PBKDF2 in `hashEmail` and `hashPassword`;
  - `crypto.getRandomValues` and `Math.random` (the OTP and the version
    draws);
  - `decodeURIComponent`, `atob` and `JSON.parse` of the invitation.
- Tesseract, `processImage` (canvas masking, greyscale, binarisation) and
  the OCR progress bar are left out, because they are image processing. The
  model starts from the recognised text.
- Nodemailer is left out. Whether the mail went out is an input to
  `OtpService.OtpStore.SendOtp`. The "expires in 5 minutes" text in the mail
  is not enforced anywhere, so no expiry is modelled.
- `OtpService.GenerateOtp`: JavaScript numbers are modelled as unbounded
  integers. Floating-point rounding in `Math.floor(100000 + Math.random() *
  900000)` is not modelled; the draw is taken as an integer below 900000.
- Some calls depend on code that is not part of this model:
  - the module that defines `sendCredential`, called from the issuer, OCR
    and holder pages (the model records the call it makes);
  - `createSchema` (its result is the input `schemaIdFor`);
  - `deleteConnections`;
  - the store update functions imported by the dbCredon route.
- The dbCredon route imports `updateEmail`, `updateConnectionId` and other
  update functions that `credonDb.ts` does not define, and its POST passes
  two arguments to a three-argument `insertCredential`. The PUT handler is
  modelled against those updates as abstract operations. The POST handler
  is left out.
- The dbCredentials GET route is left out; it only lists the table
  (`CredentialDb.CredentialTable.GetCredentials` models the read).
- `deletePresentProof` is recorded as the exchange id appended to the poll's
  `deleted` list. Its boolean result is never read by the pages, so it is
  not modelled.
- The external pages call `sendProofRequest` with extra arguments (the
  latest "Issuer2" configuration's attributes and cred-def id), which
  JavaScript drops. Only the non-emptiness of that listing affects the
  model.
- React rendering, CSS, dialogs and `alert` wording are left out. Alerts
  are kept as a list of kinds.
- The wallet extension's background and content scripts, the other popup
  handlers (password storage, the extension's messaging), `/accept-invitation`
  and `/get-schema-and-cred-def-ids` on the wallet server, and the revocation
  and invitation-creation helpers are not part of this model; they sit outside the issuing, proving and login flows modelled here.
- `ExternalLogin.LoginPage.HandleLogin`: the invitation URL is an input. The
  call that creates it is not modelled.
- `VerifierProofRequest.VerifierStore.SendProofRequest`: the time is one
  input, `nowMs`. The source reads the clock twice, and the two readings
  can differ by a second.

- FromDistinctEntries: JavaScript lists object keys that are array indices
  ("0", "2", ...) first, in ascending order, and treats "__proto__" as the
  prototype. `JsObject.Obj` keeps every key in insertion order, so the
  order promised holds only for keys that are neither.
- ProposalCarriesEnteredAttributes: for the same reason, an entered
  attribute named "2" after one named "name" comes back first in
  JavaScript, and one named "__proto__" is lost. The model keeps the
  entered order.
- RequestedAttributesCoverStored: likewise, the keys come back in stored
  order only when no stored attribute name is an array index or
  "__proto__".
- Handled and HandleMessage record the intended `sendProofRequest` call
  (`ProofRequestCall`), as corrected under "## Findings". The call the
  pages make is `ProofRequestCallAsWritten`, and its effect is stated by
  `AsWrittenRequestMissesConnection` and `OcrRequestMissesAgent`.
- SendPresentationRoute: the `/send-presentation` route and the
  `sendPresentation` it calls each fetch the agent's records. The model
  reads one listing for both, so a request that arrives between the two
  fetches is not modelled. A parsed agent reply that is falsy, which the
  route answers with 500, is treated as sent.
- ConfirmedPresentationIsTheReviewedOne: it holds because the review
  call, the confirmed call and `sendPresentation`'s own fetch are all
  given one listing and one wallet. The agent's records can change
  between the two calls, and then the credential sent can differ from
  the one shown.
- MaskUser and OtpToVerify count characters, where JavaScript's `length`
  and `slice` count UTF-16 code units. A user part or a box holding a
  character outside the Basic Multilingual Plane masks or counts
  differently.
- Parse reads back what `Stringify` writes, with no white space between
  tokens. Stored text with such white space, which `JSON.parse` accepts,
  is read as a parse failure.

## Findings

| source | as written | input that shows it | evidently intended | confidence | as-written member | corrected member |
|---|---|---|---|---|---|---|
| app/wallet/server.js:187 | `/get-proof-request` compares `p.state[0]`, a single character, with "request_received" | a listing with one record in state "request-received" answers 400 "No valid proof request found." | return the first record in state "request-received", as `/send-presentation` does | not executed | WalletServer.AsWrittenMissesReceivedRequest | WalletServer.GetProofRequest |
| app/verifier/external/page.tsx:54 | both external pages call `sendProofRequest(URL, connectionId, "Proof", ...)`, but the function takes `(connectionId, proofRequestName)`; the same holds at app/issuerOCRCredential/external/page.tsx:62 | a holder on connection "c1" gets a request whose `connection_id` is "http://localhost:11002" and whose name is "c1" | `sendProofRequest(connectionId, "Proof")` | not executed | ExternalLogin.AsWrittenRequestMissesConnection | ExternalLogin.RequestReachesConnection |
| app/issuerOCRCredential/external/page.tsx:62 | the OCR issuer's page makes its connection with the issuer's agent at http://localhost:11004, but `sendProofRequest` always posts to the verifier's agent at http://localhost:11002 (app/api/presentproof/verifierApi/sendProofRequest.ts:65) | a holder connected to the issuer's agent as "c1" is asked for a proof on connection "c1" at the verifier's agent, which holds no such connection, so the page's poll of the issuer's agent never sees the exchange | post the request to the page's own agent | not executed | ExternalLogin.OcrRequestMissesAgent | ExternalLogin.RequestReachesConnection |
